/**
 * The exact language of every outcome of ReadMessage (csms/internal/ws/simple.go): which byte streams make it return a
 * message, report a close, or fail, for each of its six ways to fail. Stated over what a client may send, with the numbers
 * of sections 5.2 and 5.5 of RFC 6455 written out.
 */
module WsOutcomes {
  import opened WsBytes
  import opened WsFrames

  // ----- The languages -----

  /** The stream is one legal client frame, in some length form, under some mask and with some reserved bits, then rest. */
  ghost predicate IsFrame(input: Bytes, fin: bool, opcode: bv8, payload: Bytes, rest: Bytes) {
    exists f :: Legal(f) && f.fin == fin && f.opcode == opcode && f.payload == payload && input == Encode(f) + rest
  }

  /** The stream starts with two bytes of which the second lacks the mask bit. */
  ghost predicate StartsUnmasked(input: Bytes, rest: Bytes) {
    exists first, second :: UnmaskedHeader(input, first, second, rest)
  }

  ghost predicate UnmaskedHeader(input: Bytes, first: bv8, second: bv8, rest: Bytes) {
    second & 0x80 == 0 && input == [first, second] + rest
  }

  /** A masked header announcing 2^63 bytes or more. */
  ghost predicate OversizedHeader(h: Bytes) {
    |h| == 10 && h[1] == 0xFF && FromBigEndian(h[2..]) >= 0x8000_0000_0000_0000
  }

  ghost predicate StartsOversized(input: Bytes, rest: Bytes) {
    exists h :: OversizedHeader(h) && input == h + rest
  }

  ghost predicate CompletesTo(input: Bytes, more: Bytes) {
    more != [] && (OversizedHeader(input + more) || exists f :: Legal(f) && input + more == Encode(f))
  }

  /** The stream breaks off inside a legal frame, or inside the header of an oversized one. */
  ghost predicate BreaksOff(input: Bytes) {
    exists more :: CompletesTo(input, more)
  }

  /** What a stream that starts with no final pong must start with, for each outcome of a read. */
  ghost predicate Decides(input: Bytes, r: ReadResult) {
    match r
    case Message(opcode, payload, rest) => (opcode == 1 || opcode == 2) && IsFrame(input, true, opcode, payload, rest)
    case Closed(payload, rest) => IsFrame(input, true, 8, payload, rest)
    case Failed(PongRejected, rest) => exists payload :: IsFrame(input, true, 9, payload, rest)
    case Failed(Fragmented, rest) => exists opcode, payload :: IsFrame(input, false, opcode, payload, rest)
    case Failed(UnsupportedOpcode, rest) =>
      exists opcode, payload :: IsFrame(input, true, opcode, payload, rest) && !(opcode in {1, 2, 8, 9, 10})
    case Failed(Unmasked, rest) => StartsUnmasked(input, rest)
    case Failed(TooLarge, rest) => StartsOversized(input, rest)
    case Failed(EndOfInput, rest) => rest == [] && BreaksOff(input)
  }

  /** A legal, final pong. */
  predicate IsPong(f: Sent) { Legal(f) && f.fin && f.opcode == 10 }

  ghost predicate AllPongs(ps: seq<Sent>) {
    forall i :: 0 <= i < |ps| ==> IsPong(ps[i])
  }

  ghost predicate PongsThen(ps: seq<Sent>, input: Bytes, more: Bytes) {
    AllPongs(ps) && AllLegal(ps) && input == EncodeAll(ps) + more
  }

  // ----- Single frames -----

  lemma Append<T>(a: seq<T>, b: seq<T>, i: nat, j: nat)
    requires i <= j <= |a|
    ensures (a + b)[i..j] == a[i..j] && (a + b)[j..] == a[j..] + b
  {
  }

  lemma MoreBody(a: Bytes, b: Bytes, n: nat, length: nat)
    requires 2 <= n <= |a| && n + 4 + length <= |a|
    ensures var r := ReadBody(a, n, length);
            r.Frame? && ReadBody(a + b, n, length) == Frame(r.fin, r.opcode, r.payload, r.rest + b)
  {
    var k := n + 4 + length;
    Append(a, b, n, n + 4);
    Append(a, b, n + 4, k);
  }

  /** What follows the outcome of a read that did not run out of input. */
  function Followed(r: FrameResult, b: Bytes): FrameResult {
    match r
    case Frame(fin, opcode, payload, rest) => Frame(fin, opcode, payload, rest + b)
    case Bad(e, rest) => Bad(e, rest + b)
  }

  /** The bytes after a frame, or after an error other than the end of input, do not matter. */
  lemma MoreInput(a: Bytes, b: Bytes)
    requires ReadFrame(a) != Bad(EndOfInput, [])
    ensures ReadFrame(a + b) == Followed(ReadFrame(a), b)
  {
    Append(a, b, 2, 2);
    assert (a + b)[1] == a[1] && (a + b)[0] == a[0];
    if a[1] & 0x80 != 0 {
      MoreMasked(a, b, 2 + ExtendedSize(a[1] & 0x7F));
    }
  }

  /** The reader past a masked header of n bytes. */
  lemma ReadMasked(a: Bytes, n: nat)
    requires 2 <= n <= |a| && a[1] & 0x80 != 0 && n == 2 + ExtendedSize(a[1] & 0x7F)
    ensures var length := PayloadLength(a[1] & 0x7F, a[2..n]);
            ReadFrame(a) == if length > MAX_INT then Bad(TooLarge, a[n..]) else ReadBody(a, n, length)
  {
  }

  lemma MoreMasked(a: Bytes, b: Bytes, n: nat)
    requires ReadFrame(a) != Bad(EndOfInput, []) && a[1] & 0x80 != 0 && n == 2 + ExtendedSize(a[1] & 0x7F)
    ensures ReadFrame(a + b) == Followed(ReadFrame(a), b)
  {
    Append(a, b, 2, n);
    ReadMasked(a, n);
    ReadMasked(a + b, n);
    var length := PayloadLength(a[1] & 0x7F, a[2..n]);
    if length <= MAX_INT {
      assert n + 4 + length <= |a|;
      MoreBody(a, b, n, length);
    }
  }

  /** A frame is read exactly when the stream starts with a legal one. */
  lemma FrameIff(input: Bytes, fin: bool, opcode: bv8, payload: Bytes, rest: Bytes)
    ensures ReadFrame(input) == Frame(fin, opcode, payload, rest) <==> IsFrame(input, fin, opcode, payload, rest)
  {
    if ReadFrame(input) == Frame(fin, opcode, payload, rest) {
      var f := FrameSound(input);
    }
    if IsFrame(input, fin, opcode, payload, rest) {
      var f :| Legal(f) && f.fin == fin && f.opcode == opcode && f.payload == payload && input == Encode(f) + rest;
      FrameRoundTrip(f, rest);
    }
  }

  lemma UnmaskedIff(input: Bytes, rest: Bytes)
    ensures ReadFrame(input) == Bad(Unmasked, rest) <==> StartsUnmasked(input, rest)
  {
    if ReadFrame(input) == Bad(Unmasked, rest) {
      assert UnmaskedHeader(input, input[0], input[1], rest);
    }
    if first, second :| UnmaskedHeader(input, first, second, rest) {
      UnmaskedIsRead(first, second, rest);
    }
  }

  lemma UnmaskedIsRead(first: bv8, second: bv8, rest: Bytes)
    requires second & 0x80 == 0
    ensures ReadFrame([first, second] + rest) == Bad(Unmasked, rest)
  {
    var input := [first, second] + rest;
    assert input[1] == second && input[2..] == rest;
  }

  /** Only an eight-byte length can be too large. */
  lemma LargeLength(second: bv8, extended: Bytes)
    requires second & 0x80 != 0 && |extended| == ExtendedSize(second & 0x7F)
    ensures PayloadLength(second & 0x7F, extended) > MAX_INT <==> second == 0xFF && FromBigEndian(extended) >= 0x8000_0000_0000_0000
  {
    PowTwoAndEight();
    FromBound(extended);
    HeaderBits(0, second);
    if second & 0x7F != 126 && second & 0x7F != 127 {
      SmallLength(second & 0x7F);
    }
    AllOnes(second);
  }

  lemma AllOnes(second: bv8)
    requires second & 0x80 != 0
    ensures second & 0x7F == 127 <==> second == 0xFF
  {
  }

  lemma OversizedIff(input: Bytes, rest: Bytes)
    ensures ReadFrame(input) == Bad(TooLarge, rest) <==> StartsOversized(input, rest)
  {
    if ReadFrame(input) == Bad(TooLarge, rest) {
      var n := 2 + ExtendedSize(input[1] & 0x7F);
      LargeLength(input[1], input[2..n]);
      AllOnes(input[1]);
      var h := input[..10];
      assert h[2..] == input[2..n] && input == h + rest;
      assert OversizedHeader(h);
    }
    if StartsOversized(input, rest) {
      var h :| OversizedHeader(h) && input == h + rest;
      OversizedIsRead(h);
      MoreInput(h, rest);
      assert [] + rest == rest;
    }
  }

  lemma OversizedIsRead(h: Bytes)
    requires OversizedHeader(h)
    ensures ReadFrame(h) == Bad(TooLarge, [])
  {
    AllOnes(h[1]);
    assert h[2..10] == h[2..];
    LargeLength(h[1], h[2..]);
  }

  // ----- The end of input -----

  function Zeros(n: nat): (z: Bytes)
    ensures |z| == n
  {
    seq(n, _ => 0)
  }

  /** A stream whose header is there but whose key or payload is not all there can be completed to a frame. */
  lemma CompleteBody(input: Bytes)
    requires |input| >= 2 && input[1] & 0x80 != 0
    requires var n := 2 + ExtendedSize(input[1] & 0x7F);
             n <= |input| && PayloadLength(input[1] & 0x7F, input[2..n]) <= MAX_INT
             && |input| < n + 4 + PayloadLength(input[1] & 0x7F, input[2..n])
    ensures BreaksOff(input)
  {
    var n := 2 + ExtendedSize(input[1] & 0x7F);
    var length := PayloadLength(input[1] & 0x7F, input[2..n]);
    var more := Zeros(n + 4 + length - |input|);
    var all := input + more;
    assert all[1] == input[1] && all[2..n] == input[2..n];
    assert ReadFrame(all) == ReadBody(all, n, length);
    assert ReadFrame(all).rest == [];
    FramedCompletion(input, more);
  }

  lemma FramedCompletion(input: Bytes, more: Bytes)
    requires more != [] && ReadFrame(input + more).Frame? && ReadFrame(input + more).rest == []
    ensures BreaksOff(input)
  {
    var f := FrameSound(input + more);
    assert Encode(f) + [] == Encode(f);
    assert CompletesTo(input, more);
  }

  /** A stream that breaks off anywhere after a complete header or in it can be completed if a longer one can. */
  lemma BreaksOffEarlier(input: Bytes, more: Bytes)
    requires BreaksOff(input + more)
    ensures BreaksOff(input)
  {
    var rest :| CompletesTo(input + more, rest);
    assert (input + more) + rest == input + (more + rest);
    assert CompletesTo(input, more + rest);
  }

  /** A masked stream with a complete header that does not announce too much, and nothing after it. */
  lemma CompleteHeader(input: Bytes)
    requires |input| >= 2 && input[1] & 0x80 != 0 && |input| == 2 + ExtendedSize(input[1] & 0x7F)
    ensures BreaksOff(input) || OversizedHeader(input)
  {
    var n := 2 + ExtendedSize(input[1] & 0x7F);
    assert input[2..n] == input[2..];
    LargeLength(input[1], input[2..]);
    AllOnes(input[1]);
    if PayloadLength(input[1] & 0x7F, input[2..]) <= MAX_INT {
      CompleteBody(input);
    }
  }

  /** A stream that breaks off inside its extended length. */
  lemma CompleteLength(input: Bytes)
    requires |input| >= 2 && input[1] & 0x80 != 0 && |input| < 2 + ExtendedSize(input[1] & 0x7F)
    ensures BreaksOff(input)
  {
    var more := Zeros(2 + ExtendedSize(input[1] & 0x7F) - |input|);
    assert (input + more)[1] == input[1];
    CompleteHeader(input + more);
    if OversizedHeader(input + more) {
      assert CompletesTo(input, more);
    } else {
      BreaksOffEarlier(input, more);
    }
  }

  lemma EndOfInputBreaksOff(input: Bytes)
    requires ReadFrame(input) == Bad(EndOfInput, [])
    ensures BreaksOff(input)
  {
    if |input| < 2 {
      var more := if input == [] then [0x81, 0x80] else [0x80];
      var header := input + more;
      assert header[1] == 0x80 && |header| == 2;
      CompleteHeader(header);
      BreaksOffEarlier(input, more);
    } else if |input| < 2 + ExtendedSize(input[1] & 0x7F) {
      CompleteLength(input);
    } else {
      CompleteBody(input);
    }
  }

  lemma CompletionIsRead(input: Bytes, more: Bytes)
    requires CompletesTo(input, more)
    ensures ReadFrame(input + more) != Bad(EndOfInput, []) && ReadFrame(input + more).rest == []
  {
    if OversizedHeader(input + more) {
      OversizedIsRead(input + more);
    } else {
      var f :| Legal(f) && input + more == Encode(f);
      FrameRoundTrip(f, []);
      assert Encode(f) + [] == Encode(f);
    }
  }

  /** The read fails for want of input exactly when the stream breaks off. */
  lemma EndOfInputIff(input: Bytes)
    ensures ReadFrame(input) == Bad(EndOfInput, []) <==> BreaksOff(input)
  {
    if ReadFrame(input) == Bad(EndOfInput, []) {
      EndOfInputBreaksOff(input);
    } else {
      forall more | more != [] ensures !CompletesTo(input, more) {
        MoreInput(input, more);
        if CompletesTo(input, more) {
          CompletionIsRead(input, more);
        }
      }
    }
  }

  // ----- Reads -----

  lemma ErrorsEndEmpty(input: Bytes)
    ensures ReadFrame(input).Bad? && ReadFrame(input).error == EndOfInput ==> ReadFrame(input).rest == []
    ensures ReadFrame(input).Bad? ==> ReadFrame(input).error in {EndOfInput, Unmasked, TooLarge}
  {
  }

  lemma FramesIff(input: Bytes, rest: Bytes)
    ensures forall fin, opcode, payload ::
              ReadFrame(input) == Frame(fin, opcode, payload, rest) <==> IsFrame(input, fin, opcode, payload, rest)
  {
    forall fin, opcode, payload
      ensures ReadFrame(input) == Frame(fin, opcode, payload, rest) <==> IsFrame(input, fin, opcode, payload, rest)
    {
      FrameIff(input, fin, opcode, payload, rest);
    }
  }

  lemma ErrorDecidesIff(input: Bytes, r: ReadResult)
    requires ReadFrame(input).Bad?
    ensures Read(input) == r <==> Decides(input, r)
  {
    ErrorsEndEmpty(input);
    UnmaskedIff(input, r.rest);
    OversizedIff(input, r.rest);
    EndOfInputIff(input);
    FramesIff(input, r.rest);
  }

  /** A stream that starts with a frame starts with no other, and breaks off nowhere in it. */
  lemma FrameDecidesIff(input: Bytes, r: ReadResult)
    requires ReadFrame(input).Frame? && !(ReadFrame(input).fin && ReadFrame(input).opcode == 10)
    ensures Read(input) == r <==> Decides(input, r)
  {
    var first := ReadFrame(input);
    UnmaskedIff(input, r.rest);
    OversizedIff(input, r.rest);
    EndOfInputIff(input);
    FramesIff(input, r.rest);
    if first.rest == r.rest {
      DecidedByFrame(input, first.fin, first.opcode, first.payload, r);
    }
  }

  lemma DecidedByFrame(input: Bytes, fin: bool, opcode: bv8, payload: Bytes, r: ReadResult)
    requires ReadFrame(input) == Frame(fin, opcode, payload, r.rest) && !(fin && opcode == 10)
    requires forall fn, o, p :: ReadFrame(input) == Frame(fn, o, p, r.rest) <==> IsFrame(input, fn, o, p, r.rest)
    requires !StartsUnmasked(input, r.rest) && !StartsOversized(input, r.rest) && !BreaksOff(input)
    ensures Read(input) == r <==> Decides(input, r)
  {
    assert IsFrame(input, fin, opcode, payload, r.rest);
  }

  /** What decides a read of a stream that starts with no final pong is its first frame, or the lack of one. */
  lemma DecidesIff(input: Bytes, r: ReadResult)
    requires !(ReadFrame(input).Frame? && ReadFrame(input).fin && ReadFrame(input).opcode == 10)
    ensures Read(input) == r <==> Decides(input, r)
  {
    if ReadFrame(input).Bad? {
      ErrorDecidesIff(input, r);
    } else {
      FrameDecidesIff(input, r);
    }
  }

  lemma EncodeAllCons(f: Sent, ps: seq<Sent>, more: Bytes)
    requires Legal(f) && AllLegal(ps)
    ensures AllLegal([f] + ps) && EncodeAll([f] + ps) + more == Encode(f) + (EncodeAll(ps) + more)
  {
    assert ([f] + ps)[1..] == ps;
  }

  lemma {:induction false} SkipPongs(ps: seq<Sent>, input: Bytes, more: Bytes)
    requires PongsThen(ps, input, more)
    ensures Read(input) == Read(more)
  {
    if ps == [] {
      assert input == more;
    } else {
      var f, tail := ps[0], ps[1..];
      EncodeAllCons(f, tail, more);
      assert ps == [f] + tail;
      ReadChatter(f, EncodeAll(tail) + more);
      SkipPongs(tail, EncodeAll(tail) + more, more);
    }
  }

  /** Every stream is final pongs and then something else. */
  lemma {:induction false} AfterPongs(input: Bytes) returns (ps: seq<Sent>, more: Bytes)
    ensures PongsThen(ps, input, more)
    ensures !(ReadFrame(more).Frame? && ReadFrame(more).fin && ReadFrame(more).opcode == 10)
    decreases |input|
  {
    var first := ReadFrame(input);
    if first.Frame? && first.fin && first.opcode == 10 {
      var f := FrameSound(input);
      var tail, m := AfterPongs(first.rest);
      EncodeAllCons(f, tail, m);
      ps, more := [f] + tail, m;
    } else {
      ps, more := [], input;
      assert input == EncodeAll([]) + more;
    }
  }

  /** A decision is not a final pong. */
  lemma DecisionIsNoPong(input: Bytes, r: ReadResult)
    requires Decides(input, r)
    ensures !(ReadFrame(input).Frame? && ReadFrame(input).fin && ReadFrame(input).opcode == 10)
  {
    UnmaskedIff(input, r.rest);
    OversizedIff(input, r.rest);
    EndOfInputIff(input);
    FramesIff(input, r.rest);
  }

  ghost predicate ReadBecauseOf(ps: seq<Sent>, input: Bytes, more: Bytes, r: ReadResult) {
    PongsThen(ps, input, more) && Decides(more, r)
  }

  /**
   * For every stream and every outcome: the read has that outcome if and only if the stream is legal final pongs followed
   * by what that outcome calls for - one legal final text or binary frame for a message, one legal final close frame for a
   * close, a final ping, a non-final frame, a final frame of any other opcode, an unmasked or an oversized header, or a
   * break in the middle of a frame for the six failures - and then the bytes left unread.
   */
  lemma ReadIff(input: Bytes, r: ReadResult)
    ensures Read(input) == r <==> exists ps, more :: ReadBecauseOf(ps, input, more, r)
  {
    if Read(input) == r {
      var ps, more := AfterPongs(input);
      SkipPongs(ps, input, more);
      DecidesIff(more, r);
      assert ReadBecauseOf(ps, input, more, r);
    }
    if ps, more :| ReadBecauseOf(ps, input, more, r) {
      SkipPongs(ps, input, more);
      DecisionIsNoPong(more, r);
      DecidesIff(more, r);
    }
  }
}
