/**
 * The frames that csms/internal/ws/simple.go reads and writes, after section 5.2 of RFC 6455: what ReadMessage makes of a
 * byte stream, what a client may send, and what WriteMessage sends.
 */
module WsFrames {
  import opened WsBytes

  const MAX_INT: nat := 0x7FFF_FFFF_FFFF_FFFF

  const TEXT: bv8 := 1
  const BINARY: bv8 := 2
  const CLOSE: bv8 := 8
  const PING: bv8 := 9
  const PONG: bv8 := 10

  datatype Error = EndOfInput | Unmasked | TooLarge | Fragmented | PongRejected | UnsupportedOpcode

  datatype FrameResult =
    | Frame(fin: bool, opcode: bv8, payload: Bytes, rest: Bytes)
    | Bad(error: Error, rest: Bytes)

  datatype ReadResult =
    | Message(opcode: bv8, payload: Bytes, rest: Bytes)
    | Closed(payload: Bytes, rest: Bytes)
    | Failed(error: Error, rest: Bytes)

  /** How many bytes of extended length follow a 7-bit length. */
  function ExtendedSize(len7: bv8): (n: nat) {
    if len7 == 126 then 2 else if len7 == 127 then 8 else 0
  }

  /** The payload length: the 7-bit length itself or the extended bytes. */
  function PayloadLength(len7: bv8, extended: Bytes): (n: nat) {
    if len7 == 126 || len7 == 127 then FromBigEndian(extended) else len7 as int
  }

  /** One frame read from the stream; a read that finds too few bytes consumes them all. */
  function ReadFrame(input: Bytes): (r: FrameResult)
    ensures |input| > 0 ==> |r.rest| < |input|
    ensures |r.rest| <= |input|
  {
    if |input| < 2 then Bad(EndOfInput, [])
    else if input[1] & 0x80 == 0 then Bad(Unmasked, input[2..])
    else
      var n := 2 + ExtendedSize(input[1] & 0x7F);
      if |input| < n then Bad(EndOfInput, [])
      else
        var length := PayloadLength(input[1] & 0x7F, input[2..n]);
        if length > MAX_INT then Bad(TooLarge, input[n..]) else ReadBody(input, n, length)
  }

  /** The key and the masked payload, once the header of n bytes has given the length. */
  function ReadBody(input: Bytes, n: nat, length: nat): (r: FrameResult)
    requires 2 <= n <= |input|
    ensures |r.rest| < |input|
  {
    if |input| < n + 4 + length then Bad(EndOfInput, [])
    else
      Frame(input[0] & 0x80 != 0, input[0] & 0x0F, Mask(input[n + 4..n + 4 + length], input[n..n + 4]), input[n + 4 + length..])
  }

  /** ReadMessage: pongs are skipped; a ping is answered through a write that rejects its type, so it fails the read. */
  function Read(input: Bytes): (r: ReadResult)
    ensures |r.rest| <= |input|
    ensures r.Message? ==> |r.rest| < |input|
    decreases |input|
  {
    match ReadFrame(input)
    case Bad(e, rest) => Failed(e, rest)
    case Frame(fin, opcode, payload, rest) =>
      if !fin then Failed(Fragmented, rest)
      else if opcode == TEXT || opcode == BINARY then Message(opcode, payload, rest)
      else if opcode == CLOSE then Closed(payload, rest)
      else if opcode == PING then Failed(PongRejected, rest)
      else if opcode == PONG then
        if |rest| < |input| then Read(rest) else Failed(EndOfInput, [])
      else Failed(UnsupportedOpcode, rest)
  }

  // ----- What a client may send -----

  datatype Form = Short | Medium | Long

  /** The length fits the form (section 5.2 of RFC 6455; longer forms than necessary are readable too). */
  predicate Fits(form: Form, n: nat) {
    match form
    case Short => n < 126
    case Medium => n < 0x1_0000
    case Long => n <= MAX_INT
  }

  /** The second byte and the extended length. */
  function LengthBytes(form: Form, n: nat, maskBit: bv8): (b: Bytes)
    requires Fits(form, n)
  {
    match form
    case Short => [maskBit | n as bv8]
    case Medium => [maskBit | 126] + ToBigEndian(n, 2)
    case Long => [maskBit | 127] + ToBigEndian(n, 8)
  }

  /** A client frame: opcode, reserved bits, length form, mask and payload are the client's choice. */
  datatype Sent = Sent(fin: bool, reserved: bv8, opcode: bv8, form: Form, mask: Bytes, payload: Bytes)

  predicate Legal(f: Sent) {
    f.reserved & 0x8F == 0 && f.opcode & 0xF0 == 0 && |f.mask| == 4 && Fits(f.form, |f.payload|)
  }

  function FirstByte(f: Sent): (b: bv8) { (if f.fin then 0x80 else 0) | f.reserved | f.opcode }

  function Encode(f: Sent): (b: Bytes)
    requires Legal(f)
  {
    [FirstByte(f)] + LengthBytes(f.form, |f.payload|, 0x80) + f.mask + Mask(f.payload, f.mask)
  }

  lemma FirstByteBits(f: Sent)
    requires Legal(f)
    ensures FirstByte(f) & 0x0F == f.opcode && (FirstByte(f) & 0x80 != 0 <==> f.fin)
  {
  }

  lemma ShortLengthBits(n: nat, maskBit: bv8)
    requires n < 126 && (maskBit == 0x80 || maskBit == 0)
    ensures (maskBit | n as bv8) & 0x7F == n as bv8 && (maskBit | n as bv8) & 0x80 == maskBit && ((maskBit | n as bv8) & 0x7F) as int == n
    ensures n as bv8 < 126
  {
    ByteValue(n);
    SmallByte(n as bv8, maskBit);
  }

  lemma SmallByte(b: bv8, maskBit: bv8)
    requires b as int < 126 && (maskBit == 0x80 || maskBit == 0)
    ensures b < 126 && (maskBit | b) & 0x7F == b && (maskBit | b) & 0x80 == maskBit
  {
    assert b < 126;
  }

  /** The length field of either direction reads back as the length. */
  lemma LengthReadsBack(form: Form, n: nat, maskBit: bv8)
    requires Fits(form, n) && (maskBit == 0x80 || maskBit == 0)
    ensures var b := LengthBytes(form, n, maskBit);
            && |b| == 1 + ExtendedSize(b[0] & 0x7F)
            && PayloadLength(b[0] & 0x7F, b[1..]) == n
            && b[0] & 0x80 == maskBit
  {
    PowTwoAndEight();
    match form
    case Short => ShortLengthBits(n, maskBit);
    case Medium => BigEndianRoundTrip(n, 2);
    case Long => BigEndianRoundTrip(n, 8);
  }

  /** The reader on a stream given by its parts. */
  lemma ReadParts(first: bv8, lb: Bytes, mask: Bytes, masked: Bytes, tail: Bytes)
    requires |lb| > 0 && |lb| == 1 + ExtendedSize(lb[0] & 0x7F) && lb[0] & 0x80 != 0
    requires PayloadLength(lb[0] & 0x7F, lb[1..]) == |masked| <= MAX_INT && |mask| == 4
    ensures ReadFrame([first] + lb + mask + masked + tail) ==
            Frame(first & 0x80 != 0, first & 0x0F, Mask(masked, mask), tail)
  {
    var input, n := [first] + lb + mask + masked + tail, 1 + |lb|;
    Cut(first, lb, mask, masked, tail);
    assert ReadFrame(input) == ReadBody(input, n, |masked|);
  }

  /** Any legal client frame, in any length form and with any mask, is read back whole, and the stream stands right after it. */
  lemma FrameRoundTrip(f: Sent, tail: Bytes)
    requires Legal(f)
    ensures ReadFrame(Encode(f) + tail) == Frame(f.fin, f.opcode, f.payload, tail)
  {
    LengthReadsBack(f.form, |f.payload|, 0x80);
    FirstByteBits(f);
    MaskInvolution(f.payload, f.mask);
    ReadParts(FirstByte(f), LengthBytes(f.form, |f.payload|, 0x80), f.mask, Mask(f.payload, f.mask), tail);
  }

  function FormOf(len7: bv8): Form {
    if len7 == 126 then Medium else if len7 == 127 then Long else Short
  }

  lemma HeaderBits(first: bv8, second: bv8)
    requires second & 0x80 != 0
    ensures (first & 0x70) & 0x8F == 0 && (first & 0x0F) & 0xF0 == 0
    ensures (if first & 0x80 != 0 then 0x80 else 0) | (first & 0x70) | (first & 0x0F) == first
    ensures 0x80 | (second & 0x7F) == second
    ensures second & 0x7F <= 127
  {
  }

  /** The parts of a frame the reader accepted. */
  lemma AcceptedParts(input: Bytes) returns (lb: Bytes, mask: Bytes, masked: Bytes)
    requires ReadFrame(input).Frame?
    ensures |lb| > 0 && |lb| == 1 + ExtendedSize(lb[0] & 0x7F) && lb[0] & 0x80 != 0
    ensures PayloadLength(lb[0] & 0x7F, lb[1..]) == |masked| <= MAX_INT && |mask| == 4
    ensures input == [input[0]] + lb + mask + masked + ReadFrame(input).rest
    ensures ReadFrame(input) == Frame(input[0] & 0x80 != 0, input[0] & 0x0F, Mask(masked, mask), ReadFrame(input).rest)
  {
    var n := 2 + ExtendedSize(input[1] & 0x7F);
    var length := PayloadLength(input[1] & 0x7F, input[2..n]);
    lb, mask, masked := [input[1]] + input[2..n], input[n..n + 4], input[n + 4..n + 4 + length];
    assert lb[1..] == input[2..n];
    Glue(input, n, n + 4, n + 4 + length);
  }

  /** Conversely, every frame the reader accepts is a legal client frame. */
  lemma FrameSound(input: Bytes) returns (f: Sent)
    requires ReadFrame(input).Frame?
    ensures var r := ReadFrame(input);
            Legal(f) && f.fin == r.fin && f.opcode == r.opcode && f.payload == r.payload && input == Encode(f) + r.rest
  {
    var lb, mask, masked := AcceptedParts(input);
    HeaderBits(input[0], lb[0]);
    LengthIsWritten(lb[0], lb[1..], |masked|);
    assert [lb[0]] + lb[1..] == lb;
    MaskInvolution(masked, mask);
    f := Sent(input[0] & 0x80 != 0, input[0] & 0x70, input[0] & 0x0F, FormOf(lb[0] & 0x7F), mask, Mask(masked, mask));
  }

  /** The length field that was read is the one written in its form. */
  lemma LengthIsWritten(second: bv8, extended: Bytes, length: nat)
    requires second & 0x80 != 0 && |extended| == ExtendedSize(second & 0x7F)
    requires length == PayloadLength(second & 0x7F, extended) <= MAX_INT
    ensures Fits(FormOf(second & 0x7F), length)
    ensures LengthBytes(FormOf(second & 0x7F), length, 0x80) == [second] + extended
  {
    PowTwoAndEight();
    HeaderBits(0, second);
    FromBound(extended);
    BigEndianInverse(extended);
    ByteBack(second & 0x7F);
    if second & 0x7F != 126 && second & 0x7F != 127 {
      SmallLength(second & 0x7F);
    }
  }

  lemma SmallLength(len7: bv8)
    requires len7 <= 127 && len7 != 126 && len7 != 127
    ensures len7 as int < 126
  {
    assert len7 < 126;
  }

  // ----- Streams -----

  ghost predicate AllLegal(fs: seq<Sent>) {
    forall i :: 0 <= i < |fs| ==> Legal(fs[i])
  }

  ghost function EncodeAll(fs: seq<Sent>): (b: Bytes)
    requires AllLegal(fs)
  {
    if fs == [] then [] else Encode(fs[0]) + EncodeAll(fs[1..])
  }

  /** A final text, binary or pong frame. */
  predicate Chatter(f: Sent) {
    Legal(f) && f.fin && (f.opcode == TEXT || f.opcode == BINARY || f.opcode == PONG)
  }

  ghost predicate AllChatter(fs: seq<Sent>) {
    forall i :: 0 <= i < |fs| ==> Chatter(fs[i])
  }

  /** The messages among the frames. */
  function Messages(fs: seq<Sent>): (m: seq<(bv8, Bytes)>) {
    if fs == [] then []
    else (if fs[0].opcode == PONG then [] else [(fs[0].opcode, fs[0].payload)]) + Messages(fs[1..])
  }

  /** The pongs after the last message. */
  function TrailingPongs(fs: seq<Sent>): (t: seq<Sent>) {
    if fs == [] || (Messages(fs[1..]) == [] && fs[0].opcode == PONG) then fs else TrailingPongs(fs[1..])
  }

  datatype Received = Received(messages: seq<(bv8, Bytes)>, rest: Bytes) | Broken

  /** n reads in a row. */
  function ReadMany(input: Bytes, n: nat): (r: Received)
    decreases n
  {
    if n == 0 then Received([], input)
    else
      match Read(input)
      case Message(opcode, payload, rest) =>
        (match ReadMany(rest, n - 1)
         case Received(ms, end) => Received([(opcode, payload)] + ms, end)
         case Broken => Broken)
      case _ => Broken
  }

  lemma {:induction false} TrailingLegal(fs: seq<Sent>)
    requires AllChatter(fs)
    ensures AllLegal(fs) && AllLegal(TrailingPongs(fs))
  {
    if fs != [] {
      TrailingLegal(fs[1..]);
    }
  }

  /** One more legal frame in front of the stream: a pong makes no difference to the next read, a message is the next read. */
  lemma ReadChatter(f: Sent, more: Bytes)
    requires Chatter(f)
    ensures Read(Encode(f) + more) == if f.opcode == PONG then Read(more) else Message(f.opcode, f.payload, more)
  {
    FrameRoundTrip(f, more);
  }

  lemma ManyMessage(input: Bytes, opcode: bv8, payload: Bytes, more: Bytes, n: nat, ms: seq<(bv8, Bytes)>, end: Bytes)
    requires Read(input) == Message(opcode, payload, more) && ReadMany(more, n) == Received(ms, end)
    ensures ReadMany(input, n + 1) == Received([(opcode, payload)] + ms, end)
  {
  }

  lemma ManyPong(input: Bytes, more: Bytes, n: nat)
    requires Read(input) == Read(more) && n > 0
    ensures ReadMany(input, n) == ReadMany(more, n)
  {
  }

  lemma EncodeCons(f: Sent, gs: seq<Sent>, tail: Bytes)
    requires Chatter(f) && AllChatter(gs)
    ensures AllLegal([f] + gs) && AllLegal(gs) && EncodeAll([f] + gs) + tail == Encode(f) + (EncodeAll(gs) + tail)
    ensures Messages([f] + gs) == (if f.opcode == PONG then [] else [(f.opcode, f.payload)]) + Messages(gs)
    ensures TrailingPongs([f] + gs) == if Messages(gs) == [] && f.opcode == PONG then [f] + gs else TrailingPongs(gs)
  {
    assert ([f] + gs)[1..] == gs;
  }

  /**
   * Stream round trip: for any text and binary messages in any legal frames with any pongs between, as many reads as there
   * are messages return exactly those messages in order and stop right after the last one's bytes.
   */
  lemma {:induction false} StreamRoundTrip(fs: seq<Sent>, tail: Bytes)
    requires AllChatter(fs)
    ensures AllLegal(fs) && AllLegal(TrailingPongs(fs))
    ensures ReadMany(EncodeAll(fs) + tail, |Messages(fs)|) == Received(Messages(fs), EncodeAll(TrailingPongs(fs)) + tail)
  {
    TrailingLegal(fs);
    if fs == [] {
      assert EncodeAll(fs) + tail == tail;
    } else {
      StreamRoundTrip(fs[1..], tail);
      assert fs == [fs[0]] + fs[1..];
      StreamCons(fs[0], fs[1..], tail);
    }
  }

  lemma StreamCons(f: Sent, gs: seq<Sent>, tail: Bytes)
    requires Chatter(f) && AllChatter(gs) && AllLegal(gs) && AllLegal([f] + gs)
    requires AllLegal(TrailingPongs(gs)) && AllLegal(TrailingPongs([f] + gs))
    requires ReadMany(EncodeAll(gs) + tail, |Messages(gs)|) == Received(Messages(gs), EncodeAll(TrailingPongs(gs)) + tail)
    ensures ReadMany(EncodeAll([f] + gs) + tail, |Messages([f] + gs)|) ==
            Received(Messages([f] + gs), EncodeAll(TrailingPongs([f] + gs)) + tail)
  {
    EncodeCons(f, gs, tail);
    var input, more, end := EncodeAll([f] + gs) + tail, EncodeAll(gs) + tail, EncodeAll(TrailingPongs(gs)) + tail;
    ReadChatter(f, more);
    if f.opcode == PONG {
      PongMore(input, more, Messages(gs), end);
    } else {
      MessageMore(f, input, more, Messages(gs), end);
    }
  }

  lemma MessageMore(f: Sent, input: Bytes, more: Bytes, ms: seq<(bv8, Bytes)>, end: Bytes)
    requires Read(input) == Message(f.opcode, f.payload, more)
    requires ReadMany(more, |ms|) == Received(ms, end)
    ensures ReadMany(input, |[(f.opcode, f.payload)] + ms|) == Received([(f.opcode, f.payload)] + ms, end)
  {
    ManyMessage(input, f.opcode, f.payload, more, |ms|, ms, end);
    assert |[(f.opcode, f.payload)] + ms| == |ms| + 1;
  }

  lemma PongMore(input: Bytes, more: Bytes, ms: seq<(bv8, Bytes)>, end: Bytes)
    requires Read(input) == Read(more)
    requires ReadMany(more, |ms|) == Received(ms, end)
    ensures ReadMany(input, |[] + ms|) == Received([] + ms, if ms == [] then input else end)
  {
    assert [] + ms == ms;
    if ms != [] {
      ManyPong(input, more, |ms|);
    }
  }

  lemma {:induction false} ReadAcceptsOnly(input: Bytes) returns (fs: seq<Sent>)
    requires Read(input).Message?
    ensures fs != [] && AllChatter(fs) && AllLegal(fs) && TrailingPongs(fs) == []
    ensures var r := Read(input);
            Messages(fs) == [(r.opcode, r.payload)] && input == EncodeAll(fs) + r.rest
    decreases |input|
  {
    var f, rest := FirstFrame(input);
    if f.opcode == PONG {
      var gs := ReadAcceptsOnly(rest);
      fs := [f] + gs;
      EncodeCons(f, gs, Read(input).rest);
    } else {
      fs := [f] + [];
      EncodeCons(f, [], rest);
      assert EncodeAll([]) + rest == rest;
    }
  }

  /** A read that returns a message begins with a legal pong, skipped, or with the message itself. */
  lemma FirstFrame(input: Bytes) returns (f: Sent, rest: Bytes)
    requires Read(input).Message?
    ensures Chatter(f) && input == Encode(f) + rest && |rest| < |input|
    ensures Read(input) == if f.opcode == PONG then Read(rest) else Message(f.opcode, f.payload, rest)
  {
    f := FrameSound(input);
    rest := ReadFrame(input).rest;
  }

  /** The stream is legal pongs, then one message, then rest. */
  ghost predicate PongsThenMessage(input: Bytes, fs: seq<Sent>, opcode: bv8, payload: Bytes, rest: Bytes) {
    && AllChatter(fs) && AllLegal(fs) && Messages(fs) == [(opcode, payload)] && TrailingPongs(fs) == []
    && input == EncodeAll(fs) + rest
  }

  /** The exact language: a read returns a message if and only if the stream starts with legal pongs and then that message. */
  lemma ReadAcceptsIff(input: Bytes, opcode: bv8, payload: Bytes, rest: Bytes)
    ensures Read(input) == Message(opcode, payload, rest) <==> exists fs :: PongsThenMessage(input, fs, opcode, payload, rest)
  {
    if Read(input) == Message(opcode, payload, rest) {
      var fs := ReadAcceptsOnly(input);
      assert PongsThenMessage(input, fs, opcode, payload, rest);
    }
    if fs :| PongsThenMessage(input, fs, opcode, payload, rest) {
      StreamRoundTrip(fs, rest);
      assert EncodeAll([]) + rest == rest;
      OneRead(input, opcode, payload, rest);
    }
  }

  lemma OneRead(input: Bytes, opcode: bv8, payload: Bytes, rest: Bytes)
    requires ReadMany(input, 1) == Received([(opcode, payload)], rest)
    ensures Read(input) == Message(opcode, payload, rest)
  {
    match Read(input)
    case Message(o, p, r) =>
      assert ReadMany(r, 0) == Received([], r);
      assert [(opcode, payload)][0] == ([(o, p)] + [])[0];
    case _ =>
  }

  /** A ping ends the read with an error, whatever it carries; section 5.5.2 of RFC 6455 asks for a pong instead. */
  lemma PingFailsTheRead(f: Sent, tail: Bytes)
    requires Legal(f) && f.fin && f.opcode == PING
    ensures Read(Encode(f) + tail) == Failed(PongRejected, tail)
  {
    FrameRoundTrip(f, tail);
  }

  /** Reserved bits make no difference; a frame that is not final is refused. */
  lemma ReservedBitsIgnored(f: Sent, reserved: bv8, tail: Bytes)
    requires Legal(f) && reserved & 0x8F == 0
    ensures Read(Encode(f.(reserved := reserved)) + tail) == Read(Encode(f) + tail)
    ensures !f.fin ==> Read(Encode(f) + tail) == Failed(Fragmented, tail)
  {
    FrameRoundTrip(f, tail);
    FrameRoundTrip(f.(reserved := reserved), tail);
  }

  // ----- What WriteMessage sends -----

  /** The length form WriteMessage picks. */
  function PickForm(n: nat): Form {
    if n < 126 then Short else if n < 0x1_0000 then Medium else Long
  }

  predicate Writable(messageType: int, data: Bytes) {
    (messageType == 1 || messageType == 2 || messageType == 8) && |data| <= MAX_INT
  }

  function ServerFrame(messageType: int, data: Bytes): (b: Bytes)
    requires Writable(messageType, data)
  {
    [0x80 | messageType as bv8] + LengthBytes(PickForm(|data|), |data|, 0) + data
  }

  datatype Decoded = Decoded(fin: bool, reserved: bv8, opcode: int, payload: Bytes, rest: Bytes) | Incomplete

  /** A receiver of unmasked frames, after section 5.2 of RFC 6455. */
  function Decode(input: Bytes): (r: Decoded)
    ensures r.Decoded? ==> |r.rest| < |input|
  {
    if |input| < 2 || input[1] & 0x80 != 0 then Incomplete
    else
      var n := 2 + ExtendedSize(input[1] & 0x7F);
      if |input| < n then Incomplete
      else
        DecodeBody(input, n, PayloadLength(input[1] & 0x7F, input[2..n]))
  }

  function DecodeBody(input: Bytes, n: nat, length: nat): (r: Decoded)
    requires 2 <= n <= |input|
    ensures r.Decoded? ==> |r.rest| < |input|
  {
    if |input| < n + length then Incomplete
    else Decoded(input[0] & 0x80 != 0, input[0] & 0x70, (input[0] & 0x0F) as int, input[n..n + length], input[n + length..])
  }

  lemma TypeBits(messageType: int)
    requires messageType == 1 || messageType == 2 || messageType == 8
    ensures ((0x80 | messageType as bv8) & 0x0F) as int == messageType && (0x80 | messageType as bv8) & 0x80 != 0
    ensures (0x80 | messageType as bv8) & 0x70 == 0
  {
  }

  /** The receiver on a stream given by its parts. */
  lemma DecodeParts(first: bv8, lb: Bytes, data: Bytes, tail: Bytes)
    requires |lb| > 0 && |lb| == 1 + ExtendedSize(lb[0] & 0x7F) && lb[0] & 0x80 == 0
    requires PayloadLength(lb[0] & 0x7F, lb[1..]) == |data|
    ensures Decode([first] + lb + data + tail) == Decoded(first & 0x80 != 0, first & 0x70, (first & 0x0F) as int, data, tail)
  {
    var input, n := [first] + lb + data + tail, 1 + |lb|;
    CutUnmasked(first, lb, data, tail);
    assert Decode(input) == DecodeBody(input, n, |data|);
  }

  /** One written frame decodes to a final frame of its type and payload with no reserved bit set, and nothing left over. */
  lemma WrittenFrameDecodes(messageType: int, data: Bytes, tail: Bytes)
    requires Writable(messageType, data)
    ensures Decode(ServerFrame(messageType, data) + tail) == Decoded(true, 0, messageType, data, tail)
  {
    LengthReadsBack(PickForm(|data|), |data|, 0);
    TypeBits(messageType);
    DecodeParts(0x80 | messageType as bv8, LengthBytes(PickForm(|data|), |data|, 0), data, tail);
  }

  /** The bytes themselves, as section 5.2 of RFC 6455 lays them out: 7-bit, 16-bit and 64-bit lengths, never a mask. */
  lemma FrameLayout(messageType: int, data: Bytes)
    requires Writable(messageType, data)
    ensures var f, n := ServerFrame(messageType, data), |data|;
            && f[0] == 0x80 | messageType as bv8
            && (n < 126 ==> f[1..] == [n as bv8] + data)
            && (126 <= n < 65536 ==> f[1] == 126 && |f| == 4 + n && FromBigEndian(f[2..4]) == n && f[4..] == data)
            && (65536 <= n ==> f[1] == 127 && |f| == 10 + n && FromBigEndian(f[2..10]) == n && f[10..] == data)
  {
    var n := |data|;
    PowTwoAndEight();
    var f, lb := ServerFrame(messageType, data), LengthBytes(PickForm(n), n, 0);
    if n < 126 {
      assert f[1..] == lb + data;
      ZeroOr(n as bv8);
    } else {
      var k := if n < 65536 then 2 else 8;
      BigEndianRoundTrip(n, k);
      assert f[1] == lb[0] && f[2..2 + k] == lb[1..] && f[2 + k..] == data;
    }
  }

  lemma ZeroOr(b: bv8)
    ensures 0 | b == b
  {
  }

  /** A list of (type, payload) as one output. */
  function WriteAll(ms: seq<(int, Bytes)>): (b: Bytes)
    requires forall m :: m in ms ==> Writable(m.0, m.1)
  {
    if ms == [] then [] else ServerFrame(ms[0].0, ms[0].1) + WriteAll(ms[1..])
  }

  datatype AllDecoded = AllDecoded(messages: seq<(int, Bytes)>) | Garbled

  function DecodeAll(input: Bytes): (r: AllDecoded)
    decreases |input|
  {
    if input == [] then AllDecoded([])
    else
      match Decode(input)
      case Incomplete => Garbled
      case Decoded(_, _, opcode, payload, rest) =>
        match DecodeAll(rest)
        case Garbled => Garbled
        case AllDecoded(ms) => AllDecoded([(opcode, payload)] + ms)
  }

  lemma DecodeAllCons(input: Bytes, opcode: int, payload: Bytes, rest: Bytes, ms: seq<(int, Bytes)>)
    requires Decode(input) == Decoded(true, 0, opcode, payload, rest) && DecodeAll(rest) == AllDecoded(ms)
    ensures DecodeAll(input) == AllDecoded([(opcode, payload)] + ms)
  {
  }

  lemma WriteAllCons(m: (int, Bytes), ms: seq<(int, Bytes)>)
    requires Writable(m.0, m.1) && forall x :: x in ms ==> Writable(x.0, x.1)
    ensures (forall x :: x in [m] + ms ==> Writable(x.0, x.1)) && WriteAll([m] + ms) == ServerFrame(m.0, m.1) + WriteAll(ms)
  {
    assert ([m] + ms)[1..] == ms;
  }

  /** Output unambiguity: the receiver recovers exactly the types and payloads written. */
  lemma {:induction false} OutputDecodes(ms: seq<(int, Bytes)>)
    requires forall m :: m in ms ==> Writable(m.0, m.1)
    ensures DecodeAll(WriteAll(ms)) == AllDecoded(ms)
  {
    if ms != [] {
      var m, more := ms[0], ms[1..];
      OutputDecodes(more);
      WrittenFrameDecodes(m.0, m.1, WriteAll(more));
      WriteAllCons(m, more);
      DecodeAllCons(ServerFrame(m.0, m.1) + WriteAll(more), m.0, m.1, WriteAll(more), more);
      assert ms == [m] + more && m == (m.0, m.1);
    }
  }

  /** No written frame is the beginning of a different one. */
  lemma PrefixFree(t1: int, d1: Bytes, t2: int, d2: Bytes)
    requires Writable(t1, d1) && Writable(t2, d2)
    requires ServerFrame(t1, d1) <= ServerFrame(t2, d2)
    ensures t1 == t2 && d1 == d2
  {
    var f1, f2 := ServerFrame(t1, d1), ServerFrame(t2, d2);
    assert f2 == f1 + f2[|f1|..];
    assert f2 == f2 + [];
    WrittenFrameDecodes(t1, d1, f2[|f1|..]);
    WrittenFrameDecodes(t2, d2, []);
  }

  /** The length form written fits, and any other form that fits is strictly longer. */
  lemma ShortestForm(n: nat, form: Form)
    requires n <= MAX_INT && Fits(form, n)
    ensures Fits(PickForm(n), n)
    ensures form != PickForm(n) ==> |LengthBytes(PickForm(n), n, 0)| < |LengthBytes(form, n, 0)|
  {
  }

  // ----- FormatCloseMessage -----

  /** The close payload: the low 16 bits of the code, which may be any int, then the text. */
  function ClosePayload(code: int, text: Bytes): (b: Bytes) { ToBigEndian(code % 0x1_0000, 2) + text }

  lemma ClosePayloadReadsBack(code: int, text: Bytes)
    ensures var b := ClosePayload(code, text);
            |b| == 2 + |text| && FromBigEndian(b[..2]) == code % 0x1_0000 && b[2..] == text
  {
    PowTwoAndEight();
    BigEndianRoundTrip(code % 0x1_0000, 2);
    assert ClosePayload(code, text)[..2] == ToBigEndian(code % 0x1_0000, 2);
  }
}
