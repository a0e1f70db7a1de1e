/**
 * The Conn of csms/internal/ws/simple.go: the read loop, in-place unmasking, and the header built by appends.
 * The bytes still to come from the client are `input`; what has been written is `output`.
 */
module WsConn {
  import opened Options
  import opened WsBytes
  import opened WsFrames

  class Conn {
    var input: Bytes
    var output: Bytes

    constructor (stream: Bytes)
      ensures input == stream && output == []
    {
      input, output := stream, [];
    }

    method ReadByte() returns (b: Option<bv8>)
      modifies this`input
      ensures b.Some? <==> old(input) != []
      ensures b.Some? ==> b.value == old(input)[0] && input == old(input)[1..]
      ensures b.None? ==> input == []
    {
      if input == [] {
        return None;
      }
      b := Some(input[0]);
      input := input[1..];
    }

    /** io.ReadFull: fill the buffer, or fail having consumed whatever there was. */
    method ReadFull(buf: array<bv8>) returns (ok: bool)
      modifies this`input, buf
      ensures ok <==> |old(input)| >= buf.Length
      ensures ok ==> buf[..] == old(input)[..buf.Length] && input == old(input)[buf.Length..]
      ensures !ok ==> input == []
    {
      var i := 0;
      while i < buf.Length && i < |input|
        modifies buf
        invariant 0 <= i <= buf.Length && i <= |input|
        invariant buf[..i] == input[..i]
      {
        buf[i] := input[i];
        i := i + 1;
      }
      ok := i == buf.Length;
      input := input[i..];
    }

    /** The XOR loop over the payload, in place. */
    method Unmask(payload: array<bv8>, key: Bytes)
      requires |key| == 4
      modifies payload
      ensures payload[..] == Mask(old(payload[..]), key)
      ensures forall i :: 0 <= i < payload.Length ==> payload[i] == old(payload[i]) ^ key[i % 4]
    {
      for i := 0 to payload.Length
        invariant forall j :: 0 <= j < i ==> payload[j] == old(payload[j]) ^ key[j % 4]
        invariant forall j :: i <= j < payload.Length ==> payload[j] == old(payload[j])
      {
        payload[i] := payload[i] ^ key[i % 4];
      }
    }

    /** The extended length bytes, when the 7-bit length asks for them. */
    method ReadLength(len7: bv8) returns (length: Option<nat>)
      modifies this`input
      ensures var size := ExtendedSize(len7);
              if |old(input)| < size then length.None? && input == []
              else length == Some(PayloadLength(len7, old(input)[..size])) && input == old(input)[size..]
    {
      if len7 == 126 {
        var buf := new bv8[2];
        var ok := ReadFull(buf);
        return if ok then Some(FromBigEndian(buf[..])) else None;
      } else if len7 == 127 {
        var buf := new bv8[8];
        var ok := ReadFull(buf);
        return if ok then Some(FromBigEndian(buf[..])) else None;
      }
      length := Some(len7 as int);
    }

    /** One turn of the read loop up to the fin test. */
    method ReadOneFrame() returns (r: FrameResult)
      modifies this`input
      ensures r == ReadFrame(old(input)) && input == r.rest
    {
      ghost var start := input;
      var first := ReadByte();
      if first.None? {
        return Bad(EndOfInput, input);
      }
      var second := ReadByte();
      if second.None? {
        return Bad(EndOfInput, input);
      }
      assert second.value == start[1] && input == start[2..];
      if second.value & 0x80 == 0 {
        return Bad(Unmasked, input);
      }
      var length := ReadLength(second.value & 0x7F);
      ghost var n := 2 + ExtendedSize(start[1] & 0x7F);
      assert |start| >= n ==> start[2..][..n - 2] == start[2..n];
      if length.None? {
        return Bad(EndOfInput, input);
      }
      assert input == start[n..];
      if length.value > MAX_INT {
        return Bad(TooLarge, input);
      }
      r := ReadKeyAndPayload(first.value, length.value, start, n);
    }

    /** The mask and the payload of a frame whose header took n bytes of `start`. */
    method ReadKeyAndPayload(first: bv8, length: nat, ghost start: Bytes, ghost n: nat) returns (r: FrameResult)
      requires 2 <= n <= |start| && first == start[0] && input == start[n..]
      modifies this`input
      ensures r == ReadBody(start, n, length) && input == r.rest
    {
      var mask := new bv8[4];
      var ok := ReadFull(mask);
      if !ok {
        return Bad(EndOfInput, input);
      }
      assert mask[..] == start[n..n + 4] && input == start[n + 4..];
      var payload := new bv8[length];
      ok := ReadFull(payload);
      if !ok {
        return Bad(EndOfInput, input);
      }
      assert payload[..] == start[n + 4..n + 4 + length] && input == start[n + 4 + length..];
      Unmask(payload, mask[..]);
      r := Frame(first & 0x80 != 0, first & 0x0F, payload[..], input);
    }

    /** ReadMessage: frames are skipped until one decides the result. Nothing is ever written, not even for a ping. */
    method ReadMessage() returns (r: ReadResult)
      modifies this`input, this`output
      ensures r == Read(old(input)) && input == r.rest && output == old(output)
    {
      while true
        invariant Read(old(input)) == Read(input) && output == old(output)
        decreases |input|
      {
        var frame := ReadOneFrame();
        match frame
        case Bad(e, rest) => return Failed(e, rest);
        case Frame(fin, opcode, payload, rest) =>
          if !fin {
            return Failed(Fragmented, rest);
          }
          if opcode == TEXT || opcode == BINARY {
            return Message(opcode, payload, rest);
          } else if opcode == CLOSE {
            return Closed(payload, rest);
          } else if opcode == PING {
            var ok := WriteControl(10, payload, true);
            if !ok {
              return Failed(PongRejected, rest);
            }
          } else if opcode != PONG {
            return Failed(UnsupportedOpcode, rest);
          }
      }
    }

    /** WriteMessage: false is the error return for a type it does not support; len(data) is an int. */
    method WriteMessage(messageType: int, data: Bytes) returns (ok: bool)
      requires |data| <= MAX_INT
      modifies this`output
      ensures ok <==> messageType == 1 || messageType == 2 || messageType == 8
      ensures output == if ok then old(output) + ServerFrame(messageType, data) else old(output)
    {
      if messageType != 1 && messageType != 2 && messageType != 8 {
        return false;
      }
      var header := [0x80 | messageType as bv8];
      var payloadLen := |data|;
      if payloadLen < 126 {
        ShortLengthBits(payloadLen, 0);
        header := header + [payloadLen as bv8];
      } else if payloadLen < 65536 {
        header := header + [126];
        var extended := ToBigEndian(payloadLen, 2);
        header := header + extended;
      } else {
        header := header + [127];
        var extended := ToBigEndian(payloadLen, 8);
        header := header + extended;
      }
      assert header == [0x80 | messageType as bv8] + LengthBytes(PickForm(payloadLen), payloadLen, 0);
      output := output + header;
      output := output + data;
      ok := true;
    }

    /** WriteControl: the deadline may fail to be set; otherwise it is WriteMessage. */
    method WriteControl(messageType: int, data: Bytes, deadlineOk: bool) returns (ok: bool)
      requires |data| <= MAX_INT
      modifies this`output
      ensures ok <==> deadlineOk && (messageType == 1 || messageType == 2 || messageType == 8)
      ensures output == if ok then old(output) + ServerFrame(messageType, data) else old(output)
    {
      if !deadlineOk {
        return false;
      }
      ok := WriteMessage(messageType, data);
    }
  }

  /** FormatCloseMessage: a fresh payload filled in place; uint16(code) keeps the low 16 bits. */
  method FormatCloseMessage(code: int, text: Bytes) returns (payload: array<bv8>)
    ensures fresh(payload) && payload[..] == ClosePayload(code, text)
  {
    payload := new bv8[2 + |text|];
    var head := ToBigEndian(code % 0x1_0000, 2);
    payload[0], payload[1] := head[0], head[1];
    for i := 0 to |text|
      invariant payload[..2] == head && payload[2..2 + i] == text[..i]
    {
      payload[2 + i] := text[i];
    }
    assert payload[..] == payload[..2] + payload[2..2 + |text|];
  }

  // ----- Subprotocol choice -----

  /** The first of the server's subprotocols that the client offered, or "" when there is none. */
  ghost predicate IsChoice(preferred: seq<string>, offered: seq<string>, choice: string) {
    if choice == "" then forall p :: p in preferred && p != "" ==> p !in offered
    else exists i :: 0 <= i < |preferred| && preferred[i] == choice && choice in offered
                     && forall j :: 0 <= j < i && preferred[j] != "" ==> preferred[j] !in offered
  }

  /** That determines the choice. */
  lemma ChoiceIsUnique(preferred: seq<string>, offered: seq<string>, a: string, b: string)
    requires IsChoice(preferred, offered, a) && IsChoice(preferred, offered, b)
    ensures a == b
  {
    if a != "" && b != "" {
      var i :| 0 <= i < |preferred| && preferred[i] == a && a in offered
               && forall j :: 0 <= j < i && preferred[j] != "" ==> preferred[j] !in offered;
      var k :| 0 <= k < |preferred| && preferred[k] == b && b in offered
               && forall j :: 0 <= j < k && preferred[j] != "" ==> preferred[j] !in offered;
      assert i == k;
    }
  }

  /** The two nested loops of Upgrade. */
  method FirstOffered(preferred: seq<string>, offered: seq<string>) returns (chosen: string)
    ensures IsChoice(preferred, offered, chosen)
  {
    chosen := "";
    var i := 0;
    while i < |preferred|
      invariant 0 <= i <= |preferred| && chosen == ""
      invariant forall j :: 0 <= j < i && preferred[j] != "" ==> preferred[j] !in offered
    {
      var k := 0;
      while k < |offered|
        invariant 0 <= k <= |offered| && chosen == ""
        invariant preferred[i] != "" ==> preferred[i] !in offered[..k]
      {
        if offered[k] == preferred[i] {
          chosen := preferred[i];
          break;
        }
        k := k + 1;
      }
      if chosen != "" {
        assert preferred[i] == chosen;
        return;
      }
      assert k == |offered| || preferred[i] == "";
      i := i + 1;
    }
  }

  /** The handshake goes on, perhaps under a subprotocol, or is refused. */
  datatype Handshake = Refused | Accepted(subprotocol: string)

  /** A server with no subprotocols asks for none; any other refuses a client that offers none of them. */
  method ChooseSubprotocol(preferred: seq<string>, offered: seq<string>) returns (r: Handshake)
    ensures r.Refused? <==> preferred != [] && forall p :: p in preferred && p != "" ==> p !in offered
    ensures r.Accepted? ==> IsChoice(preferred, offered, r.subprotocol)
  {
    var chosen := "";
    if |preferred| > 0 {
      chosen := FirstOffered(preferred, offered);
      if chosen == "" {
        return Refused;
      }
    }
    r := Accepted(chosen);
  }
}
