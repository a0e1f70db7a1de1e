/**
 * Bytes, big-endian numbers and masking, as used by csms/internal/ws/simple.go.
 */
module WsBytes {

  type Bytes = seq<bv8>

  function Pow256(k: nat): (p: nat)
    ensures p >= 1
  {
    if k == 0 then 1 else 256 * Pow256(k - 1)
  }

  lemma ByteBack(b: bv8)
    ensures 0 <= b as int < 256 && (b as int) as bv8 == b
  {
  }

  lemma NextByte(b: bv8)
    requires b as int < 255
    ensures (b + 1) as int == b as int + 1
  {
    assert b < 255;
  }

  lemma {:induction false} SomeByte(n: nat) returns (b: bv8)
    requires n < 256
    ensures b as int == n
  {
    b := 0;
    if n > 0 {
      b := SomeByte(n - 1);
      NextByte(b);
      b := b + 1;
    }
  }

  /** A number below 256 survives the conversion to a byte. */
  lemma ByteValue(n: nat)
    requires n < 256
    ensures (n as bv8) as int == n
  {
    var b := SomeByte(n);
    ByteBack(b);
  }

  /** binary.BigEndian.Uint16/Uint64 of a 2- or 8-byte buffer. */
  function FromBigEndian(b: Bytes): (n: nat) {
    if b == [] then 0 else 256 * FromBigEndian(b[..|b| - 1]) + b[|b| - 1] as int
  }

  /** binary.BigEndian.PutUint16/PutUint64: the low k bytes of n. */
  function ToBigEndian(n: nat, k: nat): (b: Bytes)
    ensures |b| == k
  {
    if k == 0 then [] else ToBigEndian(n / 256, k - 1) + [(n % 256) as bv8]
  }

  lemma DivLess(n: nat, p: nat)
    requires n < 256 * p
    ensures n / 256 < p
  {
  }

  /** Reading what was written gives the number back. */
  lemma {:induction false} BigEndianRoundTrip(n: nat, k: nat)
    requires n < Pow256(k)
    ensures FromBigEndian(ToBigEndian(n, k)) == n
  {
    if k > 0 {
      DivLess(n, Pow256(k - 1));
      BigEndianRoundTrip(n / 256, k - 1);
      FromSnoc(ToBigEndian(n / 256, k - 1), (n % 256) as bv8);
      ByteValue(n % 256);
    }
  }

  lemma FromSnoc(b: Bytes, x: bv8)
    ensures FromBigEndian(b + [x]) == 256 * FromBigEndian(b) + x as int
  {
    assert (b + [x])[..|b|] == b;
  }

  lemma {:induction false} FromBound(b: Bytes)
    ensures FromBigEndian(b) < Pow256(|b|)
  {
    if b != [] {
      FromBound(b[..|b| - 1]);
      ByteBack(b[|b| - 1]);
    }
  }

  /** Writing what was read gives the bytes back. */
  lemma {:induction false} BigEndianInverse(b: Bytes)
    ensures ToBigEndian(FromBigEndian(b), |b|) == b
  {
    if b != [] {
      var p, last := b[..|b| - 1], b[|b| - 1];
      BigEndianInverse(p);
      ByteBack(last);
      var n := FromBigEndian(b);
      assert n / 256 == FromBigEndian(p) && n % 256 == last as int;
      assert b == p + [last];
    }
  }

  lemma PowTwoAndEight()
    ensures Pow256(2) == 0x1_0000 && Pow256(8) == 0x1_0000_0000_0000_0000
  {
    assert Pow256(2) == 256 * Pow256(1) && Pow256(1) == 256 * Pow256(0);
    assert Pow256(4) == 256 * Pow256(3) && Pow256(3) == 256 * Pow256(2);
    assert Pow256(6) == 256 * Pow256(5) && Pow256(5) == 256 * Pow256(4);
    assert Pow256(8) == 256 * Pow256(7) && Pow256(7) == 256 * Pow256(6);
  }

  /** Byte i is combined with mask byte i % 4. */
  function Mask(data: Bytes, mask: Bytes): (r: Bytes)
    requires |mask| == 4
    ensures |r| == |data|
  {
    seq(|data|, i requires 0 <= i < |data| => data[i] ^ mask[i % 4])
  }

  /** Masking twice with the same key is the identity. */
  lemma MaskInvolution(data: Bytes, mask: Bytes)
    requires |mask| == 4
    ensures Mask(Mask(data, mask), mask) == data
  {
    var twice := Mask(Mask(data, mask), mask);
    forall i | 0 <= i < |data| ensures twice[i] == data[i] {
      XorInvolution(data[i], mask[i % 4]);
    }
  }

  lemma XorInvolution(b: bv8, m: bv8)
    ensures (b ^ m) ^ m == b
  {
  }

  /** The parts of a frame cut out of the stream by position. */
  lemma Cut<T>(first: T, length: seq<T>, key: seq<T>, body: seq<T>, tail: seq<T>)
    requires |length| > 0
    ensures var s, n := [first] + length + key + body + tail, 1 + |length|;
            var m := n + |key|;
            && |s| == m + |body| + |tail|
            && s[0] == first && s[1] == length[0] && s[2..n] == length[1..]
            && s[n..m] == key && s[m..m + |body|] == body && s[m + |body|..] == tail
  {
  }

  /** The same without a key. */
  lemma CutUnmasked<T>(first: T, length: seq<T>, body: seq<T>, tail: seq<T>)
    requires |length| > 0
    ensures var s, n := [first] + length + body + tail, 1 + |length|;
            && |s| == n + |body| + |tail|
            && s[0] == first && s[1] == length[0] && s[2..n] == length[1..]
            && s[n..n + |body|] == body && s[n + |body|..] == tail
  {
  }

  /** And glued together again. */
  lemma Glue<T>(s: seq<T>, n: nat, m: nat, k: nat)
    requires 2 <= n <= m <= k <= |s|
    ensures s == [s[0]] + ([s[1]] + s[2..n]) + s[n..m] + s[m..k] + s[k..]
  {
  }

  /** Section 5.3 of RFC 6455: octet i of the payload is combined with octet i modulo 4 of the key. */
  lemma MaskedOctet(data: Bytes, mask: Bytes, i: nat)
    requires |mask| == 4 && i < |data|
    ensures Mask(data, mask)[i] == data[i] ^ mask[i % 4]
  {
  }

  /** Numbers are in network byte order: the first byte is the most significant. */
  lemma {:induction false} MostSignificantFirst(x: bv8, b: Bytes)
    ensures FromBigEndian([x] + b) == x as int * Pow256(|b|) + FromBigEndian(b)
  {
    if b == [] {
      FromSnoc([], x);
      assert [] + [x] == [x] + b;
    } else {
      var p, last := b[..|b| - 1], b[|b| - 1];
      assert [x] + b == ([x] + p) + [last];
      MostSignificantFirst(x, p);
      ShiftUp(x as int, Pow256(|p|), FromBigEndian(p), last as int);
      FromSnoc([x] + p, last);
    }
  }

  lemma ShiftUp(x: int, q: int, n: int, last: int)
    ensures 256 * (x * q + n) + last == x * (256 * q) + (256 * n + last)
  {
  }
}
