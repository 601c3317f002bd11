/**
 * QUIC variable-length integers, section 16 of RFC 9000: the two most
 * significant bits of the first byte give the length (1, 2, 4 or 8 bytes),
 * the remaining bits hold the value in network byte order.  Values up to
 * 2^62 - 1 can be encoded.  Every count and length in the namespace codec is
 * one of these.
 */
module VarInt {
  import opened Text
  import opened Wrappers

  const MaxValue: nat := 0x4000_0000_0000_0000 - 1

  function Pow256(n: nat): (p: nat)
    ensures p >= 1
  {
    if n == 0 then 1 else 256 * Pow256(n - 1)
  }

  /** The n-byte big-endian representation of `v`. */
  function BigEndian(v: nat, n: nat): (bs: Text)
    requires v < Pow256(n)
    ensures |bs| == n
  {
    if n == 0 then []
    else
      DivBound(v, Pow256(n - 1));
      BigEndian(v / 256, n - 1) + [(v % 256) as byte]
  }

  /** The value of a big-endian byte string. */
  function FromBigEndian(bs: Text): nat
  {
    if |bs| == 0 then 0 else FromBigEndian(bs[..|bs| - 1]) * 256 + bs[|bs| - 1] as nat
  }

  lemma DivBound(v: nat, p: nat)
    requires v < 256 * p
    ensures v / 256 < p
  {
  }

  lemma {:induction false} FromBigEndianOfBigEndian(v: nat, n: nat)
    requires v < Pow256(n)
    ensures FromBigEndian(BigEndian(v, n)) == v
  {
    if n > 0 {
      DivBound(v, Pow256(n - 1));
      var bs := BigEndian(v, n);
      assert bs[..n - 1] == BigEndian(v / 256, n - 1);
      FromBigEndianOfBigEndian(v / 256, n - 1);
    }
  }

  /** When `v` fits in the low 6 bits of the first of n bytes, the first byte is below 64. */
  lemma {:induction false} FirstByteBelow64(v: nat, n: nat)
    requires n >= 1 && v < 64 * Pow256(n - 1)
    ensures v < Pow256(n) && BigEndian(v, n)[0] < 64
  {
    if n > 1 {
      var p := Pow256(n - 2);
      assert Pow256(n - 1) == 256 * p;
      assert 64 * (256 * p) == 256 * (64 * p);
      DivBound(v, 64 * p);
      FirstByteBelow64(v / 256, n - 1);
      assert BigEndian(v, n)[0] == BigEndian(v / 256, n - 1)[0];
    }
  }

  lemma DivModOf(w: nat, q: nat, r: nat)
    requires r < 256 && w == q * 256 + r
    ensures w / 256 == q && w % 256 == r
  {
  }

  /** `t` in the first of n bytes: `t` times 256^(n-1). */
  function Shifted(t: nat, n: nat): nat
    requires n >= 1
  {
    if n == 1 then t else 256 * Shifted(t, n - 1)
  }

  /** A first byte of at most 0xC0 weighs at most 0xC0 times the first byte's weight. */
  lemma {:induction false} ShiftedBound(t: nat, n: nat)
    requires n >= 1 && t <= 0xC0
    ensures Shifted(t, n) <= 0xC0 * Pow256(n - 1)
  {
    if n > 1 {
      ShiftedBound(t, n - 1);
    }
  }

  /** The last byte of `v` with `t` added in the first byte is the last byte of `v`. */
  lemma {:induction false} TaggedLowByte(v: nat, n: nat, t: nat)
    requires n > 1 && v < Pow256(n) && v + Shifted(t, n) < Pow256(n)
    ensures v / 256 + Shifted(t, n - 1) < Pow256(n - 1)
    ensures BigEndian(v + Shifted(t, n), n) == BigEndian(v / 256 + Shifted(t, n - 1), n - 1) + [(v % 256) as byte]
  {
    DivModOf(v + Shifted(t, n), v / 256 + Shifted(t, n - 1), v % 256);
    DivBound(v + Shifted(t, n), Pow256(n - 1));
  }

  /**
   * Adding `t` in the first byte changes only the first byte: the tag bits of
   * an encoding sit on top of the value's own bytes.
   */
  lemma {:induction false} TaggedBigEndian(v: nat, n: nat, t: nat)
    requires n >= 1 && v < 64 * Pow256(n - 1) && t <= 0xC0
    ensures v < Pow256(n) && v + Shifted(t, n) < Pow256(n)
    ensures BigEndian(v, n)[0] as nat + t < 256
    ensures BigEndian(v + Shifted(t, n), n) == [BigEndian(v, n)[0] + t as byte] + BigEndian(v, n)[1..]
  {
    FirstByteBelow64(v, n);
    ShiftedBound(t, n);
    if n > 1 {
      var q := Pow256(n - 2);
      assert 64 * (256 * q) == 256 * (64 * q);
      DivBound(v, 64 * q);
      TaggedLowByte(v, n, t);
      TaggedBigEndian(v / 256, n - 1, t);
      var bs := BigEndian(v / 256, n - 1);
      var y := (v % 256) as byte;
      assert BigEndian(v, n) == bs + [y];
      assert BigEndian(v, n)[0] == bs[0];
      assert ([bs[0] + t as byte] + bs[1..]) + [y] == [bs[0] + t as byte] + (bs[1..] + [y]);
    }
  }

  /** The encoded length for a value: 1, 2, 4 or 8 bytes. */
  function EncodedLength(v: nat): (n: nat)
    requires v <= MaxValue
    ensures n in {1, 2, 4, 8} && v < 64 * Pow256(n - 1)
  {
    assert Pow256(1) == 256;
    assert Pow256(3) == 0x100_0000;
    assert Pow256(7) == 0x100_0000_0000_0000;
    if v < 0x40 then 1
    else if v < 0x4000 then 2
    else if v < 0x4000_0000 then 4
    else 8
  }

  /** The two-bit length tag of an n-byte encoding. */
  function Tag(n: nat): byte
  {
    if n == 1 then 0x00 else if n == 2 then 0x40 else if n == 4 then 0x80 else 0xC0
  }

  /** The tag of an n-byte encoding in place: its two bits at the top of the n-byte integer. */
  function TagBits(n: nat): nat
  {
    if n == 1 then 0 else if n == 2 then 0x4000 else if n == 4 then 0x8000_0000 else 0xC000_0000_0000_0000
  }

  /** The tag in place is the tag byte in the first of n bytes. */
  lemma TagBitsWeight(n: nat)
    requires n in {1, 2, 4, 8}
    ensures TagBits(n) == Shifted(Tag(n) as nat, n)
  {
    if n == 2 {
      assert Shifted(0x40, 2) == 0x4000;
    } else if n == 4 {
      assert Shifted(0x80, 4) == 0x8000_0000;
    } else if n == 8 {
      assert Shifted(0xC0, 8) == 0xC000_0000_0000_0000;
    }
  }

  /** Writing the tag in place leaves the value's own bytes, with the tag added to the first. */
  lemma TaggedBytes(v: nat, n: nat)
    requires n in {1, 2, 4, 8} && v < 64 * Pow256(n - 1)
    ensures v < Pow256(n) && v + TagBits(n) < Pow256(n)
    ensures BigEndian(v, n)[0] < 64
    ensures BigEndian(v + TagBits(n), n) == [BigEndian(v, n)[0] + Tag(n)] + BigEndian(v, n)[1..]
  {
    FirstByteBelow64(v, n);
    TagBitsWeight(n);
    TaggedBigEndian(v, n, Tag(n) as nat);
  }

  /** The length of the encoding whose first byte is `b`. */
  function LengthOfFirstByte(b: byte): nat
  {
    if b < 0x40 then 1 else if b < 0x80 then 2 else if b < 0xC0 then 4 else 8
  }

  /** The errors of the wire codec: a value out of range, or a bounded collection too long. */
  datatype EncodeError = BoundsExceeded(value: nat) | FieldBoundsExceeded(what: string)

  /** `More`: the input ended before the value was complete. */
  datatype DecodeError = More(needed: nat) | FieldBoundsExceeded(what: string)

  /** Encoding fails exactly when the value does not fit in 62 bits. */
  function Encode(v: nat): (r: Result<Text, EncodeError>)
    ensures r.Failure? <==> v > MaxValue
    ensures r.Success? ==> |r.value| in {1, 2, 4, 8} && LengthOfFirstByte(r.value[0]) == |r.value|
    ensures r.Failure? ==> r.error == BoundsExceeded(v)
  {
    if v > MaxValue then Failure(BoundsExceeded(v))
    else
      var n := EncodedLength(v);
      TaggedBytes(v, n);
      Success(BigEndian(v + TagBits(n), n))
  }

  /**
   * Decoding reads the length from the first byte and then the value; it
   * reports how many more bytes it needs when the input is short.  On success
   * it also returns the number of bytes consumed.
   */
  function Decode(buf: Text): (r: Result<(nat, nat), DecodeError>)
    ensures r.Success? ==> |buf| > 0 && r.value.1 == LengthOfFirstByte(buf[0]) && r.value.1 <= |buf|
    ensures r.Failure? <==> |buf| == 0 || |buf| < LengthOfFirstByte(buf[0])
    ensures r.Failure? ==> r.error.More?
  {
    if |buf| == 0 then Failure(More(1))
    else
      var n := LengthOfFirstByte(buf[0]);
      if |buf| < n then Failure(More(n - |buf|))
      else Success((ValueOf(buf, n), n))
  }

  /** The value held by the first n bytes of `buf`, the length tag masked off the first. */
  function ValueOf(buf: Text, n: nat): nat
    requires 1 <= n <= |buf|
  {
    if n == 1 then (buf[0] % 0x40) as nat else ValueOf(buf, n - 1) * 256 + buf[n - 1] as nat
  }

  lemma {:induction false} ValueOfMasked(buf: Text, n: nat)
    requires 1 <= n <= |buf|
    ensures ValueOf(buf, n) == FromBigEndian([buf[0] % 0x40] + buf[1..n])
  {
    var s := [buf[0] % 0x40] + buf[1..n];
    if n == 1 {
      assert s[..0] == [];
    } else {
      assert s[..n - 1] == [buf[0] % 0x40] + buf[1..n - 1];
      ValueOfMasked(buf, n - 1);
    }
  }

  /** The encoding is the value's own bytes with the length tag added to the first. */
  lemma EncodeShape(v: nat)
    requires v <= MaxValue
    ensures Encode(v).Success?
    ensures var n := EncodedLength(v);
      BigEndian(v, n)[0] < 64 &&
      Encode(v).value == [BigEndian(v, n)[0] + Tag(n)] + BigEndian(v, n)[1..]
  {
    TaggedBytes(v, EncodedLength(v));
  }

  /** A tag added to a byte below 64 is read back as the length and masked off again. */
  lemma TagMask(b: byte, n: nat)
    requires b < 64 && n in {1, 2, 4, 8}
    ensures LengthOfFirstByte(b + Tag(n)) == n && (b + Tag(n)) % 0x40 == b
  {
  }

  /** Decoding an encoding gives back the value and consumes exactly the encoding. */
  lemma RoundTrip(v: nat, rest: Text)
    requires v <= MaxValue
    ensures Encode(v).Success?
    ensures Decode(Encode(v).value + rest) == Success((v, |Encode(v).value|))
  {
    var n := EncodedLength(v);
    EncodeShape(v);
    var bs := BigEndian(v, n);
    var buf := Encode(v).value + rest;
    assert buf[0] == bs[0] + Tag(n);
    TagMask(bs[0], n);
    assert [buf[0] % 0x40] + buf[1..n] == bs;
    FromBigEndianOfBigEndian(v, n);
    ValueOfMasked(buf, n);
  }

  /** Values below 64 are a single byte holding the value itself. */
  lemma SingleByte(v: nat)
    requires v < 64
    ensures Encode(v) == Success([v as byte])
  {
    assert EncodedLength(v) == 1;
    var bs := BigEndian(v, 1);
    assert bs == BigEndian(v / 256, 0) + [(v % 256) as byte] == [v as byte];
    assert v + Tag(1) as nat * Pow256(0) == v;
  }
}
