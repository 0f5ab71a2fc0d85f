/**
 * The fixed-width big-endian integer encodings of the batch builder: a loop that
 * fills a buffer from its last byte to its first, masking with 0xff and shifting
 * right by 8. On unbounded integers `v & 0xff` is `v % 256` and `v >> 8` is `v / 256`,
 * also for negative `v`, because both Dafny operators round towards minus infinity here.
 */
module ByteCodec {
  import opened Arithmetic

  type byte = x: int | 0 <= x < 256

  /** 256 to the power `n`. */
  function Pow256(n: nat): (p: int)
    ensures p > 0
  {
    if n == 0 then 1 else 256 * Pow256(n - 1)
  }

  /** The unsigned number that a big-endian byte string denotes. */
  function ValueBE(b: seq<byte>): (v: nat) {
    if b == [] then 0 else 256 * ValueBE(b[..|b| - 1]) + b[|b| - 1]
  }

  /** The last `width` bytes of the two's-complement expansion of `v`. */
  function BytesBE(v: int, width: nat): (b: seq<byte>)
    ensures |b| == width
    decreases width, v
  {
    if width == 0 then [] else BytesBE(v / 256, width - 1) + [v % 256]
  }

  /** The signed number that a big-endian two's-complement byte string denotes. */
  function SignedValueBE(b: seq<byte>): (v: int) {
    var u := ValueBE(b);
    if 2 * u < Pow256(|b|) then u else u - Pow256(|b|)
  }

  lemma {:induction false} ValueBEBound(b: seq<byte>)
    ensures ValueBE(b) < Pow256(|b|)
  {
    if b != [] {
      ValueBEBound(b[..|b| - 1]);
    }
  }

  lemma AppendByte(v: int, p: int)
    requires p > 0
    ensures v % (256 * p) == 256 * (v / 256 % p) + v % 256
  {
    var q, m := v / 256 / p, v / 256 % p;
    assert v / 256 == p * q + m;
    assert v == 256 * (p * q + m) + v % 256;
    assert 256 * (p * q) == (256 * p) * q;
    Decomposition(v, 256 * p, q, 256 * m + v % 256);
  }

  /** The first byte weighs most. */
  lemma {:induction false} FirstByteWeighs(b: seq<byte>)
    requires b != []
    ensures ValueBE(b) == b[0] * Pow256(|b| - 1) + ValueBE(b[1..])
  {
    if |b| > 1 {
      var init := b[..|b| - 1];
      FirstByteWeighs(init);
      assert init[1..] == b[1..][..|b| - 2] && init[0] == b[0];
      assert 256 * (b[0] * Pow256(|b| - 2)) == b[0] * Pow256(|b| - 1);
    }
  }

  /** Decoding an encoding gives the number back modulo 256^width, for every integer. */
  lemma {:induction false} DecodeEncode(v: int, width: nat)
    ensures ValueBE(BytesBE(v, width)) == v % Pow256(width)
    decreases width
  {
    if width > 0 {
      DecodeEncode(v / 256, width - 1);
      assert BytesBE(v, width)[..width - 1] == BytesBE(v / 256, width - 1);
      AppendByte(v, Pow256(width - 1));
    }
  }

  /** Encoding a decoded string gives the string back, so the two are inverse bijections. */
  lemma {:induction false} EncodeDecode(b: seq<byte>)
    ensures BytesBE(ValueBE(b), |b|) == b
  {
    if b != [] {
      EncodeDecode(b[..|b| - 1]);
      assert ValueBE(b) / 256 == ValueBE(b[..|b| - 1]);
      assert ValueBE(b) % 256 == b[|b| - 1];
    }
  }

  /** The encoding only sees its argument modulo 256^width. */
  lemma BytesBEOfMod(v: int, width: nat)
    ensures BytesBE(v % Pow256(width), width) == BytesBE(v, width)
  {
    DecodeEncode(v, width);
    EncodeDecode(BytesBE(v, width));
  }

  /** Two integers have the same encoding exactly when they agree modulo 256^width. */
  lemma BytesBEInjective(v: int, w: int, width: nat)
    ensures BytesBE(v, width) == BytesBE(w, width) <==> v % Pow256(width) == w % Pow256(width)
  {
    DecodeEncode(v, width);
    DecodeEncode(w, width);
    EncodeDecode(BytesBE(v, width));
    EncodeDecode(BytesBE(w, width));
    BytesBEOfMod(v, width);
    BytesBEOfMod(w, width);
  }

  /** Two's complement: negative values are first moved up by 256^width. */
  function TwosComplementBE(v: int, width: nat): (b: seq<byte>)
    ensures |b| == width
  {
    BytesBE(if v < 0 then Pow256(width) + v else v, width)
  }

  predicate InI128(v: int) {
    -Pow256(16) <= 2 * v < Pow256(16)
  }

  predicate InU64(v: int) {
    0 <= v < Pow256(8)
  }

  /** The ranges really are those of the contract's `i128` and `u64`. */
  lemma RangeConstants()
    ensures Pow256(8) == 0x1_0000_0000_0000_0000
    ensures Pow256(16) == 0x1_0000_0000_0000_0000_0000_0000_0000_0000
  {
    assert Pow256(4) == 0x1_0000_0000;
    assert Pow256(8) == 0x1_0000_0000_0000_0000;
    assert Pow256(12) == 0x1_0000_0000_0000_0000_0000_0000;
  }

  /** Adding the modulus once does not change the encoding. */
  lemma BytesBEAddModulus(v: int, width: nat)
    ensures BytesBE(Pow256(width) + v, width) == BytesBE(v, width)
  {
    var m := Pow256(width);
    assert v == m * (v / m) + v % m;
    assert m * (v / m + 1) == m * (v / m) + m;
    Decomposition(m + v, m, v / m + 1, v % m);
    BytesBEInjective(m + v, v, width);
  }

  /** The explicit shift of negative values agrees with the masking loop on its own. */
  lemma TwosComplementValue(v: int, width: nat)
    ensures TwosComplementBE(v, width) == BytesBE(v, width)
    ensures ValueBE(TwosComplementBE(v, width)) == v % Pow256(width)
  {
    DecodeEncode(v, width);
    BytesBEAddModulus(v, width);
  }

  /** A signed field is read back as written exactly for values that fit its width. */
  lemma SignedRoundTrip(v: int, width: nat)
    ensures SignedValueBE(TwosComplementBE(v, width)) == v <==> -Pow256(width) <= 2 * v < Pow256(width)
  {
    var m := Pow256(width);
    TwosComplementValue(v, width);
    if -m <= 2 * v < 0 {
      Decomposition(v, m, -1, m + v);
    } else if 0 <= 2 * v < m {
      Decomposition(v, m, 0, v);
    }
  }

  /** Conversely every byte string is the encoding of the in-range number it denotes. */
  lemma SignedEncodeDecode(b: seq<byte>)
    ensures -Pow256(|b|) <= 2 * SignedValueBE(b) < Pow256(|b|)
    ensures TwosComplementBE(SignedValueBE(b), |b|) == b
  {
    var u, m := ValueBE(b), Pow256(|b|);
    ValueBEBound(b);
    EncodeDecode(b);
    if 2 * u < m {
      assert SignedValueBE(b) == u;
    } else {
      assert SignedValueBE(b) == u - m && m + (u - m) == u;
    }
  }

  /** The u64 field is read back as written exactly for values a `u64` can hold. */
  lemma U64RoundTrip(value: int)
    ensures ValueBE(BytesBE(value, 8)) == value <==> InU64(value)
  {
    DecodeEncode(value, 8);
    if InU64(value) {
      Decomposition(value, Pow256(8), 0, value);
    }
  }

  /** The descending loop shared by the two encoders: `width` bytes, last one first. */
  method FillDescending(value: int, width: nat) returns (b: seq<byte>)
    ensures b == BytesBE(value, width)
  {
    var buf := new byte[width];
    var v := value;
    var i := width;
    while i > 0
      invariant 0 <= i <= width
      invariant BytesBE(value, width) == BytesBE(v, i) + buf[i..]
    {
      i := i - 1;
      buf[i] := v % 256;
      assert buf[i..] == [v % 256] + buf[i + 1..];
      assert BytesBE(v, i + 1) + buf[i + 1..] == BytesBE(v / 256, i) + buf[i..];
      v := v / 256;
    }
    assert buf[0..] == buf[..];
    b := buf[..];
  }

  method I128ToBytesBE(value: int) returns (b: seq<byte>)
    ensures b == TwosComplementBE(value, 16)
    ensures |b| == 16 && ValueBE(b) == value % Pow256(16)
    ensures InI128(value) <==> SignedValueBE(b) == value
  {
    TwosComplementValue(value, 16);
    SignedRoundTrip(value, 16);
    b := FillDescending(if value < 0 then Pow256(16) + value else value, 16);
  }

  method U64ToBytesBE(value: int) returns (b: seq<byte>)
    ensures b == BytesBE(value, 8)
    ensures |b| == 8 && ValueBE(b) == value % Pow256(8)
    ensures InU64(value) <==> ValueBE(b) == value
  {
    DecodeEncode(value, 8);
    U64RoundTrip(value);
    b := FillDescending(value, 8);
  }
}
