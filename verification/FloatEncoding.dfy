/** 32-bit floating-point numbers as keys: their bits, and when byte order is numeric order. */
module FloatEncoding {
  import opened ByteStrings
  import opened Encodings

  const WIDTH: nat := 4

  /** The fields of the format: sign, biased exponent, trailing significand
      (section 3.4 of IEEE 754-2019). */
  function Sign(bits: nat): nat {
    bits / 0x8000_0000
  }

  function Exponent(bits: nat): nat {
    bits / 0x80_0000 % 256
  }

  function Significand(bits: nat): nat {
    bits % 0x80_0000
  }

  predicate IsFloat(bits: nat) {
    bits < 0x1_0000_0000
  }

  predicate IsNaN(bits: nat) {
    Exponent(bits) == 255 && Significand(bits) != 0
  }

  function Pow2(n: nat): (r: nat)
    ensures r > 0
  {
    if n == 0 then 1 else 2 * Pow2(n - 1)
  }

  /** The absolute value in units of the smallest subnormal number, 2 to the -149; infinity
      comes out as the number the format would have there, larger than any finite one. */
  function Magnitude(exponent: nat, significand: nat): int {
    if exponent == 0 then significand else (0x80_0000 + significand) * Pow2(exponent - 1)
  }

  lemma MagnitudeIsNatural(exponent: nat, significand: nat)
    ensures Magnitude(exponent, significand) >= 0
  {
    if exponent > 0 {
      ProductGrows(0, 0x80_0000 + significand, Pow2(exponent - 1));
    }
  }

  function Number(bits: nat): int {
    var m := Magnitude(Exponent(bits), Significand(bits));
    if Sign(bits) == 0 then m else -m
  }

  lemma Pow256OfWidth()
    ensures Pow256(WIDTH) == 0x1_0000_0000
  {
    assert Pow256(1) == 256;
    assert Pow256(2) == 65536;
    assert Pow256(3) == 16777216;
  }

  function EncodeFloat32Ascending(b: Bytes, bits: nat): Bytes
    requires IsFloat(bits)
  {
    Pow256OfWidth();
    EncodeAscending(b, WIDTH, bits)
  }

  /** On too few bytes the input comes back as it is. */
  function DecodeFloat32Ascending(b: Bytes): Decoded {
    if |b| < WIDTH then Decoded(b, 0, false) else DecodeAscending(b, WIDTH)
  }

  lemma FloatRoundTrip(b: Bytes, bits: nat, rest: Bytes)
    requires IsFloat(bits)
    ensures b == EncodeFloat32Ascending([], bits) + rest <==> DecodeFloat32Ascending(b) == Decoded(rest, bits, true)
    ensures |b| < WIDTH ==> DecodeFloat32Ascending(b) == Decoded(b, 0, false)
  {
    Pow256OfWidth();
    DecodeAscendingExactly(b, WIDTH, bits, rest);
  }

  // ----- Order

  lemma {:induction false} Pow2Grows(m: nat, n: nat)
    requires m <= n
    ensures Pow2(m) <= Pow2(n)
  {
    if m < n {
      Pow2Grows(m, n - 1);
    }
  }

  lemma ProductGrows(a: nat, b: nat, c: nat)
    ensures a < b && c > 0 ==> a * c < b * c
    ensures a <= b ==> a * c <= b * c
  {
    if a <= b {
      assert b * c == a * c + (b - a) * c;
    }
  }

  /** A larger exponent makes a larger number, whatever the significands. */
  lemma ExponentDecides(e: nat, m: nat, f: nat, n: nat)
    requires e < f && m < 0x80_0000 && n < 0x80_0000
    ensures Magnitude(e, m) < Magnitude(f, n)
  {
    Pow2Grows(e, f - 1);
    ProductGrows(0x80_0000, 0x80_0000 + n, Pow2(f - 1));
    if e > 0 {
      assert Pow2(e) == 2 * Pow2(e - 1);
      ProductGrows(0x80_0000 + m, 0x100_0000, Pow2(e - 1));
    }
  }

  lemma SignificandDecides(e: nat, m: nat, n: nat)
    requires m < n
    ensures Magnitude(e, m) < Magnitude(e, n)
  {
    if e > 0 {
      ProductGrows(0x80_0000 + m, 0x80_0000 + n, Pow2(e - 1));
    }
  }

  /** The bits are the fields put together. */
  lemma FieldsOfBits(bits: nat)
    requires IsFloat(bits)
    ensures Sign(bits) <= 1 && Exponent(bits) <= 255 && Significand(bits) < 0x80_0000
    ensures bits == 0x8000_0000 * Sign(bits) + 0x80_0000 * Exponent(bits) + Significand(bits)
  {
    var upper := bits / 0x80_0000;
    assert bits == 0x80_0000 * upper + Significand(bits);
    assert upper == 256 * (upper / 256) + upper % 256;
    assert upper / 256 == Sign(bits);
  }

  /** With equal signs, smaller bits without the sign mean a smaller magnitude. */
  lemma MagnitudesFollowBits(x: nat, y: nat)
    requires IsFloat(x) && IsFloat(y) && Sign(x) == Sign(y) && x < y
    ensures Magnitude(Exponent(x), Significand(x)) < Magnitude(Exponent(y), Significand(y))
  {
    FieldsOfBits(x);
    FieldsOfBits(y);
    if Exponent(x) < Exponent(y) {
      ExponentDecides(Exponent(x), Significand(x), Exponent(y), Significand(y));
    } else {
      assert Exponent(x) == Exponent(y);
      SignificandDecides(Exponent(x), Significand(x), Significand(y));
    }
  }

  /** For any two numbers that differ, the encoding of the smaller one sorts first exactly
      when its sign bit is clear: the order is kept among non-negative numbers, reversed among
      negative ones, and negative numbers sort after the others. */
  lemma FloatOrderExactly(x: nat, y: nat)
    requires IsFloat(x) && IsFloat(y) && !IsNaN(x) && !IsNaN(y) && Number(x) < Number(y)
    ensures LexLess(EncodeFloat32Ascending([], x), EncodeFloat32Ascending([], y)) <==> Sign(x) == 0
  {
    Pow256OfWidth();
    NumbersKeepOrder(WIDTH, x, y);
    FieldsOfBits(x);
    FieldsOfBits(y);
    MagnitudeIsNatural(Exponent(x), Significand(x));
    MagnitudeIsNatural(Exponent(y), Significand(y));
    if Sign(x) == Sign(y) {
      if x < y {
        MagnitudesFollowBits(x, y);
      } else if y < x {
        MagnitudesFollowBits(y, x);
      }
    }
    hide LexLess, Magnitude, Exponent, Significand, EncodeAscending;
  }

  /** In particular, for numbers without a sign the order is the numeric one, both ways. */
  lemma NonNegativeFloatsKeepOrder(x: nat, y: nat)
    requires IsFloat(x) && IsFloat(y) && !IsNaN(x) && !IsNaN(y) && Sign(x) == 0 && Sign(y) == 0
    ensures LexLess(EncodeFloat32Ascending([], x), EncodeFloat32Ascending([], y)) <==> Number(x) < Number(y)
  {
    Pow256OfWidth();
    NumbersKeepOrder(WIDTH, x, y);
    if x < y {
      MagnitudesFollowBits(x, y);
    } else if y < x {
      MagnitudesFollowBits(y, x);
    }
  }

  /** Minus one and one: the smaller number sorts behind the larger one. */
  lemma MinusOneSortsBehindOne()
    ensures Number(0xBF80_0000) == -Number(0x3F80_0000) < 0
    ensures LexLess(EncodeFloat32Ascending([], 0x3F80_0000), EncodeFloat32Ascending([], 0xBF80_0000))
    ensures !LexLess(EncodeFloat32Ascending([], 0xBF80_0000), EncodeFloat32Ascending([], 0x3F80_0000))
  {
    var minusOne, one := 0xBF80_0000, 0x3F80_0000;
    assert Exponent(minusOne) == Exponent(one) == 127;
    assert Significand(minusOne) == Significand(one) == 0;
    ProductGrows(0, 0x80_0000, Pow2(126));
    Pow256OfWidth();
    NumbersKeepOrder(WIDTH, minusOne, one);
    NumbersKeepOrder(WIDTH, one, minusOne);
    hide LexLess, EncodeAscending, Pow2;
  }
}
