/** When a binary32 number is also a binary16 number (the formats of IEEE 754). */
module FloatWidth {
  import opened Arithmetic

  /** The numbers a float can hold, in units of 2^-149, the smallest positive binary32 number. */
  datatype Number = Infinite(negative: bool) | Finite(negative: bool, units: nat)

  function Pow2(n: nat): (p: nat)
    ensures p > 0
  {
    if n == 0 then 1 else 2 * Pow2(n - 1)
  }

  /** A biased exponent and a fraction of `width` bits: subnormal at exponent 0, else with the hidden bit. */
  function Units(width: nat, exponent: nat, fraction: nat): nat {
    if exponent == 0 then fraction else (Pow2(width) + fraction) * Pow2(exponent - 1)
  }

  function Exponent32(bits: nat): nat { bits / 0x80_0000 % 0x100 }
  function Fraction32(bits: nat): nat { bits % 0x80_0000 }
  predicate IsNaN32(bits: nat) { Exponent32(bits) == 0xff && Fraction32(bits) != 0 }

  function Number32(bits: nat): Number
    requires bits < 0x1_0000_0000
  {
    var negative := bits / 0x8000_0000 == 1;
    if Exponent32(bits) == 0xff then Infinite(negative)
    else Finite(negative, Units(23, Exponent32(bits), Fraction32(bits)))
  }

  function Exponent16(bits: nat): nat { bits / 0x400 % 0x20 }
  function Fraction16(bits: nat): nat { bits % 0x400 }
  predicate IsNaN16(bits: nat) { Exponent16(bits) == 0x1f && Fraction16(bits) != 0 }

  /** The smallest positive binary16 number is 2^-24, that is 2^125 units. */
  function Number16(bits: nat): Number
    requires bits < 0x1_0000
  {
    var negative := bits / 0x8000 == 1;
    if Exponent16(bits) == 0x1f then Infinite(negative)
    else Finite(negative, Units(10, Exponent16(bits), Fraction16(bits)) * Pow2(125))
  }

  /** f32_is_exact_f16. */
  predicate F32IsExactF16(bits: nat) { ExactFields(Exponent32(bits), Fraction32(bits)) }

  predicate ExactFields(exponent: nat, fraction: nat) {
    if exponent == 0xff then fraction == 0
    else if exponent == 0 then fraction == 0
    else
      var unbiased := exponent - 127;
      if -14 <= unbiased <= 15 then fraction % 0x2000 == 0
      else if -24 <= unbiased <= -15 then (0x80_0000 + fraction) % Pow2(-unbiased - 1) == 0
      else false
  }

  ghost predicate HasHalf(bits: nat)
    requires bits < 0x1_0000_0000
  {
    exists h :: 0 <= h < 0x1_0000 && !IsNaN16(h) && Number16(h) == Number32(bits)
  }

  // ----- powers of two -----

  lemma {:induction false} Pow2Add(a: nat, b: nat)
    ensures Pow2(a + b) == Pow2(a) * Pow2(b)
  {
    if a > 0 {
      Pow2Add(a - 1, b);
    }
  }

  lemma {:induction false} Pow2Grows(a: nat, b: nat)
    requires a <= b
    ensures Pow2(a) <= Pow2(b)
  {
    if a < b {
      Pow2Grows(a, b - 1);
    }
  }

  lemma Constants()
    ensures Pow2(0) == 1 && Pow2(10) == 0x400 && Pow2(13) == 0x2000 && Pow2(14) == 0x4000 && Pow2(23) == 0x80_0000
  {
    assert Pow2(5) == 32;
    assert Pow2(10) == 1024;
    Pow2Add(10, 3);
    Pow2Add(10, 4);
    Pow2Add(13, 10);
  }

  lemma Scale(x: nat, a: nat, b: nat)
    ensures x * Pow2(a + b) == (x * Pow2(a)) * Pow2(b)
  {
    hide Pow2;
    Pow2Add(a, b);
    Associate(x, Pow2(a), Pow2(b));
  }

  lemma Associate(x: nat, y: nat, z: nat)
    ensures x * (y * z) == (x * y) * z
  {
  }

  lemma Cancel(x: nat, y: nat, m: nat)
    requires m > 0 && x * m == y * m
    ensures x == y
  {
  }

  lemma ScaleOrder(x: nat, y: nat, m: nat)
    requires m > 0
    ensures x < y ==> x * m < y * m
    ensures x <= y ==> x * m <= y * m
  {
  }

  // ----- the two formats -----

  /** A normal number lies between its exponent's powers of two. */
  lemma NormalRange(width: nat, exponent: nat, fraction: nat)
    requires exponent > 0 && fraction < Pow2(width)
    ensures Pow2(width + exponent - 1) <= Units(width, exponent, fraction) < Pow2(width + exponent)
  {
    assert Pow2(width + 1) == 2 * Pow2(width);
    hide Pow2;
    var m := Pow2(exponent - 1);
    Pow2Add(width, exponent - 1);
    ScaleOrder(Pow2(width), Pow2(width) + fraction, m);
    ScaleOrder(Pow2(width) + fraction, Pow2(width + 1), m);
    Pow2Add(width + 1, exponent - 1);
  }

  lemma HalfRange(exponent: nat, fraction: nat)
    requires fraction < 0x400
    ensures var u := Units(10, exponent, fraction) * Pow2(125);
            if exponent == 0 then u < Pow2(135) && (u == 0 || Pow2(125) <= u)
            else Pow2(134 + exponent) <= u < Pow2(135 + exponent)
  {
    hide Pow2;
    Constants();
    var u := Units(10, exponent, fraction);
    if exponent == 0 {
      Pow2Add(10, 125);
      ScaleOrder(fraction, 0x400, Pow2(125));
      ScaleOrder(1, fraction, Pow2(125));
    } else {
      hide Units;
      NormalRange(10, exponent, fraction);
      Pow2Add(9 + exponent, 125);
      Pow2Add(10 + exponent, 125);
      ScaleOrder(u, Pow2(10 + exponent), Pow2(125));
      ScaleOrder(Pow2(9 + exponent), u, Pow2(125));
    }
  }

  /** Powers of two that bound the same number from both sides are the same power. */
  lemma SamePower(a: nat, b: nat, u: nat)
    requires Pow2(a) <= u < Pow2(a + 1) && Pow2(b) <= u < Pow2(b + 1)
    ensures a == b
  {
    if a < b {
      Pow2Grows(a + 1, b);
    } else if b < a {
      Pow2Grows(b + 1, a);
    }
  }

  // ----- when a half exists -----

  lemma Assemble16(negative: bool, exponent: nat, fraction: nat) returns (h: nat)
    requires exponent < 0x20 && fraction < 0x400
    ensures h < 0x1_0000 && (h / 0x8000 == 1) == negative && Exponent16(h) == exponent && Fraction16(h) == fraction
  {
    h := (if negative then 0x8000 else 0) + exponent * 0x400 + fraction;
  }

  lemma NormalUnits(exponent: nat, fraction: nat)
    requires 113 <= exponent && fraction % 0x2000 == 0
    ensures Units(10, exponent - 112, fraction / 0x2000) * Pow2(125) == Units(23, exponent, fraction)
  {
    hide Pow2;
    var f := fraction / 0x2000;
    Constants();
    assert Pow2(23) + fraction == (0x400 + f) * Pow2(13);
    Scale(0x400 + f, exponent - 113, 125);
    Scale(0x400 + f, 13, exponent - 1);
  }

  lemma SubnormalUnits(exponent: nat, fraction: nat, f: nat)
    requires 103 <= exponent <= 112
    ensures f * Pow2(125) == (f * Pow2(126 - exponent)) * Pow2(exponent - 1)
  {
    hide Pow2;
    Scale(f, 126 - exponent, exponent - 1);
  }

  lemma ExactHasHalf(bits: nat)
    requires bits < 0x1_0000_0000 && !IsNaN32(bits) && F32IsExactF16(bits)
    ensures HasHalf(bits)
  {
    hide Pow2, Units;
    var exponent, fraction := Exponent32(bits), Fraction32(bits);
    var negative := bits / 0x8000_0000 == 1;
    var h;
    if exponent == 0xff {
      h := Assemble16(negative, 0x1f, 0);
    } else if exponent == 0 {
      h := Assemble16(negative, 0, 0);
      ZeroUnits();
    } else if exponent >= 113 {
      h := Assemble16(negative, exponent - 112, fraction / 0x2000);
      NormalUnits(exponent, fraction);
    } else {
      var d := 126 - exponent;
      var f := (0x80_0000 + fraction) / Pow2(d);
      SubnormalFraction(exponent, fraction);
      h := Assemble16(negative, 0, f);
      SubnormalUnits(exponent, fraction, f);
      UnitsCases(exponent, fraction, f);
    }
    assert Number16(h) == Number32(bits);
  }

  lemma ZeroUnits()
    ensures Units(10, 0, 0) * Pow2(125) == 0 == Units(23, 0, 0)
  {
  }

  lemma UnitsCases(exponent: nat, fraction: nat, f: nat)
    requires exponent > 0
    ensures Units(10, 0, f) == f && Units(23, exponent, fraction) == (0x80_0000 + fraction) * Pow2(exponent - 1)
  {
    hide Pow2;
    Constants();
  }

  lemma SubnormalFraction(exponent: nat, fraction: nat)
    requires 103 <= exponent <= 112 && fraction < 0x80_0000 && (0x80_0000 + fraction) % Pow2(126 - exponent) == 0
    ensures var d := 126 - exponent; var f := (0x80_0000 + fraction) / Pow2(d);
            f < 0x400 && f * Pow2(d) == 0x80_0000 + fraction
  {
    hide Pow2;
    var d := 126 - exponent;
    var f := (0x80_0000 + fraction) / Pow2(d);
    Constants();
    Pow2Grows(14, d);
    ScaleOrder(0x400, f, Pow2(d));
  }

  lemma HalfFields(exponent: nat, fraction: nat, e: nat, f: nat)
    requires exponent < 0xff && fraction < 0x80_0000 && e < 0x1f && f < 0x400
    requires Units(10, e, f) * Pow2(125) == Units(23, exponent, fraction)
    ensures ExactFields(exponent, fraction)
  {
    hide Pow2, Units;
    HalfRange(e, f);
    SingleRange(exponent, fraction);
    if exponent == 0 {
      Pow2Grows(23, 125);
      Pow2Grows(125, 134 + e);
    } else if e == 0 {
      HalfSubnormal(exponent, fraction, f);
    } else {
      SamePower(134 + e, 22 + exponent, Units(23, exponent, fraction));
      HalfNormal(exponent, fraction, e, f);
    }
  }

  lemma HalfIsExact(bits: nat, h: nat)
    requires bits < 0x1_0000_0000 && h < 0x1_0000 && !IsNaN16(h) && !IsNaN32(bits) && Number16(h) == Number32(bits)
    ensures F32IsExactF16(bits)
  {
    hide Pow2, Units;
    if Exponent32(bits) != 0xff {
      HalfFields(Exponent32(bits), Fraction32(bits), Exponent16(h), Fraction16(h));
    }
  }

  lemma SingleRange(exponent: nat, fraction: nat)
    requires fraction < 0x80_0000
    ensures var u := Units(23, exponent, fraction);
            if exponent == 0 then u == fraction < Pow2(23) else Pow2(22 + exponent) <= u < Pow2(23 + exponent)
  {
    hide Pow2;
    Constants();
    if exponent > 0 {
      NormalRange(23, exponent, fraction);
    }
  }

  lemma HalfNormal(exponent: nat, fraction: nat, e: nat, f: nat)
    requires e > 0 && 134 + e == 22 + exponent && Units(10, e, f) * Pow2(125) == Units(23, exponent, fraction)
    ensures fraction % 0x2000 == 0
  {
    hide Pow2;
    Constants();
    Scale(0x400 + f, e - 1, 125);
    Scale(0x400 + f, 13, exponent - 1);
    Cancel((0x400 + f) * 0x2000, 0x80_0000 + fraction, Pow2(exponent - 1));
    assert fraction == f * 0x2000;
  }

  lemma HalfSubnormal(exponent: nat, fraction: nat, f: nat)
    requires exponent > 0 && fraction < 0x80_0000 && f < 0x400
    requires Units(10, 0, f) * Pow2(125) == Units(23, exponent, fraction)
    ensures 103 <= exponent <= 112 && (0x80_0000 + fraction) % Pow2(126 - exponent) == 0
  {
    hide Pow2, Units;
    SingleRange(exponent, fraction);
    HalfRange(0, f);
    UnitsCases(exponent, fraction, f);
    if exponent > 112 {
      Pow2Grows(135, 22 + exponent);
      assert false;
    }
    if exponent < 103 {
      Pow2Grows(23 + exponent, 125);
      assert false;
    }
    SubnormalUnits(exponent, fraction, f);
    Cancel(f * Pow2(126 - exponent), 0x80_0000 + fraction, Pow2(exponent - 1));
    Multiple(f, Pow2(126 - exponent));
  }

  /** The bit test holds exactly when some binary16 number is the same number, sign, zeros and infinities included. */
  lemma ExactHalfIff(bits: nat)
    requires bits < 0x1_0000_0000 && !IsNaN32(bits)
    ensures F32IsExactF16(bits) <==> HasHalf(bits)
  {
    hide F32IsExactF16, Number16, Number32;
    if F32IsExactF16(bits) {
      ExactHasHalf(bits);
    }
    if HasHalf(bits) {
      var h :| 0 <= h < 0x1_0000 && !IsNaN16(h) && Number16(h) == Number32(bits);
      HalfIsExact(bits, h);
    }
  }

  // ----- one number, one bit pattern -----

  lemma UnitsInjective(width: nat, e: nat, f: nat, e': nat, f': nat)
    requires f < Pow2(width) && f' < Pow2(width) && Units(width, e, f) == Units(width, e', f')
    ensures e == e' && f == f'
  {
    hide Pow2;
    if e > 0 && e' > 0 {
      NormalRange(width, e, f);
      NormalRange(width, e', f');
      SamePower(width + e - 1, width + e' - 1, Units(width, e, f));
      Cancel(Pow2(width) + f, Pow2(width) + f', Pow2(e - 1));
    } else if e > 0 {
      NormalRange(width, e, f);
      Pow2Grows(width, width + e - 1);
    } else if e' > 0 {
      NormalRange(width, e', f');
      Pow2Grows(width, width + e' - 1);
    }
  }

  lemma Number16Injective(a: nat, b: nat)
    requires a < 0x1_0000 && b < 0x1_0000 && !IsNaN16(a) && !IsNaN16(b) && Number16(a) == Number16(b)
    ensures a == b
  {
    hide Pow2, Units;
    Constants();
    if Exponent16(a) != 0x1f {
      var u, v := Units(10, Exponent16(a), Fraction16(a)), Units(10, Exponent16(b), Fraction16(b));
      Cancel(u, v, Pow2(125));
      UnitsInjective(10, Exponent16(a), Fraction16(a), Exponent16(b), Fraction16(b));
    }
  }

  lemma Number32Injective(a: nat, b: nat)
    requires a < 0x1_0000_0000 && b < 0x1_0000_0000 && !IsNaN32(a) && !IsNaN32(b) && Number32(a) == Number32(b)
    ensures a == b
  {
    hide Pow2, Units;
    Constants();
    if Exponent32(a) != 0xff {
      UnitsInjective(23, Exponent32(a), Fraction32(a), Exponent32(b), Fraction32(b));
    }
  }
}
