/** IEEE 754 bytes as numbers: from zero upwards each bit pattern is one unit in the last place above the one before,
    and the sign bit negates. This fixes the value of every finite float. */
module CborFloat {
  import opened Maximum
  import opened Bytes
  import opened Options
  import opened CborWire

  lemma {:induction false} ScaledTwice(x: nat, e: int)
    ensures Scaled(2 * x, e) == Scaled(x, e + 1)
    decreases if e < 0 then -e else e
  {
    if e > 0 {
      ScaledTwice(x, e - 1);
    } else if e < 0 {
      ScaledTwice(x, e + 1);
    }
  }

  lemma {:induction false} ScaledSum(x: nat, y: nat, e: int)
    ensures Scaled(x + y, e) == Scaled(x, e) + Scaled(y, e)
    decreases if e < 0 then -e else e
  {
    if e > 0 {
      ScaledSum(x, y, e - 1);
    } else if e < 0 {
      ScaledSum(x, y, e + 1);
    }
  }

  /** Counting on: the low part grows until it is full, then the high part does. */
  lemma Carry(e: nat, f: nat, e': nat, f': nat, low: nat)
    requires f < low && f' < low && e' * low + f' == e * low + f + 1
    ensures (e' == e && f' == f + 1) || (e' == e + 1 && f' == 0 && f + 1 == low)
  {
    if f + 1 < low {
      Divided(e * low + (f + 1), low, e, f + 1);
      Divided(e * low + (f + 1), low, e', f');
    } else {
      assert (e + 1) * low == e * low + low;
      Divided((e + 1) * low, low, e + 1, 0);
      Divided((e + 1) * low, low, e', f');
    }
  }

  lemma Divided(n: nat, d: nat, q: nat, r: nat)
    requires r < d && n == q * d + r
    ensures n / d == q && n % d == r
  {
    var a := n / d;
    assert n == a * d + n % d;
    if a < q {
      TimesMonotone(a + 1, q, d);
    } else if a > q {
      TimesMonotone(q + 1, a, d);
    }
  }

  lemma TimesMonotone(a: nat, b: nat, d: nat)
    requires a <= b
    ensures a * d <= b * d
  {
  }

  /** The value of a non-negative pattern with this exponent field and this mantissa. */
  function Positive(exponent: nat, mantissa: nat, w: nat, m: nat): real
    requires w > 0
  {
    if exponent == 0 then Scaled(mantissa, 1 - (Pow2(w - 1) - 1) - m)
    else Scaled(Pow2(m) + mantissa, exponent - (Pow2(w - 1) - 1) - m)
  }

  /** One unit in the last place at this exponent field; the smallest two fields share it. */
  function Unit(exponent: nat, w: nat, m: nat): real
    requires w > 0
  {
    Scaled(1, Max(exponent, 1) - (Pow2(w - 1) - 1) - m)
  }

  /** The pattern of these fields stands for the number with these fields. */
  lemma FieldsOf(bits: nat, high: nat, sign: nat, exponent: nat, mantissa: nat, w: nat, m: nat)
    requires w > 0 && exponent < Pow2(w) && mantissa < Pow2(m)
    requires high == sign * Pow2(w) + exponent && bits == high * Pow2(m) + mantissa
    ensures FloatBits(bits, w, m) == FloatOf(sign, exponent, mantissa, w, m)
  {
    Divided(bits, Pow2(m), high, mantissa);
    Divided(high, Pow2(w), sign, exponent);
  }

  /** The pattern of all zero bits is zero. */
  lemma ZeroIsZero(w: nat, m: nat)
    requires w > 0
    ensures FloatOf(0, 0, 0, w, m) == Some(0.0)
  {
    assert Pow2(w) == 2 * Pow2(w - 1);
    ScaledSum(0, 0, 1 - (Pow2(w - 1) - 1) - m);
  }

  lemma WithinExponent(e: nat, f: nat, w: nat, m: nat)
    requires w > 0
    ensures Positive(e, f + 1, w, m) == Positive(e, f, w, m) + Unit(e, w, m)
  {
    var low := Max(e, 1) - (Pow2(w - 1) - 1) - m;
    ScaledSum(f, 1, low);
    ScaledSum(Pow2(m) + f, 1, low);
  }

  lemma AcrossExponents(e: nat, w: nat, m: nat)
    requires w > 0
    ensures Positive(e + 1, 0, w, m) == Positive(e, Pow2(m), w, m)
  {
    ScaledTwice(Pow2(m), e - (Pow2(w - 1) - 1) - m);
  }

  lemma NextValue(e: nat, f: nat, e': nat, f': nat, w: nat, m: nat)
    requires w > 0 && ((e' == e && f' == f + 1) || (e' == e + 1 && f' == 0 && f + 1 == Pow2(m)))
    ensures Positive(e', f', w, m) == Positive(e, f, w, m) + Unit(e, w, m)
  {
    WithinExponent(e, f, w, m);
    AcrossExponents(e, w, m);
  }

  /** The next pattern of a finite non-negative number is one unit in the last place further, across the change of
      exponent as well. */
  lemma OneUnitApart(e: nat, f: nat, e': nat, f': nat, w: nat, m: nat)
    requires w > 0 && f < Pow2(m) && f' < Pow2(m) && e' * Pow2(m) + f' == e * Pow2(m) + f + 1 && e' < Pow2(w) - 1
    ensures FloatOf(0, e, f, w, m).Some?
    ensures FloatOf(0, e', f', w, m) == Some(FloatOf(0, e, f, w, m).value + Unit(e, w, m))
  {
    Carry(e, f, e', f', Pow2(m));
    NextValue(e, f, e', f', w, m);
  }

  /** The sign bit negates, and a full exponent field is no number. */
  lemma SignNegates(e: nat, f: nat, w: nat, m: nat)
    requires w > 0
    ensures var a, b := FloatOf(0, e, f, w, m), FloatOf(1, e, f, w, m);
            if e == Pow2(w) - 1 then a.None? && b.None? else a.Some? && b == Some(-a.value)
  {
  }

  lemma {:induction false} ScaledOne(k: nat)
    ensures Scaled(Pow2(k), -(k as int)) == 1.0
  {
    if k > 0 {
      ScaledOne(k - 1);
      ScaledTwice(Pow2(k - 1), -(k as int));
    }
  }

  /** An exponent field of half its range less one, and no mantissa, is the number one. */
  lemma OneIs(w: nat, m: nat)
    requires w > 1
    ensures FloatOf(0, Pow2(w - 1) - 1, 0, w, m) == Some(1.0)
  {
    assert Pow2(w) == 2 * Pow2(w - 1) && Pow2(w - 1) == 2 * Pow2(w - 2);
    ScaledOne(m);
  }

  /** Half, single and double precision have these fields. */
  lemma Formats(ieee: bytes, w: nat, m: nat)
    requires (|ieee|, w, m) in {(2, 5, 10), (4, 8, 23), (8, 11, 52)}
    ensures FloatValue(ieee) == FloatBits(FromBigEndian(ieee), w, m)
  {
  }
}
