/** `pack754` and `unpack754`: floating-point numbers as bit patterns, with exact real arithmetic. */
module Ieee754 {

  // ---- Powers of two ----

  function Pow2(n: nat): (p: nat)
    ensures p > 0
  {
    if n == 0 then 1 else 2 * Pow2(n - 1)
  }

  lemma {:induction false} Pow2Sum(a: nat, b: nat)
    ensures Pow2(a + b) == Pow2(a) * Pow2(b)
  {
    if a > 0 {
      Pow2Sum(a - 1, b);
    }
  }

  /** Two to the power `k`, for any integer `k`. */
  function Power(k: int): (p: real)
    ensures p > 0.0
    decreases if k < 0 then -k else k
  {
    if k == 0 then 1.0 else if k > 0 then 2.0 * Power(k - 1) else Power(k + 1) / 2.0
  }

  lemma PowerStep(k: int)
    ensures Power(k + 1) == 2.0 * Power(k)
  {
  }

  lemma {:induction false} PowerGrows(a: int, b: int)
    requires a < b
    ensures 2.0 * Power(a) <= Power(b)
    decreases b - a
  {
    PowerStep(a);
    PowerStep(b - 1);
    if a + 1 < b {
      PowerGrows(a, b - 1);
    }
  }

  /** Scaling by a positive factor keeps the order, both ways. */
  lemma ScaleKeepsOrder(a: real, b: real, p: real)
    requires p > 0.0
    ensures a < b <==> a * p < b * p
  {
    if a < b {
      assert (b - a) * p > 0.0;
    } else {
      assert (a - b) * p >= 0.0;
    }
  }

  /** How a product compares with the factor tells how the other factor compares with 0, 1 and 2. */
  lemma ScaleBounds(y: real, p: real, x: real)
    requires p > 0.0 && y * p == x
    ensures y < 0.0 <==> x < 0.0
    ensures y < 1.0 <==> x < p
    ensures y < 2.0 <==> x < 2.0 * p
  {
    ScaleKeepsOrder(y, 0.0, p);
    ScaleKeepsOrder(y, 1.0, p);
    ScaleKeepsOrder(y, 2.0, p);
    assert 2.0 * p == p + p;
  }

  lemma Quotient(x: real, p: real) returns (y: real)
    requires p > 0.0
    ensures y == x / p && y * p == x
  {
    y := x / p;
  }

  // ---- Formats ----

  /** A valid split of a word: a sign, an exponent of `expbits` bits, and the rest for the significand. */
  predicate ValidFormat(bits: nat, expbits: nat) {
    1 <= expbits <= 31 && expbits < bits <= 64
  }

  function SignificandBits(bits: nat, expbits: nat): nat
    requires ValidFormat(bits, expbits)
  {
    bits - expbits - 1
  }

  function Bias(expbits: nat): nat
    requires expbits > 0
  {
    Pow2(expbits - 1) - 1
  }

  /** What the fraction is multiplied by: 2^s + 0.5, rounded to a `float` of 24 significant bits. */
  function Multiplier(s: nat): (m: real)
    ensures Pow2(s) as real <= m <= Pow2(s) as real + 0.5
  {
    if s < 23 then Pow2(s) as real + 0.5 else Pow2(s) as real
  }

  // ---- Normal form ----

  /** The exponent of a positive number: the `k` for which `x` lies between 2^k and 2^(k+1). */
  function Exponent(x: real): (k: int)
    requires x > 0.0
    ensures Power(k) <= x < 2.0 * Power(k)
    decreases if x >= 1.0 then x.Floor else 1 + (1.0 / x).Floor
  {
    if x >= 2.0 then
      HalvingShrinks(x);
      PowerStep(Exponent(x / 2.0));
      Exponent(x / 2.0) + 1
    else if x < 1.0 then
      DoublingShrinks(x);
      PowerStep(Exponent(x * 2.0) - 1);
      Exponent(x * 2.0) - 1
    else 0
  }

  lemma HalvingShrinks(x: real)
    requires x >= 2.0
    ensures x / 2.0 >= 1.0 && (x / 2.0).Floor < x.Floor
  {
  }

  lemma DoublingShrinks(x: real)
    requires 0.0 < x < 1.0
    ensures x * 2.0 < 1.0 ==> (1.0 / (x * 2.0)).Floor < (1.0 / x).Floor
    ensures (1.0 / x).Floor >= 1 && (x * 2.0).Floor <= 1
  {
    var r := 1.0 / x;
    assert r * x == 1.0;
    assert r > 1.0;
    assert 1.0 / (x * 2.0) == r / 2.0;
    if x * 2.0 < 1.0 {
      assert r > 2.0;
    }
  }

  /** The exponent is the only one that fits. */
  lemma ExponentUnique(x: real, k: int)
    requires x > 0.0 && Power(k) <= x < 2.0 * Power(k)
    ensures Exponent(x) == k
  {
    var e := Exponent(x);
    if e < k {
      PowerGrows(e, k);
    } else if k < e {
      PowerGrows(k, e);
    }
  }

  /** The number in units of `p`. */
  function Scaled(x: real, p: real): (y: real)
    requires p > 0.0 && p <= x < 2.0 * p
    ensures 1.0 <= y < 2.0 && y * p == x
  {
    ScaledDown(x, p);
    x / p
  }

  lemma ScaledDown(x: real, p: real)
    requires p > 0.0 && p <= x < 2.0 * p
    ensures 1.0 <= x / p < 2.0 && x / p * p == x
  {
    var y := Quotient(x, p);
    ScaleBounds(y, p, x);
  }

  /** The number scaled into [1, 2). */
  function Mantissa(x: real): (y: real)
    requires x > 0.0
    ensures 1.0 <= y < 2.0
  {
    Scaled(x, Power(Exponent(x)))
  }

  lemma MantissaForm(x: real)
    requires x > 0.0
    ensures Mantissa(x) * Power(Exponent(x)) == x
  {
    hide Power, Exponent, Scaled;
    var p := Power(Exponent(x));
    var y := Scaled(x, p);
    assert Mantissa(x) == y;
  }

  lemma MantissaUnique(x: real, y: real, k: int)
    requires x > 0.0 && 1.0 <= y < 2.0 && y * Power(k) == x
    ensures Exponent(x) == k && Mantissa(x) == y
  {
    hide Mantissa, Exponent, Power;
    var p := Power(k);
    ScaleBounds(y, p, x);
    ExponentUnique(x, k);
    MantissaForm(x);
    ScaleKeepsOrder(Mantissa(x), y, p);
    ScaleKeepsOrder(y, Mantissa(x), p);
  }

  // ---- Packing ----

  /** `exp << s | significand`; a significand that has grown to 2^s meets the lowest bit of the exponent. */
  function Joined(exp: nat, significand: nat, s: nat): nat
    requires significand <= Pow2(s)
  {
    exp * Pow2(s) + if significand == Pow2(s) && exp % 2 == 1 then 0 else significand
  }

  function Magnitude(f: real): real {
    if f < 0.0 then -f else f
  }

  /** The exponent of the number fits into its field. */
  predicate InRange(f: real, expbits: nat)
    requires expbits > 0
  {
    f == 0.0 || 0 <= Exponent(Magnitude(f)) + Bias(expbits) < Pow2(expbits)
  }

  /** The fraction of a mantissa, multiplied and cut off. */
  function Significand(y: real, s: nat): (n: nat)
    requires 1.0 <= y < 2.0
    ensures n <= Pow2(s)
    ensures n as real <= (y - 1.0) * Multiplier(s) < n as real + 1.0
  {
    SignificandBounds(y, s);
    CutOff(y - 1.0, s)
  }

  /** `fnorm * ((1LL<<significandbits) + 0.5f)`, cut off to an integer. */
  function CutOff(fnorm: real, s: nat): int {
    (fnorm * Multiplier(s)).Floor
  }

  lemma SignificandBounds(y: real, s: nat)
    requires 1.0 <= y < 2.0
    ensures 0.0 <= (y - 1.0) * Multiplier(s) < Pow2(s) as real + 0.5
    ensures 0 <= CutOff(y - 1.0, s) <= Pow2(s)
  {
    var m := Multiplier(s);
    ScaleBounds(y - 1.0, m, (y - 1.0) * m);
  }

  /** The bit pattern of a number. */
  function Packed(f: real, bits: nat, expbits: nat): nat
    requires ValidFormat(bits, expbits) && InRange(f, expbits)
  {
    if f == 0.0 then 0
    else
      var s := SignificandBits(bits, expbits);
      var x := Magnitude(f);
      (if f < 0.0 then Pow2(bits - 1) else 0)
      + Joined(Exponent(x) + Bias(expbits), Significand(Mantissa(x), s), s)
  }

  method Pack754(f: real, bits: nat, expbits: nat) returns (word: nat)
    requires ValidFormat(bits, expbits) && InRange(f, expbits)
    ensures word == Packed(f, bits, expbits)
  {
    hide Exponent, Mantissa, Power, CutOff, Joined, Pow2;
    var significandbits := bits - expbits - 1;
    if f == 0.0 {
      return 0;
    }
    var sign, fnorm := 0, f;
    if f < 0.0 {
      sign, fnorm := 1, -f;
    }
    var shift;
    fnorm, shift := Normalize(fnorm);
    SignificandBounds(fnorm, significandbits);
    fnorm := fnorm - 1.0;
    var significand := CutOff(fnorm, significandbits);
    var exp := shift + (Pow2(expbits - 1) - 1);
    word := (if sign == 1 then Pow2(bits - 1) else 0) + Joined(exp, significand, significandbits);
  }

  /** The loops that normalize: they end because the number, or its reciprocal, loses its integer part. */
  method Normalize(x: real) returns (fnorm: real, shift: int)
    requires x > 0.0
    ensures fnorm == Mantissa(x) && shift == Exponent(x)
  {
    hide Exponent, Mantissa, Power;
    fnorm, shift := x, 0;
    PowerZero();
    while fnorm >= 2.0
      invariant fnorm > 0.0 && fnorm * Power(shift) == x
      decreases fnorm.Floor
    {
      HalvingShrinks(fnorm);
      ShiftUp(fnorm, shift);
      fnorm := fnorm / 2.0;
      shift := shift + 1;
    }
    while fnorm < 1.0
      invariant 0.0 < fnorm < 2.0 && fnorm * Power(shift) == x
      decreases if fnorm < 1.0 then (1.0 / fnorm).Floor else 0
    {
      DoublingShrinks(fnorm);
      ShiftDown(fnorm, shift);
      fnorm := fnorm * 2.0;
      shift := shift - 1;
    }
    MantissaUnique(x, fnorm, shift);
  }

  lemma PowerZero()
    ensures Power(0) == 1.0
  {
  }

  lemma ShiftUp(y: real, k: int)
    ensures y / 2.0 * Power(k + 1) == y * Power(k)
  {
    PowerStep(k);
  }

  lemma ShiftDown(y: real, k: int)
    ensures y * 2.0 * Power(k - 1) == y * Power(k)
  {
    PowerStep(k - 1);
  }

  // ---- Unpacking ----

  /** The exponent field. */
  function ExponentField(i: nat, bits: nat, expbits: nat): (e: nat)
    requires ValidFormat(bits, expbits)
    ensures e < Pow2(expbits)
  {
    i / Pow2(SignificandBits(bits, expbits)) % Pow2(expbits)
  }

  /** The significand field. */
  function SignificandField(i: nat, bits: nat, expbits: nat): (n: nat)
    requires ValidFormat(bits, expbits)
    ensures n < Pow2(SignificandBits(bits, expbits))
  {
    i % Pow2(SignificandBits(bits, expbits))
  }

  predicate SignBit(i: nat, bits: nat)
    requires bits > 0
  {
    i / Pow2(bits - 1) % 2 == 1
  }

  /** One plus the fraction that a significand stands for. */
  function Fraction(n: nat, s: nat): (y: real)
    requires n < Pow2(s)
    ensures 1.0 <= y < 2.0
  {
    FractionBounds(n, s);
    1.0 + n as real / Pow2(s) as real
  }

  lemma FractionBounds(n: nat, s: nat)
    requires n < Pow2(s)
    ensures 0.0 <= n as real / Pow2(s) as real < 1.0
  {
    var p := Pow2(s) as real;
    var r := Quotient(n as real, p);
    ScaleBounds(r, p, n as real);
  }

  /** The magnitude of the number that a pattern other than 0 stands for. */
  function UnpackedMagnitude(i: nat, bits: nat, expbits: nat): (x: real)
    requires ValidFormat(bits, expbits)
  {
    Fraction(SignificandField(i, bits, expbits), SignificandBits(bits, expbits))
    * Power(ExponentField(i, bits, expbits) - Bias(expbits))
  }

  /** The number that a pattern stands for; normal numbers only, and 0. */
  function Unpacked(i: nat, bits: nat, expbits: nat): real
    requires ValidFormat(bits, expbits)
  {
    if i == 0 then 0.0
    else if SignBit(i, bits) then -UnpackedMagnitude(i, bits, expbits)
    else UnpackedMagnitude(i, bits, expbits)
  }

  method Unpack754(i: nat, bits: nat, expbits: nat) returns (result: real)
    requires ValidFormat(bits, expbits) && i < Pow2(bits)
    ensures result == Unpacked(i, bits, expbits)
  {
    hide Power, Pow2;
    var significandbits := bits - expbits - 1;
    if i == 0 {
      return 0.0;
    }
    result := (i % Pow2(significandbits)) as real;
    result := result / Pow2(significandbits) as real;
    result := result + 1.0;
    var bias := Pow2(expbits - 1) - 1;
    var shift := i / Pow2(significandbits) % Pow2(expbits) - bias;
    result := Shifted(result, shift);
    if i / Pow2(bits - 1) % 2 == 1 {
      result := result * -1.0;
    } else {
      result := result * 1.0;
    }
  }

  /** The loops that deal with the exponent. */
  method Shifted(y: real, exponent: int) returns (result: real)
    ensures result == y * Power(exponent)
  {
    hide Power;
    result := y;
    var shift := exponent;
    ghost var x := y * Power(exponent);
    while shift > 0
      invariant result * Power(shift) == x
    {
      ShiftDown(result, shift);
      result := result * 2.0;
      shift := shift - 1;
    }
    while shift < 0
      invariant shift <= 0 && result * Power(shift) == x
    {
      ShiftUp(result, shift);
      result := result / 2.0;
      shift := shift + 1;
    }
    PowerZero();
  }

  // ---- Patterns and their fields ----

  lemma FieldsOfPattern(i: nat, bits: nat, expbits: nat)
    requires ValidFormat(bits, expbits) && i < Pow2(bits)
    ensures i == (if SignBit(i, bits) then Pow2(bits - 1) else 0)
                 + ExponentField(i, bits, expbits) * Pow2(SignificandBits(bits, expbits))
                 + SignificandField(i, bits, expbits)
  {
    hide Pow2;
    var s := SignificandBits(bits, expbits);
    WordSizes(bits, expbits);
    var p, e := Pow2(s), Pow2(expbits);
    var q := i / p;
    DivideTwice(i, p, e);
    ScaleSum(q / e, e, q % e, p);
    HighBit(i, Pow2(bits - 1));
  }

  lemma WordSizes(bits: nat, expbits: nat)
    requires ValidFormat(bits, expbits)
    ensures Pow2(bits) == 2 * Pow2(bits - 1)
    ensures Pow2(bits - 1) == Pow2(SignificandBits(bits, expbits)) * Pow2(expbits)
    ensures Pow2(expbits) % 2 == 0
  {
    hide Pow2;
    Pow2Step(bits - 1);
    Pow2Step(expbits - 1);
    Pow2Sum(SignificandBits(bits, expbits), expbits);
  }

  lemma Pow2Step(n: nat)
    ensures Pow2(n + 1) == 2 * Pow2(n)
  {
  }

  lemma DivideTwice(i: nat, p: nat, e: nat)
    requires p > 0 && e > 0
    ensures p * e > 0 && i / p / e == i / (p * e)
    ensures i == i / p * p + i % p && i / p == i / p / e * e + i / p % e
  {
    DivideDefined(i, p);
    var q, r := i / p, i % p;
    DivideDefined(q, e);
    var t, u := q / e, q % e;
    ScaleSum(t, e, u, p);
    LowPart(u, r, p, e);
    DivideUnique(i, p * e, t, u * p + r);
  }

  lemma DivideUnique(i: nat, d: nat, q: nat, r: nat)
    requires i == q * d + r && r < d
    ensures i / d == q && i % d == r
  {
    DivideDefined(i, d);
    SameQuotient(d, q, r, i / d, i % d);
  }

  lemma Distribute(a: nat, b: nat, p: nat)
    ensures (a + b) * p == a * p + b * p && b * p >= 0
  {
  }

  lemma Ascend(a: nat, b: nat, p: nat)
    requires a < b
    ensures a * p + p <= b * p
  {
    Distribute(a, b - a, p);
    Distribute(1, b - a - 1, p);
  }

  lemma DivideDefined(i: nat, d: nat)
    requires d > 0
    ensures i == i / d * d + i % d && 0 <= i % d < d && i / d >= 0
  {
  }

  lemma SameQuotient(d: nat, q: nat, r: nat, q': nat, r': nat)
    requires q * d + r == q' * d + r' && r < d && r' < d
    ensures q == q' && r == r'
  {
    if q' > q {
      Ascend(q, q', d);
    } else if q' < q {
      Ascend(q', q, d);
    }
  }

  lemma ScaleSum(t: nat, e: nat, u: nat, p: nat)
    ensures (t * e + u) * p == t * (p * e) + u * p
  {
  }

  lemma HighBit(i: nat, h: nat)
    requires h > 0 && i < 2 * h
    ensures i / h == if i < h then 0 else 1
  {
    DivideUnique(i, h, if i < h then 0 else 1, if i < h then i else i - h);
  }

  /** The fields of a word that is put together from fields. */
  lemma FieldsOfWord(sign: bool, e: nat, n: nat, bits: nat, expbits: nat)
    requires ValidFormat(bits, expbits) && e < Pow2(expbits) && n < Pow2(SignificandBits(bits, expbits))
    ensures var i := (if sign then Pow2(bits - 1) else 0) + e * Pow2(SignificandBits(bits, expbits)) + n;
            i < Pow2(bits) && SignBit(i, bits) == sign && ExponentField(i, bits, expbits) == e &&
            SignificandField(i, bits, expbits) == n && (i == 0 <==> !sign && e == 0 && n == 0)
  {
    hide Pow2;
    WordSizes(bits, expbits);
    var p, q, t := Pow2(SignificandBits(bits, expbits)), Pow2(expbits), if sign then 1 else 0;
    LowPart(e, n, p, q);
    ScaleSum(t, q, e, p);
    DivideUnique(t * (p * q) + e * p + n, p, t * q + e, n);
    DivideUnique(t * q + e, q, t, e);
    HighBit(t * (p * q) + e * p + n, p * q);
  }

  lemma LowPart(e: nat, n: nat, p: nat, q: nat)
    requires e < q && n < p
    ensures e * p + n < p * q && (e * p + n == 0 <==> e == 0 && n == 0)
  {
    assert e * p <= (q - 1) * p;
    assert e > 0 ==> e * p >= p;
  }

  // ---- Packing undoes unpacking ----

  lemma SignificandReadsBack(n: nat, s: nat)
    requires n < Pow2(s)
    ensures Significand(Fraction(n, s), s) == n
  {
    hide Multiplier, Pow2;
    var p, m := Pow2(s) as real, Multiplier(s);
    var r := Quotient(n as real, p);
    FractionBounds(n, s);
    var rest := r * (m - p);
    assert r * m == n as real + rest;
    assert 0.0 <= rest <= 0.5 by {
      SmallProduct(r, m - p);
    }
  }

  lemma SmallProduct(r: real, d: real)
    requires 0.0 <= r < 1.0 && 0.0 <= d <= 0.5
    ensures 0.0 <= r * d <= 0.5
  {
    if d > 0.0 {
      ScaleBounds(r, d, r * d);
    }
  }

  lemma MagnitudeForm(i: nat, bits: nat, expbits: nat)
    requires ValidFormat(bits, expbits)
    ensures var x := UnpackedMagnitude(i, bits, expbits);
            x > 0.0 && Exponent(x) == ExponentField(i, bits, expbits) - Bias(expbits) &&
            Mantissa(x) == Fraction(SignificandField(i, bits, expbits), SignificandBits(bits, expbits))
  {
    hide Exponent, Mantissa, Power, Fraction, ExponentField, SignificandField, Pow2;
    var y := Fraction(SignificandField(i, bits, expbits), SignificandBits(bits, expbits));
    ScaledForm(y, ExponentField(i, bits, expbits) - Bias(expbits));
  }

  lemma ScaledForm(y: real, k: int)
    requires 1.0 <= y < 2.0
    ensures y * Power(k) > 0.0 && Exponent(y * Power(k)) == k && Mantissa(y * Power(k)) == y
  {
    hide Exponent, Mantissa, Power;
    ScaleBounds(y, Power(k), y * Power(k));
    MantissaUnique(y * Power(k), y, k);
  }

  /** Every bit pattern survives being unpacked and packed. */
  lemma PackUndoesUnpack(i: nat, bits: nat, expbits: nat)
    requires ValidFormat(bits, expbits) && i < Pow2(bits)
    ensures InRange(Unpacked(i, bits, expbits), expbits)
    ensures Packed(Unpacked(i, bits, expbits), bits, expbits) == i
  {
    hide Exponent, Mantissa, Power, Fraction, Significand, Pow2, UnpackedMagnitude, ExponentField, SignificandField,
      SignBit;
    if i != 0 {
      MagnitudeForm(i, bits, expbits);
      SignificandReadsBack(SignificandField(i, bits, expbits), SignificandBits(bits, expbits));
      FieldsOfPattern(i, bits, expbits);
    }
  }

  // ---- Order ----

  lemma FractionGrows(a: nat, b: nat, s: nat)
    requires a < b < Pow2(s)
    ensures Fraction(a, s) < Fraction(b, s)
  {
    hide Pow2;
    var p := Pow2(s) as real;
    var x := Quotient(a as real, p);
    var y := Quotient(b as real, p);
    ScaleKeepsOrder(x, y, p);
  }

  /** Patterns without a sign bit are ordered like their fields, the exponent first. */
  lemma FieldsOrder(i: nat, j: nat, bits: nat, expbits: nat)
    requires ValidFormat(bits, expbits) && i < j < Pow2(bits - 1)
    ensures !SignBit(i, bits) && !SignBit(j, bits)
    ensures var e, e' := ExponentField(i, bits, expbits), ExponentField(j, bits, expbits);
            var n, n' := SignificandField(i, bits, expbits), SignificandField(j, bits, expbits);
            e < e' || (e == e' && n < n')
  {
    hide Pow2, ExponentField, SignificandField;
    WordSizes(bits, expbits);
    HighBit(i, Pow2(bits - 1));
    HighBit(j, Pow2(bits - 1));
    FieldsOfPattern(i, bits, expbits);
    FieldsOfPattern(j, bits, expbits);
    var e, e' := ExponentField(i, bits, expbits), ExponentField(j, bits, expbits);
    if e > e' {
      Ascend(e', e, Pow2(SignificandBits(bits, expbits)));
    }
  }

  /** The value of an exponent and a significand grows with them, the exponent first. */
  lemma ValueOrder(x: real, k: int, y: real, l: int)
    requires 1.0 <= x < 2.0 && 1.0 <= y < 2.0
    requires k < l || (k == l && x < y)
    ensures x * Power(k) < y * Power(l)
  {
    hide Power;
    var a, b := Power(k), Power(l);
    if k == l {
      ScaleKeepsOrder(x, y, a);
    } else {
      PowerGrows(k, l);
      ScaleBounds(x, a, x * a);
      ScaleBounds(y, b, y * b);
    }
  }

  /** Among the patterns without a sign bit, greater patterns stand for greater numbers. */
  lemma UnpackIncreases(i: nat, j: nat, bits: nat, expbits: nat)
    requires ValidFormat(bits, expbits) && i < j < Pow2(bits - 1)
    ensures Unpacked(i, bits, expbits) < Unpacked(j, bits, expbits)
  {
    hide Exponent, Mantissa, Power, Fraction, Pow2, ExponentField, SignificandField, SignBit;
    FieldsOrder(i, j, bits, expbits);
    if i == 0 {
      MagnitudeForm(j, bits, expbits);
    } else {
      var s := SignificandBits(bits, expbits);
      var e, n := ExponentField(i, bits, expbits), SignificandField(i, bits, expbits);
      var e', n' := ExponentField(j, bits, expbits), SignificandField(j, bits, expbits);
      if e == e' {
        FractionGrows(n, n', s);
      }
      ValueOrder(Fraction(n, s), e - Bias(expbits), Fraction(n', s), e' - Bias(expbits));
    }
  }

  // ---- Accuracy ----

  /** The fraction is so close to 1 that the significand gets one bit too many. */
  predicate Overflows(f: real, s: nat)
    requires f != 0.0
  {
    CutOff(Mantissa(Magnitude(f)) - 1.0, s) == Pow2(s)
  }

  /** The number shares its pattern with 0. */
  predicate ReadsAsZero(f: real, s: nat, expbits: nat)
    requires f != 0.0 && expbits > 0
  {
    f > 0.0 && Exponent(f) + Bias(expbits) == 0 && CutOff(Mantissa(f) - 1.0, s) == 0
  }

  /** One unit in the last place of a number. */
  function Ulp(f: real, s: nat): real
    requires f != 0.0
  {
    Power(Exponent(Magnitude(f))) / Pow2(s) as real
  }

  /**
   * Packing loses less than one unit in the last place, with two exceptions. When the significand overflows and the
   * exponent is odd, the overflowing bit is lost in the exponent instead of being added to it; the fraction is gone.
   * And the smallest positive numbers share their pattern with 0.
   */
  lemma PackAccuracy(f: real, bits: nat, expbits: nat)
    requires ValidFormat(bits, expbits) && InRange(f, expbits) && f != 0.0
    ensures var s := SignificandBits(bits, expbits);
            Within(Unpacked(Packed(f, bits, expbits), bits, expbits) - f, Ulp(f, s)) <==>
            !(s > 0 && Overflows(f, s) && (Exponent(Magnitude(f)) + Bias(expbits)) % 2 == 1)
            && !ReadsAsZero(f, s, expbits)
  {
    hide Exponent, Mantissa, Power, Pow2, CutOff, Bias, Unpacked, Packed, Within, IsRead, ReadsAsZero, Overflows,
      Significand;
    var s, x := SignificandBits(bits, expbits), Magnitude(f);
    var y, k := Mantissa(x), Exponent(x);
    var n, exp := Significand(y, s), k + Bias(expbits);
    var zero, stays := ReadsAsZero(f, s, expbits), !(n == Pow2(s) && exp % 2 == 0);
    RoundingError(y, s);
    OverflowsFully(f, s);
    var c := UnpackedOfPacked(f, bits, expbits, n, exp, zero, stays);
    var u := c * Power(k);
    SignedError(f, x, u, Unpacked(Packed(f, bits, expbits), bits, expbits), Ulp(f, s));
    var ulp := Quotient(Power(k), Pow2(s) as real);
    MantissaForm(x);
    ErrorOfMagnitude(x, y, Power(k), ulp, c, u, n, s, stays, zero);
  }

  lemma OverflowsFully(f: real, s: nat)
    requires f != 0.0
    ensures Overflows(f, s) <==> Significand(Mantissa(Magnitude(f)), s) == Pow2(s)
  {
    hide Mantissa, CutOff, Pow2;
  }

  lemma SignedError(f: real, x: real, u: real, back: real, bound: real)
    requires x == Magnitude(f) && back == if f < 0.0 then -u else u
    ensures Within(back - f, bound) <==> Within(u - x, bound)
  {
  }

  lemma ErrorOfMagnitude(
    x: real, y: real, q: real, ulp: real, c: real, u: real, n: nat, s: nat, stays: bool, zero: bool)
    requires 1.0 <= y < 2.0 && n <= Pow2(s) && q > 0.0
    requires x == y * q && u == c * q && ulp * Pow2(s) as real == q
    requires n as real - 0.5 <= (y - 1.0) * Pow2(s) as real < n as real + 1.0
    requires IsRead(c, n, s, stays, zero)
    ensures Within(u - x, ulp) <==> !(s > 0 && n == Pow2(s) && stays) && !zero
  {
    hide Pow2, IsRead, Within;
    var p, e := Pow2(s) as real, u - x;
    var w := c * p - y * p;
    DifferenceScaled(c, y, q);
    DifferenceScaled(c, y, p);
    ErrorInUnits(c - y, q, p, ulp, w, e);
    ErrorOf(c, y, w, n, s, stays, zero);
  }

  /** What comes back of a number, in units of its power of two. */
  predicate IsRead(c: real, n: nat, s: nat, stays: bool, zero: bool) {
    if zero then c == 0.0 && n < Pow2(s)
    else if n < Pow2(s) then (c - 1.0) * Pow2(s) as real == n as real
    else c == if stays then 1.0 else 2.0
  }

  /** An overflowing significand adds one to an even exponent and nothing to an odd one. */
  lemma JoinedFields(exp: nat, n: nat, s: nat)
    requires n <= Pow2(s)
    ensures Joined(exp, n, s) ==
            (if n == Pow2(s) && exp % 2 == 0 then exp + 1 else exp) * Pow2(s) + if n == Pow2(s) then 0 else n
  {
    hide Pow2;
    Distribute(exp, 1, Pow2(s));
  }

  /** The fields of the pattern of a number. */
  lemma FieldsOfPacked(f: real, bits: nat, expbits: nat, n: nat, exp: nat, stays: bool) returns (i: nat, e: nat, m: nat)
    requires ValidFormat(bits, expbits) && InRange(f, expbits) && f != 0.0
    requires n == Significand(Mantissa(Magnitude(f)), SignificandBits(bits, expbits))
    requires exp == Exponent(Magnitude(f)) + Bias(expbits)
    requires stays == !(n == Pow2(SignificandBits(bits, expbits)) && exp % 2 == 0)
    ensures i == Packed(f, bits, expbits) && SignBit(i, bits) == (f < 0.0)
    ensures ExponentField(i, bits, expbits) == e == if stays then exp else exp + 1
    ensures SignificandField(i, bits, expbits) == m == if n == Pow2(SignificandBits(bits, expbits)) then 0 else n
    ensures i == 0 <==> f > 0.0 && exp == 0 && n == 0
  {
    hide Exponent, Mantissa, Significand, Pow2, Bias, ExponentField, SignificandField, SignBit, Joined;
    var p := Pow2(SignificandBits(bits, expbits));
    WordSizes(bits, expbits);
    e, m := if stays then exp else exp + 1, if n == p then 0 else n;
    JoinedFields(exp, n, SignificandBits(bits, expbits));
    FieldsOfWord(f < 0.0, e, m, bits, expbits);
    i := Packed(f, bits, expbits);
  }

  /** What comes back of a number: `c` times its power of two, with its sign. */
  lemma UnpackedOfPacked(f: real, bits: nat, expbits: nat, n: nat, exp: nat, zero: bool, stays: bool) returns (c: real)
    requires ValidFormat(bits, expbits) && InRange(f, expbits) && f != 0.0
    requires n == Significand(Mantissa(Magnitude(f)), SignificandBits(bits, expbits))
    requires exp == Exponent(Magnitude(f)) + Bias(expbits)
    requires zero == ReadsAsZero(f, SignificandBits(bits, expbits), expbits)
    requires stays == !(n == Pow2(SignificandBits(bits, expbits)) && exp % 2 == 0)
    ensures var u := c * Power(Exponent(Magnitude(f)));
            Unpacked(Packed(f, bits, expbits), bits, expbits) == if f < 0.0 then -u else u
    ensures IsRead(c, n, SignificandBits(bits, expbits), stays, zero)
  {
    hide Exponent, Mantissa, Power, Fraction, Pow2, CutOff, Bias, Packed, ExponentField, SignificandField, SignBit;
    var s, k := SignificandBits(bits, expbits), Exponent(Magnitude(f));
    Pow2AtLeast(s);
    var i, e, m := FieldsOfPacked(f, bits, expbits, n, exp, stays);
    FractionScaled(m, s);
    FractionOfZero(s);
    PowerStep(k);
    c := if zero then 0.0 else if stays then Fraction(m, s) else 2.0;
  }

  lemma FractionOfZero(s: nat)
    ensures Fraction(0, s) == 1.0
  {
  }

  /** By how much the product differs from the exact scaled fraction. */
  lemma RoundingError(y: real, s: nat)
    requires 1.0 <= y < 2.0
    ensures Significand(y, s) as real - 0.5 <= (y - 1.0) * Pow2(s) as real < Significand(y, s) as real + 1.0
  {
    hide Multiplier, Pow2;
    var z, m, p := y - 1.0, Multiplier(s), Pow2(s) as real;
    SmallProduct(z, m - p);
    assert z * m == z * p + z * (m - p);
  }

  lemma FractionScaled(n: nat, s: nat)
    requires n < Pow2(s)
    ensures (Fraction(n, s) - 1.0) * Pow2(s) as real == n as real
  {
    hide Pow2;
    var r := Quotient(n as real, Pow2(s) as real);
  }

  predicate Within(d: real, u: real) {
    -u < d < u
  }

  lemma DifferenceScaled(c: real, y: real, q: real)
    ensures (c - y) * q == c * q - y * q
  {
  }

  /** An error in units of the last place. */
  lemma ErrorInUnits(d: real, q: real, p: real, u: real, w: real, e: real)
    requires q > 0.0 && p > 0.0 && u * p == q && d * p == w && d * q == e
    ensures Within(e, u) <==> Within(w, 1.0)
  {
    ScaleBounds(u, p, q);
    Regroup(d, p, u, q);
    Compare(w, u, e);
  }

  lemma Compare(w: real, u: real, e: real)
    requires u > 0.0 && w * u == e
    ensures Within(e, u) <==> Within(w, 1.0)
  {
    ScaleBounds(w, u, e);
    ScaleBounds(-w, u, -e);
  }

  lemma Regroup(z: real, p: real, u: real, q: real)
    requires u * p == q
    ensures z * p * u == z * q
  {
    assert z * p * u == z * (u * p);
  }

  /** The error of each of the four cases. */
  lemma ErrorOf(c: real, y: real, w: real, n: nat, s: nat, stays: bool, zero: bool)
    requires 1.0 <= y < 2.0 && n <= Pow2(s) && w == c * Pow2(s) as real - y * Pow2(s) as real
    requires n as real - 0.5 <= (y - 1.0) * Pow2(s) as real < n as real + 1.0
    requires IsRead(c, n, s, stays, zero)
    ensures Within(w, 1.0) <==> !(s > 0 && n == Pow2(s) && stays) && !zero
  {
    hide Pow2;
    Pow2AtLeast(s);
    var p := Pow2(s) as real;
    DifferenceScaled(c, 1.0, p);
    DifferenceScaled(y, 1.0, p);
    ScaleBounds(y - 1.0, p, (y - 1.0) * p);
    LinearCases(c * p - p, (y - 1.0) * p, n, Pow2(s), stays, zero);
  }

  lemma LinearCases(a: real, b: real, n: nat, p: nat, stays: bool, zero: bool)
    requires 1 <= p && n <= p && 0.0 <= b < p as real
    requires n as real - 0.5 <= b < n as real + 1.0
    requires zero ==> a == -(p as real) && n < p
    requires !zero && n < p ==> a == n as real
    requires !zero && n == p ==> a == if stays then 0.0 else p as real
    ensures Within(a - b, 1.0) <==> !(p > 1 && n == p && stays) && !zero
  {
  }

  lemma Pow2AtLeast(s: nat)
    ensures Pow2(s) >= 1 && (s > 0 ==> Pow2(s) >= 2) && (s == 0 ==> Pow2(s) == 1)
  {
  }

  /** The pattern of 1.99 in eight bits, four of them for the exponent, is the pattern of 1. */
  lemma OverflowLosesTheFraction()
    ensures InRange(1.99, 4) && InRange(1.0, 4)
    ensures Packed(1.99, 8, 4) == Packed(1.0, 8, 4) == 56
  {
    hide Exponent, Mantissa;
    assert Power(0) == 1.0 && Pow2(3) == 8 && Pow2(4) == 16;
    MantissaUnique(1.99, 1.99, 0);
    MantissaUnique(1.0, 1.0, 0);
    assert CutOff(0.99, 3) == 8 && CutOff(0.0, 3) == 0;
  }

  /** With 23 or more significand bits the significand never overflows. */
  lemma WideSignificands(f: real, s: nat)
    requires f != 0.0 && s >= 23
    ensures !Overflows(f, s)
  {
    hide Pow2;
    var y := Mantissa(Magnitude(f));
    ScaleBounds(y - 1.0, Pow2(s) as real, (y - 1.0) * Pow2(s) as real);
  }

  /** With fewer it does: for the numbers that are all but twice a power of two. */
  lemma NarrowSignificands(f: real, s: nat)
    requires f != 0.0 && s < 23 && Mantissa(Magnitude(f)) >= 2.0 - 0.25 / Pow2(s) as real
    ensures Overflows(f, s)
  {
    hide Mantissa;
    var y, p := Mantissa(Magnitude(f)) - 1.0, Pow2(s) as real;
    var u := 0.25 / p;
    assert u * p == 0.25 && u <= 0.25;
    AlmostAll(y, u, p);
    assert p <= y * (p + 0.5) < p + 1.0;
  }

  lemma AlmostAll(y: real, u: real, p: real)
    requires p >= 1.0 && u * p == 0.25 && 0.0 <= u <= 0.25 && 1.0 - u <= y < 1.0
    ensures p <= y * (p + 0.5) < p + 0.5
  {
    assert (1.0 - u) * (p + 0.5) == p + 0.5 - u * p - 0.5 * u;
    assert y * (p + 0.5) - (1.0 - u) * (p + 0.5) == (y - (1.0 - u)) * (p + 0.5);
    assert (p + 0.5) - y * (p + 0.5) == (1.0 - y) * (p + 0.5);
    NoLoss(y - (1.0 - u), p + 0.5);
    NoLoss(1.0 - y, p + 0.5);
  }

  lemma NoLoss(a: real, b: real)
    requires a >= 0.0 && b > 0.0
    ensures a * b >= 0.0 && (a > 0.0 ==> a * b > 0.0)
  {
  }
}
