/** Python's `float()` applied to a string, for decimal notation: optional
  * surrounding whitespace, an optional sign, digits with at most one point.
  * Values are exact reals; binary floating-point rounding is not modelled. */
module PyFloat {
  import opened Wrappers
  import opened PyStr

  /** `a * b` on floats, exact in the model.  Named so that proofs compare
    * products by their factors. */
  function Mul(a: real, b: real): real {
    a * b
  }

  lemma MulZero(a: real)
    ensures Mul(a, 0.0) == 0.0 && Mul(0.0, a) == 0.0
  {
  }

  lemma MulNonNegative(a: real, b: real)
    requires a >= 0.0 && b >= 0.0
    ensures Mul(a, b) >= 0.0
  {
  }

  lemma MulMonotone(a: real, x: real, y: real)
    requires a >= 0.0 && x <= y
    ensures Mul(a, x) <= Mul(a, y)
  {
    assert a * y - a * x == a * (y - x);
    MulNonNegative(a, y - x);
  }

  function DigitValue(c: char): nat
    requires IsDigit(c)
  {
    c as int - '0' as int
  }

  function Pow10(n: nat): (p: nat)
    ensures p >= 1
  {
    if n == 0 then 1 else 10 * Pow10(n - 1)
  }

  /** The natural number a string of ASCII digits denotes. */
  function DigitsValue(s: string): (v: nat)
    requires AllDigits(s)
    ensures v < Pow10(|s|)
  {
    if s == [] then 0 else DigitsValue(s[..|s| - 1]) * 10 + DigitValue(s[|s| - 1])
  }

  lemma {:induction false} DigitsValueAppend(a: string, b: string)
    requires AllDigits(a) && AllDigits(b)
    ensures AllDigits(a + b)
    ensures DigitsValue(a + b) == DigitsValue(a) * Pow10(|b|) + DigitsValue(b)
    decreases |b|
  {
    assert AllDigits(a + b) by {
      forall i | 0 <= i < |a + b| ensures IsDigit((a + b)[i]) {
        if i < |a| { assert (a + b)[i] == a[i]; } else { assert (a + b)[i] == b[i - |a|]; }
      }
    }
    if b == [] {
      assert a + b == a;
    } else {
      var b' := b[..|b| - 1];
      var d := DigitValue(b[|b| - 1]);
      assert (a + b)[..|a + b| - 1] == a + b';
      assert (a + b)[|a + b| - 1] == b[|b| - 1];
      DigitsValueAppend(a, b');
      var x, p, y := DigitsValue(a), Pow10(|b'|), DigitsValue(b');
      assert DigitsValue(a + b) == (x * p + y) * 10 + d;
      assert DigitsValue(b) == y * 10 + d;
      assert Pow10(|b|) == p * 10;
      ShiftDigit(x, p, y, d);
    }
  }

  lemma ShiftDigit(x: int, p: int, y: int, d: int)
    ensures (x * p + y) * 10 + d == x * (p * 10) + (y * 10 + d)
  {
  }

  function DigitChar(d: nat): (c: char)
    requires d < 10
    ensures IsDigit(c) && DigitValue(c) == d
  {
    ('0' as int + d) as char
  }

  /** The base-ten rendering of n, without leading zeros (`str(n)`). */
  function NatToDigits(n: nat): (s: string)
    ensures |s| >= 1 && AllDigits(s)
    ensures DigitsValue(s) == n
  {
    if n < 10 then [DigitChar(n)]
    else
      var p := NatToDigits(n / 10);
      var s := p + [DigitChar(n % 10)];
      assert s[..|s| - 1] == p;
      s
  }

  /** An unsigned decimal literal: digits with at most one point and at least one digit. */
  function Unsigned(s: string): (r: Option<real>)
  {
    var k := Find(s, ".");
    if k < 0 then
      if s != [] && AllDigits(s) then Some(DigitsValue(s) as real) else None
    else
      var a := s[..k];
      var b := s[k + 1..];
      if AllDigits(a) && AllDigits(b) && |a| + |b| > 0
      then Some(DecimalValue(a, b))
      else None
  }

  /** The value of the literal "a.b". */
  function DecimalValue(a: string, b: string): real
    requires AllDigits(a) && AllDigits(b)
  {
    DigitsValue(a) as real + DigitsValue(b) as real / Pow10(|b|) as real
  }

  /** `float(s)` for a string s; None where Python raises ValueError. */
  function Float(s: string): Option<real>
  {
    var t := Strip(s);
    if t != [] && t[0] == '-' then
      match Unsigned(t[1..])
      case Some(v) => Some(-v)
      case None => None
    else if t != [] && t[0] == '+' then Unsigned(t[1..])
    else Unsigned(t)
  }

  lemma NoPointInDigits(s: string)
    requires AllDigits(s)
    ensures Find(s, ".") < 0
  {
    forall j | 0 <= j && j + 1 <= |s|
      ensures !OccursAt(s, ".", j)
    {
      assert s[j..j + 1][0] == s[j];
    }
  }

  lemma StripDigits(s: string)
    requires s != [] && !IsSpace(s[0]) && !IsSpace(s[|s| - 1])
    ensures Strip(s) == s
  {
  }

  /** A digit string reads as the number it denotes. */
  lemma FloatOfDigits(s: string)
    requires s != [] && AllDigits(s)
    ensures Float(s) == Some(DigitsValue(s) as real)
  {
    StripDigits(s);
    NoPointInDigits(s);
  }

  /** `float(str(n)) == n`. */
  lemma FloatOfNat(n: nat)
    ensures Float(NatToDigits(n)) == Some(n as real)
  {
    FloatOfDigits(NatToDigits(n));
  }

  lemma PointAfterDigits(a: string, b: string)
    requires AllDigits(a)
    ensures Find(a + "." + b, ".") == |a|
  {
    var s := a + "." + b;
    forall j | 0 <= j < |a|
      ensures !OccursAt(s, ".", j)
    {
      assert s[j..j + 1][0] == s[j] == a[j];
    }
    assert s[|a|..|a| + 1] == ".";
    assert OccursAt(s, ".", |a|);
  }

  /** A string without surrounding whitespace or sign reads as an unsigned literal. */
  lemma FloatIsUnsigned(s: string)
    requires s != [] && IsDigit(s[0]) && !IsSpace(s[|s| - 1])
    ensures Float(s) == Unsigned(s)
  {
    StripDigits(s);
  }

  /** "a.b" reads as a + b / 10^|b|. */
  lemma FloatOfDecimal(a: string, b: string)
    requires a != [] && AllDigits(a) && AllDigits(b)
    ensures Float(a + "." + b) == Some(DecimalValue(a, b))
  {
    var s := a + "." + b;
    assert s[0] == a[0];
    assert s[|s| - 1] == if b == [] then '.' else b[|b| - 1];
    PointAfterDigits(a, b);
    assert s[..|a|] == a;
    assert s[|a| + 1..] == b;
    assert Unsigned(s) == Some(DecimalValue(a, b));
    FloatIsUnsigned(s);
  }
}
