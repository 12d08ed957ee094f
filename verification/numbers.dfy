/** Decimal text and numbers: Python's `int()` and `float()` applied to a
    string, and the digit rendering of `str(n)`. */
module Numbers {
  import opened Maybe
  import opened Text

  function DigitValue(c: char): nat
    requires IsDigit(c)
  {
    c as int - '0' as int
  }

  function DigitChar(d: nat): (c: char)
    requires d < 10
    ensures IsDigit(c) && DigitValue(c) == d
  {
    ('0' as int + d) as char
  }

  /** The value of a run of decimal digits, most significant first. */
  function DigitsValue(s: string): nat
    requires AllDigits(s)
    decreases |s|
  {
    if |s| == 0 then 0 else DigitsValue(s[..|s| - 1]) * 10 + DigitValue(s[|s| - 1])
  }

  function Pow10(n: nat): (r: nat)
    ensures r >= 1
  {
    if n == 0 then 1 else 10 * Pow10(n - 1)
  }

  /** `str(n)` for a natural number: decimal digits without a leading zero. */
  function NatToString(n: nat): (r: string)
    ensures IsDigits(r)
    ensures DigitsValue(r) == n
    ensures r[0] == '0' ==> n == 0
  {
    if n < 10 then [DigitChar(n)]
    else
      var p := NatToString(n / 10);
      var r := p + [DigitChar(n % 10)];
      assert r[..|r| - 1] == p;
      r
  }

  /** Python's `int(s)` on a string; `None` where it raises `ValueError`.
      `int` strips surrounding whitespace and accepts one optional sign. Digit
      separators `_`, which Python also accepts, read as `None` here. */
  function ParseInt(s: string): (r: Option<int>)
    ensures r.Some? ==> Strip(s) != [] && forall i :: 1 <= i < |Strip(s)| ==> IsDigit(Strip(s)[i])
    ensures IsDigits(Strip(s)) ==> r == Some(DigitsValue(Strip(s)) as int)
  {
    ParseSigned(Strip(s))
  }

  /** `int()` of text with no surrounding whitespace: an optional sign and
      then digits. */
  function ParseSigned(t: string): (r: Option<int>)
    ensures r.Some? ==> t != [] && forall i :: 1 <= i < |t| ==> IsDigit(t[i])
    ensures IsDigits(t) ==> r == Some(DigitsValue(t) as int)
  {
    if |t| > 0 && (t[0] == '+' || t[0] == '-') then
      var ds := t[1..];
      if IsDigits(ds) then
        SignedDigits(t);
        Some(if t[0] == '-' then -(DigitsValue(ds) as int) else DigitsValue(ds) as int)
      else None
    else if IsDigits(t) then Some(DigitsValue(t) as int)
    else None
  }

  /** A sign followed by digits has digits after its first character. */
  lemma SignedDigits(t: string)
    requires |t| > 0 && IsDigits(t[1..])
    ensures forall i :: 1 <= i < |t| ==> IsDigit(t[i])
  {
    forall i | 1 <= i < |t|
      ensures IsDigit(t[i])
    {
      assert t[i] == t[1..][i - 1];
    }
  }

  /** The value of `whole.frac`: the fraction digits count tenths, hundredths
      and so on. */
  function PointValue(whole: string, frac: string): real
    requires AllDigits(whole) && AllDigits(frac)
  {
    DigitsValue(whole) as real + DigitsValue(frac) as real / Pow10(|frac|) as real
  }

  /** Unsigned decimal notation: digits with at most one point and at least
      one digit overall. */
  function ParseUnsignedDecimal(b: string): Option<real> {
    if '.' in b then
      var k := FirstIndexOf(b, '.');
      var whole := b[..k];
      var frac := b[k + 1..];
      if AllDigits(whole) && AllDigits(frac) && |whole| + |frac| > 0 then
        Some(PointValue(whole, frac))
      else None
    else if IsDigits(b) then Some(DigitsValue(b) as real)
    else None
  }

  /** Python's `float(s)` on a string, for plain decimal notation; `None`
      where it raises `ValueError`. Exponents, "inf", "nan" and digit
      separators `_`, which Python also accepts, read as `None` here. */
  function ParseDecimal(s: string): Option<real> {
    var t := Strip(s);
    if |t| > 0 && (t[0] == '+' || t[0] == '-') then
      match ParseUnsignedDecimal(t[1..])
      case Some(x) => Some(if t[0] == '-' then -x else x)
      case None => None
    else ParseUnsignedDecimal(t)
  }

  /** A character other than a digit, a sign or a point makes the plain
      decimal notation fail. Python's `float()` agrees on every character but
      the letters of an exponent or of "inf"/"nan" and `_`, which this model
      does not read (see `ParseDecimal`). */
  lemma DecimalRejects(s: string, i: nat)
    requires i < |Strip(s)|
    requires !IsDigit(Strip(s)[i]) && Strip(s)[i] !in "+-."
    ensures ParseDecimal(s) == None
  {
    var t := Strip(s);
    if |t| > 0 && (t[0] == '+' || t[0] == '-') {
      assert i > 0;
      assert t[1..][i - 1] == t[i];
      UnsignedRejects(t[1..], i - 1);
    } else {
      UnsignedRejects(t, i);
    }
  }

  /** The unsigned notation fails on any character but a digit or a point. */
  lemma UnsignedRejects(b: string, j: nat)
    requires j < |b| && !IsDigit(b[j]) && b[j] != '.'
    ensures ParseUnsignedDecimal(b) == None
  {
    if '.' in b {
      var k := FirstIndexOf(b, '.');
      if j < k {
        assert b[..k][j] == b[j];
      } else {
        assert b[k + 1..][j - k - 1] == b[j];
      }
    }
  }

  /** Python's `int(x)` on a float: truncation toward zero. */
  function Trunc(x: real): (r: int)
    ensures 0.0 <= x ==> r as real <= x < r as real + 1.0
    ensures x < 0.0 ==> r as real - 1.0 < x <= r as real
  {
    if x >= 0.0 then x.Floor else -((-x).Floor)
  }

  /** `int(s)` reads back what `str(n)` wrote. */
  lemma ParseIntOfNat(n: nat)
    ensures ParseInt(NatToString(n)) == Some(n)
  {
    var r := NatToString(n);
    assert IsDigit(r[0]) && IsDigit(r[|r| - 1]);
    StripUnchanged(r);
    assert !(r[0] == '+' || r[0] == '-');
    assert ParseSigned(r) == Some(DigitsValue(r) as int);
  }

  /** The first `c` in `a + b`, when `a` holds none, is the first `c` in `b`. */
  lemma {:induction false} FirstIndexAfter(a: string, b: string, c: char)
    requires c in b
    requires forall i :: 0 <= i < |a| ==> a[i] != c
    ensures c in a + b
    ensures FirstIndexOf(a + b, c) == |a| + FirstIndexOf(b, c)
    decreases |a|
  {
    assert (a + b)[|a| + FirstIndexOf(b, c)] == c;
    if |a| > 0 {
      assert (a + b)[1..] == a[1..] + b;
      FirstIndexAfter(a[1..], b, c);
    } else {
      assert a + b == b;
    }
  }

  lemma PointSplit(ds: string, c: char)
    requires IsDigits(ds) && IsDigit(c)
    ensures '.' in ds + "." + [c]
    ensures FirstIndexOf(ds + "." + [c], '.') == |ds|
    ensures (ds + "." + [c])[..|ds|] == ds
    ensures (ds + "." + [c])[|ds| + 1..] == [c]
  {
    var tail := "." + [c];
    var s := ds + "." + [c];
    assert s == ds + tail;
    assert forall i :: 0 <= i < |ds| ==> ds[i] != '.' by {
      forall i | 0 <= i < |ds|
        ensures ds[i] != '.'
      {
        assert IsDigit(ds[i]);
      }
    }
    FirstIndexAfter(ds, tail, '.');
    assert FirstIndexOf(tail, '.') == 0;
    assert s[..|ds|] == ds;
    assert s[|ds| + 1..] == [c];
  }

  /** Notation with a point reads as the whole part plus the scaled fraction. */
  lemma UnsignedWithPoint(b: string, whole: string, frac: string)
    requires '.' in b
    requires whole == b[..FirstIndexOf(b, '.')] && frac == b[FirstIndexOf(b, '.') + 1..]
    requires AllDigits(whole) && AllDigits(frac) && |whole| + |frac| > 0
    ensures ParseUnsignedDecimal(b) == Some(PointValue(whole, frac))
  {
  }

  lemma UnsignedTenths(ds: string, c: char)
    requires IsDigits(ds) && IsDigit(c)
    ensures ParseUnsignedDecimal(ds + "." + [c]) == Some(DigitsValue(ds) as real + DigitValue(c) as real / 10.0)
  {
    var s := ds + "." + [c];
    PointSplit(ds, c);
    assert AllDigits([c]);
    UnsignedWithPoint(s, ds, [c]);
    assert DigitsValue([c]) == DigitValue(c) by {
      assert [c][..0] == [];
    }
    assert Pow10(|[c]|) == 10 by {
      assert Pow10(0) == 1;
    }
    assert PointValue(ds, [c]) == DigitsValue(ds) as real + DigitValue(c) as real / 10.0;
  }

  /** `float("<digits>.<d>")` is the exact decimal value. */
  lemma ParseDecimalTenths(ds: string, c: char)
    requires IsDigits(ds) && IsDigit(c)
    ensures ParseDecimal(ds + "." + [c]) == Some(DigitsValue(ds) as real + DigitValue(c) as real / 10.0)
  {
    var s := ds + "." + [c];
    assert s[0] == ds[0] && s[|s| - 1] == c;
    StripUnchanged(s);
    UnsignedDecimal(s);
    UnsignedTenths(ds, c);
  }

  /** Without a sign, `float()` reads the unsigned notation. */
  lemma UnsignedDecimal(s: string)
    requires Strip(s) == s && |s| > 0 && IsDigit(s[0])
    ensures ParseDecimal(s) == ParseUnsignedDecimal(s)
  {
  }
}
