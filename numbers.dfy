/** Number parsing as the processors use it: the `KEEP_NUMERIC_PATTERN`
    clean-up (`[^\d\.-]` removed) and `Double.valueOf` on what remains. */
module Numbers {
  import opened Wrappers
  import opened JavaText

  /** The characters `[^\d\.-]` does not match. */
  predicate IsNumericChar(c: char) { IsDigit(c) || c == '.' || c == '-' }

  /** The processors strip a value only when it is not blank. */
  function Cleaned(v: string): string {
    if IsBlank(v) then v else Filter(v, IsNumericChar)
  }

  /** A cleaned non-blank value holds only digits, '.' and '-', and keeps
      every one of them in order. */
  lemma CleanedIsNumeric(v: string)
    requires !IsBlank(v)
    ensures forall i :: 0 <= i < |Cleaned(v)| ==> IsNumericChar(Cleaned(v)[i])
    ensures (forall i :: 0 <= i < |v| ==> IsNumericChar(v[i])) ==> Cleaned(v) == v
  {
    if forall i :: 0 <= i < |v| ==> IsNumericChar(v[i]) {
      FilterKeepsAll(v, IsNumericChar);
    }
  }

  /** Cleaning a cleaned value changes nothing. */
  lemma CleanedIdempotent(v: string)
    ensures Cleaned(Cleaned(v)) == Cleaned(v)
  {
    if !IsBlank(v) {
      FilterIdempotent(v, IsNumericChar);
    }
  }

  /** The index of the first '.', or |s|. */
  function DotIndex(s: string): (k: nat)
    ensures k <= |s| && (k < |s| ==> s[k] == '.')
    ensures forall i :: 0 <= i < k ==> s[i] != '.'
  {
    if |s| == 0 then 0 else if s[0] == '.' then 0 else 1 + DotIndex(s[1..])
  }

  function Pow10(n: nat): (p: nat)
    ensures p >= 1
  {
    if n == 0 then 1 else 10 * Pow10(n - 1)
  }

  /** Unsigned decimal text `\d+(\.\d*)?` or `\.\d+`. */
  predicate IsUnsignedText(s: string) {
    var k := DotIndex(s);
    AllDigits(s[..k]) && (k < |s| ==> AllDigits(s[k + 1..])) && (k > 0 || k + 1 < |s|)
  }

  function UnsignedValue(s: string): (v: real)
    requires IsUnsignedText(s)
    ensures v >= 0.0
  {
    var k := DotIndex(s);
    DigitsValue(s[..k]) as real
      + (if k < |s| then DigitsValue(s[k + 1..]) as real / Pow10(|s| - k - 1) as real else 0.0)
  }

  /** `Double.valueOf` over text that can reach it here: either a blank
      value or a cleaned one, made of digits, '.' and '-'. It accepts an
      optional '-' followed by unsigned decimal text, and nothing else
      (a second '.' or '-', or no digit at all, is a NumberFormatException
      which the processors turn into null). */
  function ParseDecimal(s: string): (r: Option<real>)
    ensures r.Some? <==> (IsUnsignedText(s) || (|s| > 0 && s[0] == '-' && IsUnsignedText(s[1..])))
    ensures r.Some? && |s| > 0 && s[0] == '-' ==> r.value <= 0.0
    ensures r.Some? && (|s| == 0 || s[0] != '-') ==> r.value >= 0.0
  {
    if |s| > 0 && s[0] == '-' then
      if IsUnsignedText(s[1..]) then Some(-UnsignedValue(s[1..])) else None
    else if IsUnsignedText(s) then Some(UnsignedValue(s)) else None
  }

  /** Digits alone are read as their decimal value. */
  lemma {:induction false} DigitsParse(s: string)
    requires |s| > 0 && AllDigits(s)
    ensures ParseDecimal(s) == Some(DigitsValue(s) as real)
  {
    NoDot(s);
    assert s[..|s|] == s;
  }

  lemma {:induction false} NoDot(s: string)
    requires AllDigits(s)
    ensures DotIndex(s) == |s|
  {
    if |s| > 0 {
      assert AllDigits(s[1..]) by {
        forall i | 0 <= i < |s[1..]| ensures IsDigit(s[1..][i]) {
          assert s[1..][i] == s[i + 1];
        }
      }
      NoDot(s[1..]);
    }
  }

  /** Digits, one '.', digits: the integer part plus the scaled fraction. */
  lemma FractionParse(a: string, b: string)
    requires AllDigits(a) && AllDigits(b) && |a| > 0
    ensures ParseDecimal(a + "." + b) == Some(FractionValue(a, b))
  {
    var s := a + "." + b;
    NoDot(a);
    DotAt(a, "." + b);
    assert s == a + ("." + b);
    assert s[..|a|] == a;
    assert s[|a| + 1..] == b;
    assert IsUnsignedText(s);
    assert s[0] != '-' by { assert s[0] == a[0]; }
  }

  function FractionValue(a: string, b: string): real
    requires AllDigits(a) && AllDigits(b)
  {
    DigitsValue(a) as real + DigitsValue(b) as real / Pow10(|b|) as real
  }

  /** A leading '-' negates. */
  lemma {:induction false} NegativeParse(s: string)
    requires |s| > 0 && s[0] != '-'
    ensures ParseDecimal("-" + s) == if ParseDecimal(s).Some? then Some(-ParseDecimal(s).value) else None
  {
    assert ("-" + s)[1..] == s;
  }

  /** A second '.' makes the text unparseable. */
  lemma TwoDotsRejected(a: string, b: string, c: string)
    requires AllDigits(a) && AllDigits(b)
    ensures ParseDecimal(a + "." + b + "." + c) == None
  {
    var s := a + "." + b + "." + c;
    NoDot(a);
    DotAt(a, "." + b + "." + c);
    assert s == a + ("." + b + "." + c);
    assert s[|a| + 1..] == b + "." + c;
    NoDot(b);
    DotAt(b, "." + c);
    assert (b + "." + c) == b + ("." + c);
    assert s[|a| + 1 + |b|] == '.';
    assert !IsDigit(s[|a| + 1..][|b|]);
  }

  lemma {:induction false} DotAt(a: string, rest: string)
    requires AllDigits(a) && |rest| > 0 && rest[0] == '.'
    ensures DotIndex(a + rest) == |a|
  {
    if |a| > 0 {
      assert (a + rest)[1..] == a[1..] + rest;
      assert AllDigits(a[1..]) by {
        forall i | 0 <= i < |a[1..]| ensures IsDigit(a[1..][i]) {
          assert a[1..][i] == a[i + 1];
        }
      }
      DotAt(a[1..], rest);
    }
  }

  /** Rounding toward zero, as a Java cast from double to an integer type. */
  function Trunc(r: real): int {
    if r >= 0.0 then r.Floor else -((-r).Floor)
  }

  const IntMax: int := 0x7fff_ffff
  const IntMin: int := -0x8000_0000

  /** `Number.intValue()` of a Double: rounds toward zero and saturates at the
      bounds of a Java int. */
  function IntValue(r: real): (i: int)
    ensures IntMin <= i <= IntMax
    ensures IntMin as real <= r < (IntMax + 1) as real ==>
      (r >= 0.0 ==> i as real <= r < i as real + 1.0) && (r < 0.0 ==> i as real - 1.0 < r <= i as real)
    ensures r >= (IntMax + 1) as real ==> i == IntMax
    ensures r < IntMin as real ==> i == IntMin
  {
    var t := Trunc(r);
    if t > IntMax then IntMax else if t < IntMin then IntMin else t
  }

  /** A bound check on the truncated value (`intValue() > b || intValue() < -b`)
      is a check against the next integer: the value is at least b + 1 away
      from zero. */
  function OutsideTruncated(v: real, b: int): (out: bool)
    requires 0 <= b < IntMax
    ensures out <==> v >= (b + 1) as real || v <= -(b + 1) as real
  {
    IntValue(v) > b || IntValue(v) < -b
  }
}
