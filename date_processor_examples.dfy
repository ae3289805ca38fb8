/** The behaviour the processor's tests describe, under English, French
    and Spanish month names. */
module DateProcessorExamples {
  import opened Wrappers
  import opened JavaText
  import opened Diagnostics
  import opened DateFormats
  import opened DateProcessing
  import opened Numbers

  const EnglishShort: seq<string> := ["Jan", "Feb", "Mar", "Apr", "May", "Jun", "Jul", "Aug", "Sep", "Oct", "Nov", "Dec"]
  const EnglishFull: seq<string> := ["January", "February", "March", "April", "May", "June", "July", "August",
    "September", "October", "November", "December"]
  const FrenchShort: seq<string> := ["janv.", "f\U{E9}vr.", "mars", "avr.", "mai", "juin", "juil.", "ao\U{FB}t", "sept.",
    "oct.", "nov.", "d\U{E9}c."]
  const FrenchFull: seq<string> := ["janvier", "f\U{E9}vrier", "mars", "avril", "mai", "juin", "juillet", "ao\U{FB}t",
    "septembre", "octobre", "novembre", "d\U{E9}cembre"]
  const SpanishShort: seq<string> := ["ene", "feb", "mar", "abr", "may", "jun", "jul", "ago", "sep", "oct", "nov", "dic"]
  const SpanishFull: seq<string> := ["enero", "febrero", "marzo", "abril", "mayo", "junio", "julio", "agosto",
    "septiembre", "octubre", "noviembre", "diciembre"]

  /** A stand-in for the locale data: month names by locale and style. */
  function Names(locale: Locale, style: TextStyle): seq<string> {
    match locale
    case Us => if style == Short then EnglishShort else EnglishFull
    case French => if style == Short then FrenchShort else FrenchFull
    case Spanish => if style == Short then SpanishShort else SpanishFull
  }

  /** ASCII letters in upper case. */
  function UpperAscii(s: string): (r: string)
    ensures |r| == |s|
  {
    if s == [] then []
    else [if 'a' <= s[0] <= 'z' then (s[0] as int - 32) as char else s[0]] + UpperAscii(s[1..])
  }

  /** A stand-in for `RomanNumeral.toInt` on the numerals of the months,
      in either case; it refuses every other numeral. */
  function RomanValue(numeral: string): Option<int> {
    var u := UpperAscii(numeral);
    if u == "I" then Some(1) else if u == "II" then Some(2) else if u == "III" then Some(3)
    else if u == "IV" then Some(4) else if u == "V" then Some(5) else if u == "VI" then Some(6)
    else if u == "VII" then Some(7) else if u == "VIII" then Some(8) else if u == "IX" then Some(9)
    else if u == "X" then Some(10) else if u == "XI" then Some(11) else if u == "XII" then Some(12)
    else None
  }

  /** A `toInt` that refuses every numeral, as `RomanNumeral` does with
      one it cannot read. */
  function NoRomanValue(numeral: string): Option<int> {
    None
  }

  predicate WordList(list: seq<string>) {
    forall k :: 0 <= k < |list| ==> |list[k]| > 0 && !IsDigit(list[k][0])
  }

  lemma EnglishWords()
    ensures WordList(EnglishShort) && WordList(EnglishFull)
  {
  }

  lemma FrenchWords()
    ensures WordList(FrenchShort) && WordList(FrenchFull)
  {
  }

  lemma SpanishWords()
    ensures WordList(SpanishShort) && WordList(SpanishFull)
  {
  }

  /** No month name of any locale starts with a digit. */
  lemma NamesAreWords()
    ensures WordNames(Names)
  {
    EnglishWords();
    FrenchWords();
    SpanishWords();
    forall l: Locale, st: TextStyle ensures WordList(Names(l, st)) {
    }
  }

  /** Three fields split by runs of separators. */
  lemma ThreeFields(a: string, p: string, b: string, q: string, c: string)
    requires Unpunctuated(a) && Unpunctuated(b) && Unpunctuated(c) && |b| > 0
    requires |p| > 0 && (forall k :: 0 <= k < |p| ==> IsPunctuation(p[k]))
    requires |q| > 0 && (forall k :: 0 <= k < |q| ==> IsPunctuation(q[k]))
    ensures Standardize(a + p + b + q + c) == a + "-" + b + "-" + c
  {
    Regrouped(a, p, b, q, c);
    StandardizeRun(b, q, c);
    StandardizeUnpunctuated(c);
    StandardizeRun(a, p, b + q + c);
  }

  /** Slashes become dashes. */
  lemma Slashes(s: string)
    requires s == "8/11/2003"
    ensures Standardize(s) == "8-11-2003"
  {
    ThreeFields("8", "/", "11", "/", "2003");
    assert "8" + "/" + "11" + "/" + "2003" == s;
  }

  /** Dots and spaces alike. */
  lemma DotAndSpace(s: string)
    requires s == "08.11 2003"
    ensures Standardize(s) == "08-11-2003"
  {
    ThreeFields("08", ".", "11", " ", "2003");
    assert "08" + "." + "11" + " " + "2003" == s;
  }

  /** A month name is kept and its separators replaced. */
  lemma NamedMonth(s: string)
    requires s == "10/Oct/2000"
    ensures Standardize(s) == "10-Oct-2000"
  {
    ThreeFields("10", "/", "Oct", "/", "2000");
    assert "10" + "/" + "Oct" + "/" + "2000" == s;
  }

  /** The value of four digits. */
  lemma YearDigits(y: string, v: nat)
    requires |y| == 4 && AllDigits(y)
    requires v == DigitValue(y[0]) * 1000 + DigitValue(y[1]) * 100 + DigitValue(y[2]) * 10 + DigitValue(y[3])
    ensures DigitsValue(y) == v
  {
    assert y[..3][..2] == y[..2] && y[..2][..1] == y[..1] && y[..1][..0] == [];
    assert DigitsValue(y[..1]) == DigitValue(y[0]);
    assert DigitsValue(y[..2]) == DigitValue(y[0]) * 10 + DigitValue(y[1]);
    assert DigitsValue(y[..3]) == DigitValue(y[0]) * 100 + DigitValue(y[1]) * 10 + DigitValue(y[2]);
  }

  /** The value of two digits. */
  lemma PairDigits(m: string, v: nat)
    requires |m| == 2 && AllDigits(m) && v == DigitValue(m[0]) * 10 + DigitValue(m[1])
    ensures DigitsValue(m) == v
  {
    assert m[..1][..0] == [];
    assert DigitsValue(m[..1]) == DigitValue(m[0]);
  }

  /** A four-digit year alone is the year (`1987`). */
  lemma YearAlone(s: string)
    requires s == "1987"
    ensures DateOf(s, Names, RomanValue) == Outcome(PartialDate(Some(1987), None, None), [])
  {
    YearDigits(s, 1987);
    IsoYearText(s, Names, RomanValue);
  }

  /** Year and month (`1987-07`). */
  lemma YearAndMonth(s: string)
    requires s == "1987-07"
    ensures DateOf(s, Names, RomanValue) == Outcome(PartialDate(Some(1987), Some(7), None), [])
  {
    YearDigits(s[..4], 1987);
    PairDigits(s[5..], 7);
    IsoYearMonthText(s, Names, RomanValue);
  }

  /** A month number out of range with no day after it is dropped and the
      year kept (`1987-00`). */
  lemma MonthZeroYearKept(s: string)
    requires s == "1987-00"
    ensures DateOf(s, Names, RomanValue) == Outcome(PartialDate(Some(1987), None, None), [])
  {
    YearDigits(s[..4], 1987);
    PairDigits(s[5..], 0);
    IsoMonthUnchecked(s, Names, RomanValue);
  }

  /** A negative month number with no day after it is dropped and the
      year kept (`1987--5`). */
  lemma NegativeMonthYearKept(s: string)
    requires s == "1987--5"
    ensures DateOf(s, Names, RomanValue) == Outcome(PartialDate(Some(1987), None, None), [])
  {
    YearDigits(s[..4], 1987);
    assert s[6..] == "5" && "5"[..0] == "";
    IsoNegativeMonth(s, Names, RomanValue);
  }

  /** A run of nines is one less than a power of ten. */
  lemma {:induction false} NinesValue(x: string)
    requires forall k :: 0 <= k < |x| ==> x[k] == '9'
    ensures AllDigits(x) && DigitsValue(x) + 1 == Pow10(|x|)
  {
    if |x| > 0 {
      NinesValue(x[..|x| - 1]);
    }
  }

  /** Nineteen nines do not fit a `long`. */
  lemma NineteenNines(x: string)
    requires |x| == 19 && forall k :: 0 <= k < |x| ==> x[k] == '9'
    ensures AllDigits(x) && !FitsLong(x)
  {
    NinesValue(x);
    assert Pow10(19) == 10_000_000_000_000_000_000 by {
      assert Pow10(5) == 100_000;
      assert Pow10(10) == 10_000_000_000;
      assert Pow10(15) == 1_000_000_000_000_000;
    }
  }

  /** A month of nineteen nines is read one digit short, so
      `2000-9999999999999999999` fails the ISO attempt as a whole. */
  lemma HugeMonthRefused(s: string)
    requires s == "2000-9999999999999999999"
    ensures ParseBest(s, IsoPartial, Names, Us, IsoQueries).None?
  {
    var m := s[5..];
    assert |m| == 19 && forall k :: 0 <= k < |m| ==> m[k] == '9';
    NineteenNines(m);
    assert AllDigits(s[..4]) by { assert s[..4] == "2000"; }
    IsoMonthOverflowRefused(s, Names);
  }

  /** With a day after it, the same month makes the whole ISO attempt fail
      (`2010-13-01`). */
  lemma MonthThirteenRefused(s: string)
    requires s == "2010-13-01"
    ensures ParseBest(s, IsoPartial, Names, Us, IsoQueries).None?
  {
    PairDigits(s[5..7], 13);
    IsoDateRefused(s, 7, Names);
  }

  /** A full ISO date (`1987-06-03`). */
  lemma IsoDay(s: string)
    requires s == "1987-06-03"
    ensures DateOf(s, Names, RomanValue) == Outcome(PartialDate(Some(1987), Some(6), Some(3)), [])
  {
    YearDigits(s[..4], 1987);
    PairDigits(s[5..7], 6);
    PairDigits(s[8..], 3);
    IsoDateText(s, 7, Names, RomanValue);
  }

  /** The same number twice (`8-8-2010`) is accepted. */
  lemma SameNumberTwice(s: string)
    requires s == "8-8-2010"
    ensures DateOf(s, Names, RomanValue) == Outcome(PartialDate(Some(2010), Some(8), Some(8)), [])
  {
    assert s[..1] == "8" && s[2..3] == "8" && s[4..] == "2010";
    assert DigitsValue("8") == 8 by {
      assert "8"[..0] == "";
    }
    YearDigits("2010", 2010);
    NamesAreWords();
    SameDayAndMonth(s, 1, 3, Names, RomanValue);
  }

  /** Either number could be the month (`8-11-2003`): vague. */
  lemma VagueDate(s: string)
    requires s == "8-11-2003"
    ensures DateOf(s, Names, RomanValue) == Outcome(NoDate, [Diagnostic(DateVague, s)])
  {
    assert s[..1] == "8";
    assert s[2..4] == "11";
    assert "11"[..1] == "1";
    assert s[5..] == "2003";
    YearDigits("2003", 2003);
    NamesAreWords();
    AmbiguousDate(s, 1, 4, Names, RomanValue);
  }

  /** A first number past 12 is the day (`13-10-2012`). */
  lemma DayFirst(s: string)
    requires s == "13-10-2012"
    ensures DateOf(s, Names, RomanValue) == Outcome(PartialDate(Some(2012), Some(10), Some(13)), [])
  {
    assert s[..2] == "13" && s[3..5] == "10" && s[6..] == "2012";
    PairDigits("13", 13);
    PairDigits("10", 10);
    YearDigits("2012", 2012);
    NamesAreWords();
    DayFirstOnly(s, 2, 5, Names, RomanValue);
    assert MonthLength(2012, 10) == 31;
  }

  /** A day past the end of its month is brought back to the last day
      (`31-4-2010` is 30 April). */
  lemma DayClamped(s: string)
    requires s == "31-4-2010"
    ensures DateOf(s, Names, RomanValue) == Outcome(PartialDate(Some(2010), Some(4), Some(30)), [])
  {
    assert s[..2] == "31" && "31"[..1] == "3" && s[3..4] == "4" && s[5..] == "2010";
    YearDigits("2010", 2010);
    NamesAreWords();
    DayFirstOnly(s, 2, 4, Names, RomanValue);
  }

  /** Neither number can be the month (`32-13-2010`). */
  lemma NoReading(s: string)
    requires s == "32-13-2010"
    ensures DateOf(s, Names, RomanValue) == Outcome(NoDate, [Diagnostic(DateUnprocessable, s)])
  {
    assert s[..2] == "32" && "32"[..1] == "3" && s[3..5] == "13" && "13"[..1] == "1" && s[6..] == "2010";
    YearDigits("2010", 2010);
    NamesAreWords();
    NumericUnprocessable(s, 2, 5, Names, RomanValue);
  }

  /** No month name of any locale starts with an `x`. */
  lemma NoNameStartsWithX()
    ensures NoNameStartsWith(Names, Us, 'x') && NoNameStartsWith(Names, French, 'x') && NoNameStartsWith(Names, Spanish, 'x')
  {
    forall l: Locale, st: TextStyle ensures NoListNameStartsWith(Names(l, st), 'x') {
      NamesAvoidX(l, st);
    }
  }

  predicate NoListNameStartsWith(list: seq<string>, c: char) {
    forall k :: 0 <= k < |list| ==> |list[k]| > 0 && FoldCase(list[k][0]) != FoldCase(c)
  }

  lemma NamesAvoidX(l: Locale, st: TextStyle)
    ensures NoListNameStartsWith(Names(l, st), 'x')
  {
    var list := Names(l, st);
    forall k | 0 <= k < |list| ensures |list[k]| > 0 && FoldCase(list[k][0]) != FoldCase('x') {
      assert list[k][0] != 'x' && list[k][0] != 'X';
    }
  }

  lemma UpperX()
    ensures RomanValue("x") == Some(10)
  {
    assert UpperAscii("x") == "X" by { assert UpperAscii("x"[1..]) == []; }
    assert "X" != "I" && "X" != "V" && "X" != "IX" && "X" != "IV" && "X" != "VI";
  }

  lemma UpperXi()
    ensures RomanValue("xi") == Some(11)
  {
    assert UpperAscii("xi") == "XI" by {
      assert "xi"[1..] == "i";
      assert UpperAscii("i") == "I" by { assert UpperAscii("i"[1..]) == []; }
    }
    assert "XI"[0] == 'X' && "XI"[1] == 'I';
  }

  /** A Roman numeral month (`8.xi.2003`). */
  lemma RomanMonth(s: string)
    requires s == "8.xi.2003"
    ensures DateOf(s, Names, RomanValue) == Outcome(PartialDate(Some(2003), Some(11), Some(8)), [])
  {
    assert s == "8" + ['.'] + "xi" + ['.'] + "2003";
    YearDigits("2003", 2003);
    NamesAreWords();
    NoNameStartsWithX();
    UpperXi();
    RomanDateText("8", '.', "xi", '.', "2003", Names, RomanValue);
  }

  /** The numeral for October (`8-x-2003`). */
  lemma RomanOctober(s: string)
    requires s == "8-x-2003"
    ensures DateOf(s, Names, RomanValue) == Outcome(PartialDate(Some(2003), Some(10), Some(8)), [])
  {
    assert s == "8" + ['-'] + "x" + ['-'] + "2003";
    YearDigits("2003", 2003);
    NamesAreWords();
    NoNameStartsWithX();
    UpperX();
    RomanDateText("8", '-', "x", '-', "2003", Names, RomanValue);
  }

  /** A numeral `toInt` refuses (`8-x-2003`): reported, then
      unprocessable. */
  lemma RomanNotRead(s: string)
    requires s == "8-x-2003"
    ensures DateOf(s, Names, NoRomanValue) ==
      Outcome(NoDate, [Diagnostic(DateRomanNumeralUnprocessable, s), Diagnostic(DateUnprocessable, s)])
  {
    assert s == "8" + ['-'] + "x" + ['-'] + "2003";
    NamesAreWords();
    NoNameStartsWithX();
    RomanRefused("8", '-', "x", '-', "2003", Names, NoRomanValue);
  }
}
