/** The date patterns `DateProcessor` builds with the date library's
    formatter builder, and what parsing a text with one of them yields:
    strict parsing of each field in turn (no backtracking, except that a
    failed optional section is skipped), the whole text consumed, then the
    library's default resolution of the parsed fields and the query for a
    date, a year-month, a year or a month. */
module DateFormats {
  import opened Wrappers
  import opened JavaText

  /** The locales the processor parses with: `Locale.US`, then its
      supported locales `Locale.FRENCH` and `new Locale("ES")`. */
  datatype Locale = Us | French | Spanish

  /** `MMM` parses short month names, `MMMM` full ones. */
  datatype TextStyle = Short | Full

  /** A locale's month names in a style, January first: the date
      library's locale data, which is not part of this model. */
  type MonthNames = (Locale, TextStyle) -> seq<string>

  /** One field of a pattern. */
  datatype Element =
    | Dash                        // the literal '-'
    | DayNumber                   // `d`: 1 to 19 digits
    | MonthNumber                 // `M`: 1 to 19 digits
    | YearNumber(reserved: nat)   // `yyyy`: see YearAt
    | TwoDigitMonth               // `MM`
    | TwoDigitDay                 // `dd`
    | MonthName(style: TextStyle) // `MMM` or `MMMM`, ignoring case
    | Optional(section: seq<Element>)  // `[...]`

  /** The raw field values a parse collects. */
  datatype Parsed = Parsed(year: Option<nat>, month: Option<int>, day: Option<int>)

  const NothingParsed := Parsed(None, None, None)

  /** What a successful query returns (`LocalDate`, `YearMonth`, `Year`,
      `Month`). */
  datatype Temporal =
    | LocalDate(year: int, month: int, day: int)
    | YearMonth(year: int, month: int)
    | Year(year: int)
    | Month(month: int)

  datatype Query = DateQuery | YearMonthQuery | YearQuery | MonthQuery

  /** The most digits a numeric field takes. */
  const MaxWidth: nat := 19

  /** The most a year can be (`Year.MAX_VALUE`). */
  const MaxYear: nat := 999_999_999

  function Min(a: nat, b: nat): nat { if a <= b then a else b }

  lemma DigitSlice(s: string, i: nat, e: nat)
    requires i <= |s| && i <= e <= DigitRunEnd(s, i)
    ensures AllDigits(s[i..e])
  {
  }

  /** The largest value a `long` holds. */
  const LongMax: nat := 9_223_372_036_854_775_807

  /** A run of digits the number parser reads whole: fewer than 19 digits,
      or a value that fits a `long`. */
  predicate FitsLong(x: string) {
    |x| < MaxWidth || (AllDigits(x) && DigitsValue(x) <= LongMax)
  }

  /** The digits of a `d` or `M` field at `i`: the run of digits there,
      cut at 19, and where it ends. A 19-digit value above `limit` (too big
      for a `long`) gives back its last digit, as the number parser does
      when the value overflows. */
  function DigitsAt(s: string, i: nat, limit: nat): (r: Option<(nat, nat)>)
    requires i <= |s|
    ensures r.None? <==> i == |s| || !IsDigit(s[i])
    ensures r.Some? ==> var e := r.value.1; var n := Min(DigitRunEnd(s, i), i + MaxWidth);
      i < e <= |s| && AllDigits(s[i..e]) && r.value.0 == DigitsValue(s[i..e])
      && (e == n || e == n - 1)
      && (e == n - 1 <==> n == i + MaxWidth && DigitsValue(s[i..n]) > limit)
      && (n < |s| && n < i + MaxWidth ==> !IsDigit(s[n]))
  {
    var n := Min(DigitRunEnd(s, i), i + MaxWidth);
    DigitSlice(s, i, n);
    if n == i then None
    else if n == i + MaxWidth && DigitsValue(s[i..n]) > limit then
      assert AllDigits(s[i..n - 1]) by { DigitSlice(s, i, n - 1); }
      Some((DigitsValue(s[i..n - 1]), n - 1))
    else Some((DigitsValue(s[i..n]), n))
  }

  /** A `d` or `M` field at `i`, under sign style NORMAL and strict
      parsing: its digits, or a '-' and digits that are not all zero, read
      as a negative number ("-0" is refused); a '+' is refused. A negative
      value may reach -2^63, a positive one 2^63 - 1. */
  function NumberAt(s: string, i: nat): (r: Option<(int, nat)>)
    requires i <= |s|
    ensures r.Some? <==> ((i < |s| && IsDigit(s[i]))
      || (i + 1 < |s| && s[i] == '-' && IsDigit(s[i + 1]) && DigitsAt(s, i + 1, LongMax + 1).value.0 != 0))
    ensures r.Some? ==> i < r.value.1 <= |s|
    ensures r.Some? && IsDigit(s[i]) ==>
      Some((DigitsAt(s, i, LongMax).value.0 as int, DigitsAt(s, i, LongMax).value.1)) == r
    ensures r.Some? && !IsDigit(s[i]) ==>
      r.value.0 == -(DigitsAt(s, i + 1, LongMax + 1).value.0 as int) < 0
      && r.value.1 == DigitsAt(s, i + 1, LongMax + 1).value.1
  {
    if i < |s| && s[i] == '-' then
      match DigitsAt(s, i + 1, LongMax + 1)
      case Some((v, e)) => if v == 0 then None else Some((-(v as int), e))
      case None => None
    else
      match DigitsAt(s, i, LongMax)
      case Some((v, e)) => Some((v, e))
      case None => None
  }

  /** A `yyyy` field at `i` (minimum width 4, at most 19 digits, sign
      style EXCEEDS_PAD under strict parsing): exactly four digits, or '+'
      and more than four. When `reserved` fixed-width digits follow with
      no literal between (`yyyyMMdd`), the field first reads as far as it
      can and then gives back `reserved` digits, keeping at least four.
      After the sign check, a run of 19 or more digits whose value does
      not fit a `long` gives back its last digit. */
  function YearAt(s: string, i: nat, reserved: nat): (r: Option<(nat, nat)>)
    requires i <= |s|
    ensures r.Some? ==> var plus := i < |s| && s[i] == '+'; var start := if plus then i + 1 else i; var e := r.value.1;
      start + 4 <= e <= |s| && AllDigits(s[start..e]) && r.value.0 == DigitsValue(s[start..e])
      && (plus <==> e - start > 4)
  {
    var plus := i < |s| && s[i] == '+';
    var start := if plus then i + 1 else i;
    var run := DigitRunEnd(s, start) - start;
    var first := Min(run, MaxWidth + reserved);
    var width: nat := if reserved == 0 then first else if first > reserved + 4 then first - reserved else 4;
    if first < 4 || (plus && width <= 4) || (!plus && width > 4) then None
    else
      DigitSlice(s, start, start + width);
      if width >= MaxWidth && DigitsValue(s[start..start + width]) > LongMax then
        DigitSlice(s, start, start + width - 1);
        Some((DigitsValue(s[start..start + width - 1]), start + width - 1))
      else Some((DigitsValue(s[start..start + width]), start + width))
  }

  /** A fixed-width two-digit field at `i`. */
  function TwoDigitsAt(s: string, i: nat): (r: Option<(nat, nat)>)
    requires i <= |s|
    ensures r.Some? <==> i + 2 <= |s| && IsDigit(s[i]) && IsDigit(s[i + 1])
    ensures r.Some? ==> r.value == (DigitValue(s[i]) * 10 + DigitValue(s[i + 1]), i + 2)
  {
    if i + 2 <= |s| && IsDigit(s[i]) && IsDigit(s[i + 1]) then
      Some((DigitValue(s[i]) * 10 + DigitValue(s[i + 1]), i + 2))
    else None
  }

  /** Case-insensitive comparison of the text parser: ASCII and Latin-1
      letters fold to lower case. */
  function FoldCase(c: char): (r: char)
    ensures 'a' <= c <= 'z' ==> r == c
    ensures IsDigit(c) || IsDigit(r) ==> r == c
  {
    if 'A' <= c <= 'Z' || ('À' <= c <= 'Þ' && c != '×') then (c as int + 32) as char else c
  }

  /** The text at `i` starts with `name`, ignoring case. */
  predicate NameMatches(s: string, i: nat, name: string) {
    i + |name| <= |s| && forall t :: 0 <= t < |name| ==> FoldCase(s[i + t]) == FoldCase(name[t])
  }

  /** Among `names[k..]`, the index of the longest name the text at `i`
      starts with (the first of equally long ones). */
  function LongestFrom(s: string, i: nat, names: seq<string>, k: nat): (r: Option<nat>)
    requires k <= |names|
    ensures r.Some? ==> k <= r.value < |names| && NameMatches(s, i, names[r.value])
    ensures r.Some? ==> forall j :: k <= j < |names| && NameMatches(s, i, names[j]) ==>
      |names[j]| <= |names[r.value]|
    ensures r.None? ==> forall j :: k <= j < |names| ==> !NameMatches(s, i, names[j])
    decreases |names| - k
  {
    if k == |names| then None
    else
      var rest := LongestFrom(s, i, names, k + 1);
      if NameMatches(s, i, names[k]) && (rest.None? || |names[rest.value]| <= |names[k]|) then Some(k)
      else rest
  }

  /** A `MMM`/`MMMM` field at `i`: the month of the longest matching name
      (the library tries the names longest first). */
  function NameAt(s: string, i: nat, names: seq<string>): (r: Option<(nat, nat)>)
    ensures r.Some? <==> exists k :: 0 <= k < |names| && NameMatches(s, i, names[k])
    ensures r.Some? ==> (1 <= r.value.0 <= |names| && NameMatches(s, i, names[r.value.0 - 1])
      && r.value.1 == i + |names[r.value.0 - 1]|)
  {
    match LongestFrom(s, i, names, 0)
    case Some(k) => Some((k + 1, i + |names[k]|))
    case None => None
  }

  /** One field that is not a section, at `i`: the fields collected so far
      with its value added, and where it ends. */
  function Step(s: string, i: nat, e: Element, names: MonthNames, locale: Locale, acc: Parsed): (r: Option<(Parsed, nat)>)
    requires i <= |s| && !e.Optional?
    ensures r.Some? ==> i <= r.value.1 <= |s|
  {
    match e
    case Dash => if i < |s| && s[i] == '-' then Some((acc, i + 1)) else None
    case DayNumber =>
      (match NumberAt(s, i)
       case Some((v, end)) => Some((acc.(day := Some(v)), end))
       case None => None)
    case MonthNumber =>
      (match NumberAt(s, i)
       case Some((v, end)) => Some((acc.(month := Some(v)), end))
       case None => None)
    case YearNumber(reserved) =>
      (match YearAt(s, i, reserved)
       case Some((v, end)) => Some((acc.(year := Some(v)), end))
       case None => None)
    case TwoDigitMonth =>
      (match TwoDigitsAt(s, i)
       case Some((v, end)) => Some((acc.(month := Some(v)), end))
       case None => None)
    case TwoDigitDay =>
      (match TwoDigitsAt(s, i)
       case Some((v, end)) => Some((acc.(day := Some(v)), end))
       case None => None)
    case MonthName(style) =>
      (match NameAt(s, i, names(locale, style))
       case Some((v, end)) => Some((acc.(month := Some(v)), end))
       case None => None)
  }

  /** The fields of a pattern in turn from `i`, each starting where the
      previous one ended; an optional section that fails is skipped, and
      the fields and the position are restored to what they were before
      the section. */
  function Run(s: string, i: nat, elements: seq<Element>, names: MonthNames, locale: Locale, acc: Parsed): (r: Option<(Parsed, nat)>)
    requires i <= |s|
    ensures r.Some? ==> i <= r.value.1 <= |s|
    decreases elements
  {
    if |elements| == 0 then Some((acc, i))
    else
      var first: Option<(Parsed, nat)> := if elements[0].Optional? then
        (match Run(s, i, elements[0].section, names, locale, acc)
         case Some(q) => Some(q)
         case None => Some((acc, i)))
      else Step(s, i, elements[0], names, locale, acc);
      match first
      case Some((acc', j)) => Run(s, j, elements[1..], names, locale, acc')
      case None => None
  }

  /** `parse`: the pattern must account for the whole text. */
  function Parse(s: string, elements: seq<Element>, names: MonthNames, locale: Locale): (r: Option<Parsed>)
    ensures r.Some? ==> Run(s, 0, elements, names, locale, NothingParsed) == Some((r.value, |s|))
  {
    match Run(s, 0, elements, names, locale, NothingParsed)
    case Some((p, end)) => if end == |s| then Some(p) else None
    case None => None
  }

  /** Proleptic Gregorian leap years. */
  predicate IsLeap(year: int) {
    year % 4 == 0 && (year % 100 != 0 || year % 400 == 0)
  }

  function MonthLength(year: int, month: int): (n: nat)
    ensures 28 <= n <= 31
  {
    if month == 2 then (if IsLeap(year) then 29 else 28)
    else if month == 4 || month == 6 || month == 9 || month == 11 then 30
    else 31
  }

  /** The default (smart) resolution checks the year, and the month and
      the day only when all three are there to make a date; a value it
      refuses makes the whole parse throw. A month without a day is left
      unchecked until a query reads it. */
  predicate Resolves(p: Parsed) {
    (p.year.Some? ==> 1 <= p.year.value <= MaxYear)
    && (p.year.Some? && p.month.Some? && p.day.Some? ==> 1 <= p.month.value <= 12 && 1 <= p.day.value <= 31)
  }

  /** The query on resolved fields. A day past the end of its month is
      moved back to the month's last day by the smart resolution; reading
      a month outside 1 to 12 makes the query throw. */
  function Answer(p: Parsed, q: Query): (r: Option<Temporal>)
    requires Resolves(p)
    ensures r.Some? ==> match r.value
      case LocalDate(y, m, d) => q == DateQuery && 1 <= m <= 12 && 1 <= d <= MonthLength(y, m)
      case YearMonth(_, m) => q == YearMonthQuery && 1 <= m <= 12
      case Year(y) => q == YearQuery && 1 <= y <= MaxYear
      case Month(m) => q == MonthQuery && 1 <= m <= 12
    ensures r.None? <==> match q
      case DateQuery => p.year.None? || p.month.None? || p.day.None?
      case YearMonthQuery => p.year.None? || p.month.None? || !(1 <= p.month.value <= 12)
      case YearQuery => p.year.None?
      case MonthQuery => p.month.None? || !(1 <= p.month.value <= 12)
  {
    match q
    case DateQuery =>
      if p.year.Some? && p.month.Some? && p.day.Some? then
        var y, m := p.year.value, p.month.value;
        Some(LocalDate(y, m, Min(p.day.value, MonthLength(y, m))))
      else None
    case YearMonthQuery =>
      if p.year.Some? && p.month.Some? && 1 <= p.month.value <= 12 then Some(YearMonth(p.year.value, p.month.value)) else None
    case YearQuery => if p.year.Some? then Some(Year(p.year.value)) else None
    case MonthQuery => if p.month.Some? && 1 <= p.month.value <= 12 then Some(Month(p.month.value)) else None
  }

  /** `parseBest(text, queries...)`: one parse and resolution, then the
      first query that succeeds; `parse(text, query)` is the case of one
      query. */
  function ParseBest(s: string, elements: seq<Element>, names: MonthNames, locale: Locale, queries: seq<Query>): (r: Option<Temporal>)
    ensures r.Some? ==> Parse(s, elements, names, locale).Some? && Resolves(Parse(s, elements, names, locale).value)
  {
    match Parse(s, elements, names, locale)
    case Some(p) => if Resolves(p) then FirstAnswer(p, queries) else None
    case None => None
  }

  /** The first of `queries` that the resolved fields answer. */
  function FirstAnswer(p: Parsed, queries: seq<Query>): (r: Option<Temporal>)
    requires Resolves(p)
    ensures r.Some? ==> |queries| > 0
  {
    if |queries| == 0 then None
    else if Answer(p, queries[0]).Some? then Answer(p, queries[0])
    else FirstAnswer(p, queries[1..])
  }

  /** `parse(text, query)`: the query's answer on the resolved fields. */
  function ParseAs(s: string, elements: seq<Element>, names: MonthNames, locale: Locale, q: Query): (r: Option<Temporal>)
    ensures r.Some? ==> Parse(s, elements, names, locale).Some?
    ensures r.Some? ==> var p := Parse(s, elements, names, locale).value; Resolves(p) && r == Answer(p, q)
  {
    assert [q][1..] == [];
    ParseBest(s, elements, names, locale, [q])
  }

  /** `parse(text, query)` succeeds exactly when the text parses, resolves
      and answers the query. */
  lemma ParseAsAnswers(s: string, elements: seq<Element>, names: MonthNames, locale: Locale, q: Query)
    ensures ParseAs(s, elements, names, locale, q).Some? <==> match Parse(s, elements, names, locale)
      case Some(p) => Resolves(p) && Answer(p, q).Some?
      case None => false
  {
    assert [q][1..] == [];
  }

  /** The answer is the one of the first query, in the order given, that
      the resolved fields answer. */
  lemma {:induction false} FirstAnswerAt(p: Parsed, queries: seq<Query>, k: nat)
    requires Resolves(p) && k < |queries| && Answer(p, queries[k]).Some?
    requires forall j :: 0 <= j < k ==> Answer(p, queries[j]).None?
    ensures FirstAnswer(p, queries) == Answer(p, queries[k])
    decreases k
  {
    if k > 0 {
      assert Answer(p, queries[0]).None?;
      FirstAnswerAt(p, queries[1..], k - 1);
    }
  }

  /** There is no answer exactly when no query is answered. */
  lemma {:induction false} NoFirstAnswer(p: Parsed, queries: seq<Query>)
    requires Resolves(p)
    ensures FirstAnswer(p, queries).None? <==> forall k :: 0 <= k < |queries| ==> Answer(p, queries[k]).None?
    decreases |queries|
  {
    if |queries| > 0 {
      NoFirstAnswer(p, queries[1..]);
      assert forall k :: 1 <= k < |queries| ==> queries[k] == queries[1..][k - 1];
    }
  }

  /** `parseBest` returns the answer of the first query, in the order
      given, that the resolved fields answer. */
  lemma ParseBestFirst(s: string, elements: seq<Element>, names: MonthNames, locale: Locale, queries: seq<Query>, p: Parsed, k: nat)
    requires Parse(s, elements, names, locale) == Some(p) && Resolves(p)
    requires k < |queries| && Answer(p, queries[k]).Some? && forall j :: 0 <= j < k ==> Answer(p, queries[j]).None?
    ensures ParseBest(s, elements, names, locale, queries) == Answer(p, queries[k])
  {
    FirstAnswerAt(p, queries, k);
  }

  /** `parseBest` throws when the text does not parse, when resolution
      refuses a value, or when no query is answered. */
  lemma ParseBestNone(s: string, elements: seq<Element>, names: MonthNames, locale: Locale, queries: seq<Query>)
    ensures ParseBest(s, elements, names, locale, queries).None? <==> match Parse(s, elements, names, locale)
      case Some(p) => !Resolves(p) || forall k :: 0 <= k < |queries| ==> Answer(p, queries[k]).None?
      case None => true
  {
    match Parse(s, elements, names, locale)
    case Some(p) => if Resolves(p) { NoFirstAnswer(p, queries); }
    case None =>
  }

  /** `yyyy[-M[-d]]` */
  const IsoPartial: seq<Element> := [YearNumber(0), Optional([Dash, MonthNumber, Optional([Dash, DayNumber])])]
  /** `yyyyMMdd` */
  const IsoBasic: seq<Element> := [YearNumber(4), TwoDigitMonth, TwoDigitDay]
  /** `d-M-yyyy` */
  const DayMonthYear: seq<Element> := [DayNumber, Dash, MonthNumber, Dash, YearNumber(0)]
  /** `M-d-yyyy` */
  const MonthDayYear: seq<Element> := [MonthNumber, Dash, DayNumber, Dash, YearNumber(0)]
  /** `d-MMM-yyyy`, `d-MMMM-yyyy` */
  function DayNameYear(style: TextStyle): seq<Element> { [DayNumber, Dash, MonthName(style), Dash, YearNumber(0)] }
  /** `MMM-d-yyyy`, `MMMM-d-yyyy` */
  function NameDayYear(style: TextStyle): seq<Element> { [MonthName(style), Dash, DayNumber, Dash, YearNumber(0)] }
  /** `yyyy-MMM-d`, `yyyy-MMMM-d` */
  function YearNameDay(style: TextStyle): seq<Element> { [YearNumber(0), Dash, MonthName(style), Dash, DayNumber] }
  /** `MMM-yyyy` */
  const NameYear: seq<Element> := [MonthName(Short), Dash, YearNumber(0)]
  /** `MMM` */
  const NameOnly: seq<Element> := [MonthName(Short)]

  /** The digit run from `i` ends at the first character that is not a
      digit. */
  lemma {:induction false} DigitRunEndAt(s: string, i: nat, e: nat)
    requires i <= e <= |s| && AllDigits(s[i..e]) && (e == |s| || !IsDigit(s[e]))
    ensures DigitRunEnd(s, i) == e
    decreases e - i
  {
    if i < e {
      assert s[i] == s[i..e][0];
      assert s[i + 1..e] == s[i..e][1..];
      DigitRunEndAt(s, i + 1, e);
    }
  }

  /** A run of at most 19 digits that fits a `long` is read whole by `d`
      and `M`. */
  lemma NumberAtRun(s: string, i: nat, e: nat)
    requires i < e <= |s| && e <= i + MaxWidth && AllDigits(s[i..e]) && (e == |s| || !IsDigit(s[e]))
    requires FitsLong(s[i..e])
    ensures NumberAt(s, i) == Some((DigitsValue(s[i..e]), e))
  {
    DigitRunEndAt(s, i, e);
  }

  /** A 19-digit run beyond `Long.MAX_VALUE` is read one digit short by `d`
      and `M`, leaving its last digit unread. */
  lemma NumberAtOverflow(s: string, i: nat)
    requires i + MaxWidth <= |s| && AllDigits(s[i..i + MaxWidth]) && !FitsLong(s[i..i + MaxWidth])
    ensures AllDigits(s[i..i + MaxWidth - 1])
    ensures NumberAt(s, i) == Some((DigitsValue(s[i..i + MaxWidth - 1]), i + MaxWidth - 1))
  {
    DigitSlice(s, i, i + MaxWidth - 1);
    assert IsDigit(s[i..i + MaxWidth][0]);
    assert DigitRunEnd(s, i) >= i + MaxWidth by {
      DigitRunAtLeast(s, i, i + MaxWidth);
    }
  }

  /** A digit run at least as long as `e - i` stretches at least to `e`. */
  lemma {:induction false} DigitRunAtLeast(s: string, i: nat, e: nat)
    requires i <= e <= |s| && AllDigits(s[i..e])
    ensures DigitRunEnd(s, i) >= e
    decreases e - i
  {
    if i < e {
      assert s[i] == s[i..e][0];
      assert s[i + 1..e] == s[i..e][1..];
      DigitRunAtLeast(s, i + 1, e);
    }
  }

  /** Four digits, then no digit, are read as a year. */
  lemma YearAtFour(s: string, i: nat)
    requires i + 4 <= |s| && AllDigits(s[i..i + 4]) && (i + 4 == |s| || !IsDigit(s[i + 4]))
    ensures YearAt(s, i, 0) == Some((DigitsValue(s[i..i + 4]), i + 4))
  {
    assert IsDigit(s[i..i + 4][0]);
    DigitRunEndAt(s, i, i + 4);
  }

  /** A '+' and 19 digits beyond `Long.MAX_VALUE`, then no digit: the
      year passes the sign check on all 19 digits and is then read one
      digit short. */
  lemma YearAtOverflow(s: string, i: nat)
    requires i + 1 + MaxWidth <= |s| && s[i] == '+' && AllDigits(s[i + 1..i + 1 + MaxWidth])
    requires (i + 1 + MaxWidth == |s| || !IsDigit(s[i + 1 + MaxWidth])) && !FitsLong(s[i + 1..i + 1 + MaxWidth])
    ensures AllDigits(s[i + 1..i + MaxWidth])
    ensures YearAt(s, i, 0) == Some((DigitsValue(s[i + 1..i + MaxWidth]), i + MaxWidth))
  {
    DigitRunEndAt(s, i + 1, i + 1 + MaxWidth);
    DigitSlice(s, i + 1, i + MaxWidth);
  }

  /** Fewer than four digits, and no sign, are no year. */
  lemma YearAtShort(s: string, i: nat, e: nat, reserved: nat)
    requires i < e < i + 4 && e <= |s| && IsDigit(s[i]) && AllDigits(s[i..e]) && (e == |s| || !IsDigit(s[e]))
    ensures YearAt(s, i, reserved).None?
  {
    DigitRunEndAt(s, i, e);
  }

  /** A month name never starts with a digit, so no name field matches
      there. */
  predicate WordNames(names: MonthNames) {
    forall l: Locale, st: TextStyle, k :: 0 <= k < |names(l, st)| ==>
      |names(l, st)[k]| > 0 && !IsDigit(names(l, st)[k][0])
  }

  lemma NameAtDigit(s: string, i: nat, names: MonthNames, locale: Locale, style: TextStyle)
    requires WordNames(names) && i < |s| && IsDigit(s[i])
    ensures NameAt(s, i, names(locale, style)).None?
  {
    var list := names(locale, style);
    forall k | 0 <= k < |list| ensures !NameMatches(s, i, list[k]) {
      var name := list[k];
      assert |name| > 0 && !IsDigit(name[0]);
    }
  }

  /** Where a text is `a-b-c` with `a` and `b` runs of at most 19 digits
      that fit a `long`, and `c` four digits (`i` and `j` are the two dashes). */
  predicate NumericShape(s: string, i: nat, j: nat) {
    0 < i && i + 1 < j && j + 5 == |s| && i <= MaxWidth && j - i - 1 <= MaxWidth
    && FitsLong(s[..i]) && FitsLong(s[i + 1..j])
    && AllDigits(s[..i]) && s[i] == '-' && AllDigits(s[i + 1..j]) && s[j] == '-' && AllDigits(s[j + 1..])
  }

  /** The `-yyyy` that ends `d-M-yyyy` and `M-d-yyyy`. */
  lemma DashYearRun(s: string, j: nat, names: MonthNames, locale: Locale, acc: Parsed)
    requires j + 5 == |s| && s[j] == '-' && AllDigits(s[j + 1..])
    ensures Run(s, j, [Dash, YearNumber(0)], names, locale, acc) == Some((acc.(year := Some(DigitsValue(s[j + 1..]))), |s|))
  {
    assert s[j + 1..] == s[j + 1..j + 5];
    YearAtFour(s, j + 1);
    assert [Dash, YearNumber(0)][1..] == [YearNumber(0)] && [YearNumber(0)][1..] == [];
  }

  lemma DayMonthYearRun(s: string, i: nat, j: nat, names: MonthNames, locale: Locale)
    requires NumericShape(s, i, j)
    ensures Parse(s, DayMonthYear, names, locale) ==
      Some(Parsed(Some(DigitsValue(s[j + 1..])), Some(DigitsValue(s[i + 1..j])), Some(DigitsValue(s[..i]))))
  {
    assert s[..i] == s[0..i];
    NumberAtRun(s, 0, i);
    NumberAtRun(s, i + 1, j);
    var p := NothingParsed.(day := Some(DigitsValue(s[..i])));
    var p' := p.(month := Some(DigitsValue(s[i + 1..j])));
    DashYearRun(s, j, names, locale, p');
    assert DayMonthYear[3..] == [Dash, YearNumber(0)];
    assert Run(s, i + 1, DayMonthYear[2..], names, locale, p) == Run(s, j, DayMonthYear[3..], names, locale, p');
    assert Run(s, i, DayMonthYear[1..], names, locale, p) == Run(s, i + 1, DayMonthYear[2..], names, locale, p);
    assert Run(s, 0, DayMonthYear, names, locale, NothingParsed) == Run(s, i, DayMonthYear[1..], names, locale, p);
  }

  lemma MonthDayYearRun(s: string, i: nat, j: nat, names: MonthNames, locale: Locale)
    requires NumericShape(s, i, j)
    ensures Parse(s, MonthDayYear, names, locale) ==
      Some(Parsed(Some(DigitsValue(s[j + 1..])), Some(DigitsValue(s[..i])), Some(DigitsValue(s[i + 1..j]))))
  {
    assert s[..i] == s[0..i];
    NumberAtRun(s, 0, i);
    NumberAtRun(s, i + 1, j);
    var p := NothingParsed.(month := Some(DigitsValue(s[..i])));
    var p' := p.(day := Some(DigitsValue(s[i + 1..j])));
    DashYearRun(s, j, names, locale, p');
    assert MonthDayYear[3..] == [Dash, YearNumber(0)];
    assert Run(s, i + 1, MonthDayYear[2..], names, locale, p) == Run(s, j, MonthDayYear[3..], names, locale, p');
    assert Run(s, i, MonthDayYear[1..], names, locale, p) == Run(s, i + 1, MonthDayYear[2..], names, locale, p);
    assert Run(s, 0, MonthDayYear, names, locale, NothingParsed) == Run(s, i, MonthDayYear[1..], names, locale, p);
  }

  /** The queries `process` asks of `yyyy[-M[-d]]`, best first. */
  const IsoQueries: seq<Query> := [DateQuery, YearMonthQuery, YearQuery]

  /** `yyyy[-M[-d]]` on a four-digit year alone gives that year. */
  lemma IsoYearOnly(s: string, names: MonthNames, locale: Locale)
    requires |s| == 4 && AllDigits(s)
    ensures Parse(s, IsoPartial, names, locale) == Some(Parsed(Some(DigitsValue(s)), None, None))
  {
    assert s[0..4] == s;
    YearAtFour(s, 0);
    var p := NothingParsed.(year := Some(DigitsValue(s)));
    assert Run(s, 4, IsoPartial[1..][0].section, names, locale, p).None?;
    assert Run(s, 4, IsoPartial[1..], names, locale, p) == Some((p, 4));
  }

  /** A year, a dash and a month number: the optional day is skipped. */
  lemma IsoYearMonth(s: string, names: MonthNames, locale: Locale)
    requires 5 < |s| <= 5 + MaxWidth && AllDigits(s[..4]) && s[4] == '-' && AllDigits(s[5..])
    requires FitsLong(s[5..])
    ensures Parse(s, IsoPartial, names, locale) ==
      Some(Parsed(Some(DigitsValue(s[..4])), Some(DigitsValue(s[5..])), None))
  {
    assert s[0..4] == s[..4];
    YearAtFour(s, 0);
    assert s[5..] == s[5..|s|];
    NumberAtRun(s, 5, |s|);
    var p := NothingParsed.(year := Some(DigitsValue(s[..4])));
    var p' := p.(month := Some(DigitsValue(s[5..])));
    var sec := IsoPartial[1..][0].section;
    assert Run(s, |s|, sec[2..], names, locale, p') == Some((p', |s|));
    assert Run(s, 5, sec[1..], names, locale, p) == Run(s, |s|, sec[2..], names, locale, p');
    assert Run(s, 4, sec, names, locale, p) == Some((p', |s|));
    assert Run(s, 4, IsoPartial[1..], names, locale, p) == Some((p', |s|));
  }

  /** A year, a dash and a negative month number (`1987--5`): the sign
      belongs to the month, and the optional day section is skipped. */
  lemma IsoYearNegativeMonth(s: string, names: MonthNames, locale: Locale)
    requires 6 < |s| <= 6 + MaxWidth && AllDigits(s[..4]) && s[4] == '-' && s[5] == '-' && AllDigits(s[6..])
    requires DigitsValue(s[6..]) != 0 && (|s| < 6 + MaxWidth || DigitsValue(s[6..]) <= LongMax + 1)
    ensures Parse(s, IsoPartial, names, locale) ==
      Some(Parsed(Some(DigitsValue(s[..4])), Some(-(DigitsValue(s[6..]) as int)), None))
  {
    assert s[0..4] == s[..4];
    YearAtFour(s, 0);
    assert s[6..] == s[6..|s|];
    DigitRunEndAt(s, 6, |s|);
    assert DigitsAt(s, 6, LongMax + 1) == Some((DigitsValue(s[6..]), |s|));
    var p := NothingParsed.(year := Some(DigitsValue(s[..4])));
    var p' := p.(month := Some(-(DigitsValue(s[6..]) as int)));
    var sec := IsoPartial[1..][0].section;
    assert Run(s, |s|, sec[2..], names, locale, p') == Some((p', |s|));
    assert Run(s, 5, sec[1..], names, locale, p) == Run(s, |s|, sec[2..], names, locale, p');
    assert Run(s, 4, sec, names, locale, p) == Some((p', |s|));
    assert Run(s, 4, IsoPartial[1..], names, locale, p) == Some((p', |s|));
  }

  /** A year, a dash and a 19-digit month beyond `Long.MAX_VALUE`: the
      month field stops one digit short, the optional day section cannot
      start at that digit, and the text is not consumed, so the parse
      fails. */
  lemma IsoMonthOverflow(s: string, names: MonthNames, locale: Locale)
    requires |s| == 5 + MaxWidth && AllDigits(s[..4]) && s[4] == '-' && AllDigits(s[5..])
    requires !FitsLong(s[5..])
    ensures Parse(s, IsoPartial, names, locale).None?
  {
    assert s[0..4] == s[..4];
    YearAtFour(s, 0);
    assert s[5..] == s[5..5 + MaxWidth];
    NumberAtOverflow(s, 5);
    var p := NothingParsed.(year := Some(DigitsValue(s[..4])));
    var p' := p.(month := Some(DigitsValue(s[5..|s| - 1])));
    var sec := IsoPartial[1..][0].section;
    assert IsDigit(s[5..][|s| - 6]);
    assert Run(s, |s| - 1, sec[2..], names, locale, p') == Some((p', |s| - 1));
    assert Run(s, 4, IsoPartial[1..], names, locale, p) == Some((p', |s| - 1));
  }

  /** A year, a dash and a negative month of 19 digits beyond 2^63
      (`2000--9999999999999999999`): the month is read one digit short and
      the parse fails. */
  lemma IsoNegativeMonthOverflow(s: string, names: MonthNames, locale: Locale)
    requires |s| == 6 + MaxWidth && AllDigits(s[..4]) && s[4] == '-' && s[5] == '-' && AllDigits(s[6..])
    requires DigitsValue(s[6..]) > LongMax + 1
    ensures Parse(s, IsoPartial, names, locale).None?
  {
    assert s[0..4] == s[..4];
    YearAtFour(s, 0);
    assert s[6..] == s[6..6 + MaxWidth];
    DigitRunAtLeast(s, 6, |s|);
    DigitSlice(s, 6, |s| - 1);
    assert DigitsAt(s, 6, LongMax + 1) == Some((DigitsValue(s[6..|s| - 1]), |s| - 1));
    assert DigitsValue(s[6..|s| - 1]) != 0 by {
      assert s[6..][..|s| - 7] == s[6..|s| - 1];
    }
    assert NumberAt(s, 5) == Some((-(DigitsValue(s[6..|s| - 1]) as int), |s| - 1));
    var p := NothingParsed.(year := Some(DigitsValue(s[..4])));
    var p' := p.(month := Some(-(DigitsValue(s[6..|s| - 1]) as int)));
    var sec := IsoPartial[1..][0].section;
    assert IsDigit(s[6..][|s| - 7]);
    assert Run(s, |s| - 1, sec[2..], names, locale, p') == Some((p', |s| - 1));
    assert Run(s, 5, sec[1..], names, locale, p) == Run(s, |s| - 1, sec[2..], names, locale, p');
    assert Run(s, 4, sec, names, locale, p) == Some((p', |s| - 1));
    assert Run(s, 4, IsoPartial[1..], names, locale, p) == Some((p', |s| - 1));
  }

  /** A year, a month number and a day number, dash-separated. */
  lemma IsoDate(s: string, e: nat, names: MonthNames, locale: Locale)
    requires 5 < e < |s| - 1 && e <= 5 + MaxWidth && |s| <= e + 1 + MaxWidth
    requires AllDigits(s[..4]) && s[4] == '-' && AllDigits(s[5..e]) && s[e] == '-' && AllDigits(s[e + 1..])
    requires FitsLong(s[5..e]) && FitsLong(s[e + 1..])
    ensures Parse(s, IsoPartial, names, locale) ==
      Some(Parsed(Some(DigitsValue(s[..4])), Some(DigitsValue(s[5..e])), Some(DigitsValue(s[e + 1..]))))
  {
    assert s[0..4] == s[..4];
    YearAtFour(s, 0);
    var p := NothingParsed.(year := Some(DigitsValue(s[..4])));
    var p'' := p.(month := Some(DigitsValue(s[5..e]))).(day := Some(DigitsValue(s[e + 1..])));
    var sec := IsoPartial[1..][0].section;
    IsoMonthDay(s, e, names, locale, p);
    assert Run(s, 4, sec, names, locale, p) == Some((p'', |s|));
    assert Run(s, 4, IsoPartial[1..], names, locale, p) == Some((p'', |s|));
  }

  /** A year, a month and a day where the month or the day is 19 digits
      beyond `Long.MAX_VALUE`: that field stops one digit short, the text
      is not consumed, and the parse fails. */
  lemma IsoDateOverflow(s: string, e: nat, names: MonthNames, locale: Locale)
    requires 5 < e < |s| - 1 && e <= 5 + MaxWidth && |s| <= e + 1 + MaxWidth
    requires AllDigits(s[..4]) && s[4] == '-' && AllDigits(s[5..e]) && s[e] == '-' && AllDigits(s[e + 1..])
    requires !FitsLong(s[5..e]) || !FitsLong(s[e + 1..])
    ensures Parse(s, IsoPartial, names, locale).None?
  {
    assert s[0..4] == s[..4];
    YearAtFour(s, 0);
    var p := NothingParsed.(year := Some(DigitsValue(s[..4])));
    var sec := IsoPartial[1..][0].section;
    var inner := sec[2..][0].section;
    if !FitsLong(s[5..e]) {
      NumberAtOverflow(s, 5);
      var p' := p.(month := Some(DigitsValue(s[5..e - 1])));
      assert IsDigit(s[5..e][e - 6]);
      assert Run(s, e - 1, inner, names, locale, p').None?;
      assert Run(s, e - 1, sec[2..], names, locale, p') == Some((p', e - 1));
      assert Run(s, 4, IsoPartial[1..], names, locale, p) == Some((p', e - 1));
    } else {
      NumberAtRun(s, 5, e);
      assert s[e + 1..] == s[e + 1..e + 1 + MaxWidth];
      NumberAtOverflow(s, e + 1);
      var p' := p.(month := Some(DigitsValue(s[5..e])));
      var p'' := p'.(day := Some(DigitsValue(s[e + 1..|s| - 1])));
      assert Run(s, e, inner, names, locale, p') == Some((p'', |s| - 1));
      assert Run(s, e, sec[2..], names, locale, p') == Some((p'', |s| - 1));
      assert Run(s, 4, IsoPartial[1..], names, locale, p) == Some((p'', |s| - 1));
    }
  }

  /** The `-M[-d]` part of `yyyy[-M[-d]]` over a month and a day number. */
  lemma IsoMonthDay(s: string, e: nat, names: MonthNames, locale: Locale, p: Parsed)
    requires 5 < e < |s| - 1 && e <= 5 + MaxWidth && |s| <= e + 1 + MaxWidth
    requires AllDigits(s[5..e]) && s[e] == '-' && AllDigits(s[e + 1..])
    requires FitsLong(s[5..e]) && FitsLong(s[e + 1..])
    ensures Run(s, 5, IsoPartial[1..][0].section[1..], names, locale, p)
      == Some((p.(month := Some(DigitsValue(s[5..e]))).(day := Some(DigitsValue(s[e + 1..]))), |s|))
  {
    NumberAtRun(s, 5, e);
    assert s[e + 1..] == s[e + 1..|s|];
    NumberAtRun(s, e + 1, |s|);
    var p' := p.(month := Some(DigitsValue(s[5..e])));
    var p'' := p'.(day := Some(DigitsValue(s[e + 1..])));
    var sec := IsoPartial[1..][0].section;
    var inner := sec[2..][0].section;
    assert Run(s, e + 1, inner[1..], names, locale, p') == Some((p'', |s|));
    assert Run(s, e, inner, names, locale, p') == Some((p'', |s|));
    assert Run(s, e, sec[2..], names, locale, p') == Some((p'', |s|));
  }

  /** A text whose leading digit run is shorter than four has no year at
      its start, so `yyyy[-M[-d]]`, `yyyyMMdd` and `yyyy-MMM-d` all fail. */
  lemma YearFirstFails(s: string, e: nat, names: MonthNames, locale: Locale)
    requires 0 < e < 4 && e <= |s| && AllDigits(s[..e]) && (e == |s| || !IsDigit(s[e]))
    ensures Parse(s, IsoPartial, names, locale).None?
    ensures Parse(s, IsoBasic, names, locale).None?
    ensures forall st :: Parse(s, YearNameDay(st), names, locale).None?
  {
    assert s[..e] == s[0..e];
    YearAtShort(s, 0, e, 0);
    YearAtShort(s, 0, e, 4);
  }

  /** A text starting with a digit has no month name at its start. */
  lemma NameFirstFails(s: string, names: MonthNames, locale: Locale)
    requires WordNames(names) && |s| > 0 && IsDigit(s[0])
    ensures forall st :: Parse(s, NameDayYear(st), names, locale).None?
    ensures Parse(s, NameYear, names, locale).None? && Parse(s, NameOnly, names, locale).None?
  {
    forall st: TextStyle ensures NameAt(s, 0, names(locale, st)).None? {
      NameAtDigit(s, 0, names, locale, st);
    }
  }

  /** A first number of 19 digits beyond `Long.MAX_VALUE` is read one digit
      short, so the dash a `d-…` or `M-…` pattern expects next meets a
      digit and the pattern fails. */
  lemma OverflowBeforeDash(s: string, i: nat, pattern: seq<Element>, names: MonthNames, locale: Locale)
    requires i == MaxWidth && i < |s| && AllDigits(s[..i]) && !FitsLong(s[..i])
    requires |pattern| >= 2 && (pattern[0] == DayNumber || pattern[0] == MonthNumber) && pattern[1] == Dash
    ensures Parse(s, pattern, names, locale).None?
  {
    assert s[..i] == s[0..0 + MaxWidth];
    NumberAtOverflow(s, 0);
    assert IsDigit(s[..i][i - 1]);
    var acc := if pattern[0] == DayNumber then NothingParsed.(day := Some(DigitsValue(s[0..i - 1])))
      else NothingParsed.(month := Some(DigitsValue(s[0..i - 1])));
    assert Run(s, i - 1, pattern[1..], names, locale, acc).None?;
  }

  /** `d-MMM-yyyy` fails where a digit follows the first dash. */
  lemma DayNameFails(s: string, i: nat, names: MonthNames, locale: Locale)
    requires WordNames(names) && 0 < i <= MaxWidth && i + 1 < |s|
    requires AllDigits(s[..i]) && s[i] == '-' && IsDigit(s[i + 1])
    ensures forall st :: Parse(s, DayNameYear(st), names, locale).None?
  {
    assert s[..i] == s[0..i];
    forall st: TextStyle ensures Parse(s, DayNameYear(st), names, locale).None? {
      if FitsLong(s[..i]) {
        NumberAtRun(s, 0, i);
        NameAtDigit(s, i + 1, names, locale, st);
        var p := NothingParsed.(day := Some(DigitsValue(s[..i])));
        assert Run(s, i + 1, DayNameYear(st)[2..], names, locale, p).None?;
        assert Run(s, 0, DayNameYear(st), names, locale, NothingParsed).None?;
      } else {
        OverflowBeforeDash(s, i, DayNameYear(st), names, locale);
      }
    }
  }

  /** Four digits never exceed the largest year. */
  lemma FourDigitsValue(s: string)
    requires |s| == 4 && AllDigits(s)
    ensures DigitsValue(s) <= 9999
  {
    assert s[..3][..2][..1][..0] == [];
    assert DigitsValue(s[..3][..2][..1]) <= 9;
    assert DigitsValue(s[..3][..2]) <= 99;
    assert DigitsValue(s[..3]) <= 999;
  }

  /** `d-MMM-yyyy` fails where no month name follows the first dash. */
  lemma DayNameUnmatched(s: string, i: nat, names: MonthNames, locale: Locale, st: TextStyle)
    requires 0 < i <= MaxWidth && i + 1 < |s| && AllDigits(s[..i]) && s[i] == '-'
    requires NameAt(s, i + 1, names(locale, st)).None?
    ensures Parse(s, DayNameYear(st), names, locale).None?
  {
    assert s[..i] == s[0..i];
    var pattern := DayNameYear(st);
    if FitsLong(s[..i]) {
      NumberAtRun(s, 0, i);
      var p := NothingParsed.(day := Some(DigitsValue(s[..i])));
      assert Step(s, i + 1, pattern[2], names, locale, p).None?;
      assert Run(s, i + 1, pattern[2..], names, locale, p).None?;
      assert Run(s, i, pattern[1..], names, locale, p).None?;
      assert Run(s, 0, pattern, names, locale, NothingParsed).None?;
    } else {
      OverflowBeforeDash(s, i, pattern, names, locale);
    }
  }

  /** `d-M-yyyy` and `M-d-yyyy` fail where neither a digit nor a minus sign
      follows the first dash. */
  lemma SecondNotNumber(s: string, i: nat, names: MonthNames, locale: Locale)
    requires 0 < i <= MaxWidth && i + 1 < |s| && AllDigits(s[..i]) && s[i] == '-' && !IsDigit(s[i + 1]) && s[i + 1] != '-'
    ensures Parse(s, DayMonthYear, names, locale).None? && Parse(s, MonthDayYear, names, locale).None?
  {
    assert s[..i] == s[0..i];
    if FitsLong(s[..i]) {
      NumberAtRun(s, 0, i);
      var p := NothingParsed.(day := Some(DigitsValue(s[..i])));
      assert Run(s, i + 1, DayMonthYear[2..], names, locale, p).None?;
      assert Run(s, 0, DayMonthYear, names, locale, NothingParsed).None?;
      var p' := NothingParsed.(month := Some(DigitsValue(s[..i])));
      assert Run(s, i + 1, MonthDayYear[2..], names, locale, p').None?;
      assert Run(s, 0, MonthDayYear, names, locale, NothingParsed).None?;
    } else {
      OverflowBeforeDash(s, i, DayMonthYear, names, locale);
      OverflowBeforeDash(s, i, MonthDayYear, names, locale);
    }
  }

  /** No name field matches where no name starts with the text's
      character, case aside. */
  lemma NameAtUnlike(s: string, i: nat, list: seq<string>)
    requires i < |s| && forall k :: 0 <= k < |list| ==> |list[k]| > 0 && FoldCase(list[k][0]) != FoldCase(s[i])
    ensures NameAt(s, i, list).None?
  {
    forall k | 0 <= k < |list| ensures !NameMatches(s, i, list[k]) {
      assert FoldCase(s[i + 0]) != FoldCase(list[k][0]);
    }
  }
}
