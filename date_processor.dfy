/** `DateProcessor`: a date or partial date written as free text, read
    into year, month and day by a fixed cascade of patterns. */
module DateProcessing {
  import opened Wrappers
  import opened JavaText
  import opened Diagnostics
  import opened DateFormats

  /** The slots of the output array (`YEAR_IDX`, `MONTH_IDX`, `DAY_IDX`). */
  const YearIdx: nat := 0
  const MonthIdx: nat := 1
  const DayIdx: nat := 2

  /** The three slots, each null or a number. */
  datatype PartialDate = PartialDate(year: Option<int>, month: Option<int>, day: Option<int>)

  const NoDate := PartialDate(None, None, None)

  /** `setPartialDate`: the fields the parsed value has are written, the
      others keep what they held. */
  function SetPartial(d: PartialDate, t: Temporal): (r: PartialDate)
    ensures t.LocalDate? ==> r == PartialDate(Some(t.year), Some(t.month), Some(t.day))
    ensures t.YearMonth? ==> r == PartialDate(Some(t.year), Some(t.month), d.day)
    ensures t.Year? ==> r == PartialDate(Some(t.year), d.month, d.day)
    ensures t.Month? ==> r == PartialDate(d.year, Some(t.month), d.day)
  {
    match t
    case LocalDate(y, m, day) => PartialDate(Some(y), Some(m), Some(day))
    case YearMonth(y, m) => d.(year := Some(y), month := Some(m))
    case Year(y) => d.(year := Some(y))
    case Month(m) => d.(month := Some(m))
  }

  /** Whatever was parsed, at least one slot is filled. */
  lemma SetPartialFills(t: Temporal)
    ensures SetPartial(NoDate, t) != NoDate
  {
  }

  // ---------------------------------------------------------------------
  // Punctuation

  /** The class `[.|/ ,]` of `STANDARDIZE_PUNCT_PATTERN`. */
  predicate IsPunctuation(c: char) {
    c == '.' || c == '|' || c == '/' || c == ' ' || c == ','
  }

  /** `standardizeDatePunctuation` (lines 348-350): every maximal run of
      punctuation replaced by one '-'. */
  function Standardize(s: string): (r: string)
    ensures forall k :: 0 <= k < |r| ==> !IsPunctuation(r[k])
    ensures |r| <= |s|
    decreases |s|
  {
    if |s| == 0 then ""
    else if IsPunctuation(s[0]) then "-" + Standardize(s[RunEnd(s, 0, IsPunctuation)..])
    else [s[0]] + Standardize(s[1..])
  }

  predicate Unpunctuated(s: string) {
    forall k :: 0 <= k < |s| ==> !IsPunctuation(s[k])
  }

  /** Text without punctuation in front passes through unchanged. */
  lemma {:induction false} StandardizePrefix(a: string, rest: string)
    requires Unpunctuated(a)
    ensures Standardize(a + rest) == a + Standardize(rest)
    decreases |a|
  {
    if |a| > 0 {
      assert (a + rest)[0] == a[0] && !IsPunctuation(a[0]);
      assert (a + rest)[1..] == a[1..] + rest;
      StandardizePrefix(a[1..], rest);
      assert Standardize(a + rest) == [a[0]] + Standardize(a[1..] + rest);
      assert a + Standardize(rest) == [a[0]] + (a[1..] + Standardize(rest));
    } else {
      assert a + rest == rest;
    }
  }

  /** Text without punctuation is left as it is. */
  lemma StandardizeUnpunctuated(s: string)
    requires Unpunctuated(s)
    ensures Standardize(s) == s
  {
    StandardizePrefix(s, "");
    assert s + "" == s;
  }

  /** Standardizing twice changes nothing more. */
  lemma StandardizeIdempotent(s: string)
    ensures Standardize(Standardize(s)) == Standardize(s)
  {
    StandardizeUnpunctuated(Standardize(s));
  }

  lemma {:induction false} RunEndAt(s: string, i: nat, e: nat, sep: char -> bool)
    requires i <= e <= |s| && (forall k :: i <= k < e ==> sep(s[k])) && (e == |s| || !sep(s[e]))
    ensures RunEnd(s, i, sep) == e
    decreases e - i
  {
    if i < e {
      RunEndAt(s, i + 1, e, sep);
    }
  }

  /** A run of punctuation between text without any becomes one dash. */
  lemma StandardizeRun(a: string, p: string, b: string)
    requires Unpunctuated(a) && |p| > 0 && (forall k :: 0 <= k < |p| ==> IsPunctuation(p[k]))
    requires b == "" || !IsPunctuation(b[0])
    ensures Standardize(a + p + b) == a + "-" + Standardize(b)
  {
    assert a + p + b == a + (p + b);
    StandardizePrefix(a, p + b);
    RunEndAt(p + b, 0, |p|, IsPunctuation);
    assert (p + b)[|p|..] == b;
  }

  // ---------------------------------------------------------------------
  // Pattern lists

  /** `COMPLETE_DATE_PATTERNS`, in order. */
  const CompleteDatePatterns: seq<seq<Element>> := [
    IsoBasic, NameDayYear(Short), NameDayYear(Full), YearNameDay(Short), YearNameDay(Full),
    DayNameYear(Short), DayNameYear(Full)]

  /** `NON_NUMERICAL_MONTH_COMPLETE_DATE_PATTERNS`, in order. */
  const NamedMonthPatterns: seq<seq<Element>> := [
    DayNameYear(Short), DayNameYear(Full), NameDayYear(Short), NameDayYear(Full),
    YearNameDay(Short), YearNameDay(Full)]

  /** `supportedLocale` as the constructor fills it. */
  const SupportedLocales: seq<Locale> := [French, Spanish]

  /** `tryParseCompleteDate`: the date of the first pattern that reads the
      whole text as a date. */
  function FirstComplete(patterns: seq<seq<Element>>, t: string, names: MonthNames, locale: Locale): (r: Option<Temporal>)
    ensures r.Some? ==> r.value.LocalDate?
    ensures r.Some? <==> exists k :: 0 <= k < |patterns| && ParseAs(t, patterns[k], names, locale, DateQuery).Some?
  {
    if |patterns| == 0 then None
    else match ParseAs(t, patterns[0], names, locale, DateQuery)
      case Some(d) => Some(d)
      case None =>
        var r := FirstComplete(patterns[1..], t, names, locale);
        assert forall k :: 1 <= k < |patterns| ==> patterns[k] == patterns[1..][k - 1];
        r
  }

  /** A pattern tried in each of `locales` in turn. */
  function InLocales(pattern: seq<Element>, locales: seq<Locale>, t: string, names: MonthNames): (r: Option<Temporal>)
    ensures r.Some? ==> r.value.LocalDate?
    ensures r.Some? <==> exists l :: 0 <= l < |locales| && ParseAs(t, pattern, names, locales[l], DateQuery).Some?
  {
    if |locales| == 0 then None
    else match ParseAs(t, pattern, names, locales[0], DateQuery)
      case Some(d) => Some(d)
      case None =>
        var r := InLocales(pattern, locales[1..], t, names);
        assert forall l :: 1 <= l < |locales| ==> locales[l] == locales[1..][l - 1];
        r
  }

  /** `tryParseWithSupportedLocale`: each pattern in each locale, patterns
      outermost. */
  function WithLocales(patterns: seq<seq<Element>>, locales: seq<Locale>, t: string, names: MonthNames): (r: Option<Temporal>)
    ensures r.Some? ==> r.value.LocalDate?
    ensures r.Some? <==> exists k :: 0 <= k < |patterns| && InLocales(patterns[k], locales, t, names).Some?
  {
    if |patterns| == 0 then None
    else match InLocales(patterns[0], locales, t, names)
      case Some(d) => Some(d)
      case None =>
        var r := WithLocales(patterns[1..], locales, t, names);
        assert forall k :: 1 <= k < |patterns| ==> patterns[k] == patterns[1..][k - 1];
        r
  }

  // ---------------------------------------------------------------------
  // Roman numeral months

  /** `[.\-/ ]` */
  predicate IsRomanSeparator(c: char) {
    c == '.' || c == '-' || c == '/' || c == ' '
  }

  /** `[XVI]` under CASE_INSENSITIVE (ASCII). */
  predicate IsRomanLetter(c: char) {
    c == 'X' || c == 'V' || c == 'I' || c == 'x' || c == 'v' || c == 'i'
  }

  /** `\d[.\-/ ]([XVI]+)[.\-/ ]\d` matching at `i`: the end of the numeral.
      The greedy `+` takes the whole run of letters, and a shorter run
      would be followed by a letter, not a separator. */
  function RomanAt(t: string, i: nat): (r: Option<nat>)
    ensures r.Some? ==> i + 2 < r.value && r.value + 1 < |t|
  {
    if i + 2 < |t| && IsDigit(t[i]) && IsRomanSeparator(t[i + 1]) && IsRomanLetter(t[i + 2]) then
      var e := RunEnd(t, i + 2, IsRomanLetter);
      if e + 1 < |t| && IsRomanSeparator(t[e]) && IsDigit(t[e + 1]) then Some(e) else None
    else None
  }

  /** `find()`: the leftmost match at or after `i`, as the numeral's start
      and end. */
  function FindRoman(t: string, i: nat): (r: Option<(nat, nat)>)
    ensures r.Some? ==> i + 2 <= r.value.0 < r.value.1 < |t| && RomanAt(t, r.value.0 - 2) == Some(r.value.1)
    ensures r.Some? ==> forall k :: i <= k < r.value.0 - 2 ==> RomanAt(t, k).None?
    ensures r.None? ==> forall k :: i <= k ==> RomanAt(t, k).None?
    decreases |t| - i
  {
    if |t| <= i + 2 then None
    else match RomanAt(t, i)
      case Some(e) => Some((i + 2, e))
      case None => FindRoman(t, i + 1)
  }

  /** What the Roman-numeral attempt yields: a date, and the error it
      reports when the numeral cannot be read. */
  datatype RomanOutcome = RomanOutcome(date: Option<Temporal>, errors: seq<Diagnostic>)

  /** `processRomanNumeralDate` (lines 361-393) on the standardized text
      `t`. `toInt` is `new RomanNumeral(numeral).toInt()`, with `None` for
      its NumberFormatException. The numeral's value replaces every
      occurrence of the numeral, then `d-M-yyyy` and `yyyy[-M[-d]]` are
      tried as dates. */
  function RomanDate(t: string, names: MonthNames, toInt: string -> Option<int>): RomanOutcome {
    match FindRoman(t, 0)
    case None => RomanOutcome(None, [])
    case Some((a, e)) =>
      var numeral := t[a..e];
      match toInt(numeral)
      case None => RomanOutcome(None, [Diagnostic(DateRomanNumeralUnprocessable, t)])
      case Some(v) =>
        var newText := Standardize(ReplaceAll(t, numeral, IntToString(v)));
        match ParseAs(newText, DayMonthYear, names, Us, DateQuery)
        case Some(d) => RomanOutcome(Some(d), [])
        case None => RomanOutcome(ParseAs(newText, IsoPartial, names, Us, DateQuery), [])
  }

  /** The attempt gives a date and no error, or no date and at most the
      one error about the numeral; the error comes exactly when there is a
      numeral that `toInt` refuses. */
  lemma RomanDateShape(t: string, names: MonthNames, toInt: string -> Option<int>)
    ensures var r := RomanDate(t, names, toInt);
      (r.date.Some? ==> r.errors == [])
      && (r.errors == [] || r.errors == [Diagnostic(DateRomanNumeralUnprocessable, t)])
      && (r.errors != [] <==> FindRoman(t, 0).Some? && toInt(t[FindRoman(t, 0).value.0..FindRoman(t, 0).value.1]).None?)
  {
  }

  // ---------------------------------------------------------------------
  // The cascade

  /** The output array and the errors `process` appends. */
  datatype Outcome = Outcome(date: PartialDate, errors: seq<Diagnostic>)

  /** `process(dateText, result)` (lines 222-310). */
  function DateOf(text: string, names: MonthNames, toInt: string -> Option<int>): (r: Outcome)
    ensures IsBlank(text) ==> r == Outcome(NoDate, [])
  {
    if IsBlank(text) then Outcome(NoDate, []) else Cascade(Standardize(text), names, toInt)
  }

  /** Lines 230-258 on the standardized text: the ISO partial date, a
      complete date, a month and year, a month. */
  function Cascade(t: string, names: MonthNames, toInt: string -> Option<int>): Outcome {
    match ParseBest(t, IsoPartial, names, Us, IsoQueries)
    case Some(x) => Outcome(SetPartial(NoDate, x), [])
    case None =>
    match FirstComplete(CompleteDatePatterns, t, names, Us)
    case Some(x) => Outcome(SetPartial(NoDate, x), [])
    case None =>
    match ParseAs(t, NameYear, names, Us, YearMonthQuery)
    case Some(x) => Outcome(SetPartial(NoDate, x), [])
    case None =>
    match ParseAs(t, NameOnly, names, Us, MonthQuery)
    case Some(x) => Outcome(SetPartial(NoDate, x), [])
    case None => Fuzzy(t, names, toInt)
  }

  /** Lines 260-309: the two numeric readings, refused when both succeed
      with different dates; then the Roman numeral, the other locales, and
      the unprocessable error. */
  function Fuzzy(t: string, names: MonthNames, toInt: string -> Option<int>): Outcome {
    var le := ParseAs(t, DayMonthYear, names, Us, DateQuery);
    var me := ParseAs(t, MonthDayYear, names, Us, DateQuery);
    if le.Some? && me.Some? && le != me then Outcome(NoDate, [Diagnostic(DateVague, t)])
    else if le.Some? then Outcome(SetPartial(NoDate, le.value), [])
    else if me.Some? then Outcome(SetPartial(NoDate, me.value), [])
    else Unread(t, names, toInt)
  }

  /** Lines 293-309, when neither numeric reading applies: the Roman
      numeral, the other locales, then the unprocessable error. */
  function Unread(t: string, names: MonthNames, toInt: string -> Option<int>): Outcome {
    var roman := RomanDate(t, names, toInt);
    if roman.date.Some? then Outcome(SetPartial(NoDate, roman.date.value), roman.errors)
    else match WithLocales(NamedMonthPatterns, SupportedLocales, t, names)
      case Some(x) => Outcome(SetPartial(NoDate, x), roman.errors)
      case None => Outcome(NoDate, roman.errors + [Diagnostic(DateUnprocessable, t)])
  }

  /** The attempts of lines 230-258, in the order `process` makes them. */
  function EarlyAttempts(t: string, names: MonthNames): (r: seq<Option<Temporal>>)
    ensures |r| == 4
  {
    [ParseBest(t, IsoPartial, names, Us, IsoQueries), FirstComplete(CompleteDatePatterns, t, names, Us),
     ParseAs(t, NameYear, names, Us, YearMonthQuery), ParseAs(t, NameOnly, names, Us, MonthQuery)]
  }

  /** The first attempt that succeeds decides the output, with no error;
      when none does, the fuzzy stage decides. */
  lemma FirstSuccessDecides(text: string, names: MonthNames, toInt: string -> Option<int>, k: nat)
    requires !IsBlank(text)
    ensures var a := EarlyAttempts(Standardize(text), names);
      k < 4 && a[k].Some? && (forall j :: 0 <= j < k ==> a[j].None?) ==>
        DateOf(text, names, toInt) == Outcome(SetPartial(NoDate, a[k].value), [])
    ensures var a := EarlyAttempts(Standardize(text), names);
      (forall j :: 0 <= j < 4 ==> a[j].None?) ==> DateOf(text, names, toInt) == Fuzzy(Standardize(text), names, toInt)
  {
    var t := Standardize(text);
    assert DateOf(text, names, toInt) == Cascade(t, names, toInt);
    CascadeOrder(t, names, toInt, k);
  }

  lemma CascadeOrder(t: string, names: MonthNames, toInt: string -> Option<int>, k: nat)
    ensures var a := EarlyAttempts(t, names);
      k < 4 && a[k].Some? && (forall j :: 0 <= j < k ==> a[j].None?) ==>
        Cascade(t, names, toInt) == Outcome(SetPartial(NoDate, a[k].value), [])
    ensures var a := EarlyAttempts(t, names);
      (forall j :: 0 <= j < 4 ==> a[j].None?) ==> Cascade(t, names, toInt) == Fuzzy(t, names, toInt)
  {
    var a := EarlyAttempts(t, names);
    if forall j :: 0 <= j < 4 ==> a[j].None? {
      assert a[0].None? && a[1].None? && a[2].None? && a[3].None?;
    }
    if k < 4 && a[k].Some? && (forall j :: 0 <= j < k ==> a[j].None?) {
      if k > 0 { assert a[0].None?; }
      if k > 1 { assert a[1].None?; }
      if k > 2 { assert a[2].None?; }
    }
  }

  /** The errors that say why a value gave nothing. */
  predicate EndsReported(errors: seq<Diagnostic>, t: string) {
    |errors| > 0 && errors[|errors| - 1] in {Diagnostic(DateVague, t), Diagnostic(DateUnprocessable, t)}
  }

  lemma FuzzyReported(t: string, names: MonthNames, toInt: string -> Option<int>)
    ensures var r := Fuzzy(t, names, toInt);
      (r.date != NoDate ==> forall e :: e in r.errors ==> e == Diagnostic(DateRomanNumeralUnprocessable, t))
      && (r.date == NoDate <==> EndsReported(r.errors, t))
  {
    var le := ParseAs(t, DayMonthYear, names, Us, DateQuery);
    var me := ParseAs(t, MonthDayYear, names, Us, DateQuery);
    if le.Some? && me.Some? && le != me {
    } else if le.Some? {
      SetPartialFills(le.value);
    } else if me.Some? {
      SetPartialFills(me.value);
    } else {
      UnreadReported(t, names, toInt);
    }
  }

  lemma UnreadReported(t: string, names: MonthNames, toInt: string -> Option<int>)
    ensures var r := Unread(t, names, toInt);
      (r.date != NoDate ==> forall e :: e in r.errors ==> e == Diagnostic(DateRomanNumeralUnprocessable, t))
      && (r.date == NoDate <==> EndsReported(r.errors, t))
  {
    var roman := RomanDate(t, names, toInt);
    RomanDateShape(t, names, toInt);
    var r := Unread(t, names, toInt);
    if roman.date.Some? {
      SetPartialFills(roman.date.value);
      assert r == Outcome(SetPartial(NoDate, roman.date.value), []);
    } else {
      LocalesReported(t, roman.errors, WithLocales(NamedMonthPatterns, SupportedLocales, t, names));
    }
  }

  /** The last two steps of `Unread`, given what the other locales found. */
  lemma LocalesReported(t: string, errors: seq<Diagnostic>, found: Option<Temporal>)
    requires errors == [] || errors == [Diagnostic(DateRomanNumeralUnprocessable, t)]
    ensures var r := match found
        case Some(x) => Outcome(SetPartial(NoDate, x), errors)
        case None => Outcome(NoDate, errors + [Diagnostic(DateUnprocessable, t)]);
      (r.date != NoDate ==> forall e :: e in r.errors ==> e == Diagnostic(DateRomanNumeralUnprocessable, t))
      && (r.date == NoDate <==> EndsReported(r.errors, t))
  {
    match found
    case Some(x) =>
      SetPartialFills(x);
    case None =>
      var all := errors + [Diagnostic(DateUnprocessable, t)];
      assert all[|all| - 1] == Diagnostic(DateUnprocessable, t);
  }

  /** The stages before the fuzzy one either fill a slot with no error or
      leave the outcome to the fuzzy stage. */
  lemma CascadeReported(t: string, names: MonthNames, toInt: string -> Option<int>)
    ensures var r := Cascade(t, names, toInt);
      (r.date != NoDate ==> forall e :: e in r.errors ==> e == Diagnostic(DateRomanNumeralUnprocessable, t))
      && (r.date == NoDate <==> EndsReported(r.errors, t))
  {
    match ParseBest(t, IsoPartial, names, Us, IsoQueries)
    case Some(x) => SetPartialFills(x);
    case None =>
    match FirstComplete(CompleteDatePatterns, t, names, Us)
    case Some(x) => SetPartialFills(x);
    case None =>
    match ParseAs(t, NameYear, names, Us, YearMonthQuery)
    case Some(x) => SetPartialFills(x);
    case None =>
    match ParseAs(t, NameOnly, names, Us, MonthQuery)
    case Some(x) => SetPartialFills(x);
    case None => FuzzyReported(t, names, toInt);
  }

  /** A value that is not blank either gives a date, with no error but
      perhaps the Roman numeral's, or gives nothing and ends with an error
      saying why: vague or unprocessable. */
  lemma OutcomeReported(text: string, names: MonthNames, toInt: string -> Option<int>)
    requires !IsBlank(text)
    ensures var r := DateOf(text, names, toInt); var t := Standardize(text);
      (r.date != NoDate ==> forall e :: e in r.errors ==> e == Diagnostic(DateRomanNumeralUnprocessable, t))
      && (r.date == NoDate <==> EndsReported(r.errors, t))
  {
    CascadeReported(Standardize(text), names, toInt);
  }

  /** `validateBean` (lines 181-211): valid when any slot is filled, or
      when the value is optional and blank. */
  function DateIsValid(text: string, isMandatory: bool, names: MonthNames, toInt: string -> Option<int>): (valid: bool)
    ensures valid <==> DateOf(text, names, toInt).date != NoDate || (!isMandatory && IsBlank(text))
  {
    var d := DateOf(text, names, toInt).date;
    d.year.Some? || d.month.Some? || d.day.Some? || (!isMandatory && IsBlank(text))
  }

  /** A value is valid exactly when its processing reported no vague or
      unprocessable date, and it is not a blank mandatory value. */
  lemma ValidUnlessReported(text: string, isMandatory: bool, names: MonthNames, toInt: string -> Option<int>)
    ensures var r := DateOf(text, names, toInt); var t := Standardize(text);
      DateIsValid(text, isMandatory, names, toInt) <==>
        (IsBlank(text) && !isMandatory) || (!IsBlank(text) && !EndsReported(r.errors, t))
  {
    if !IsBlank(text) {
      OutcomeReported(text, names, toInt);
    }
  }

  // ---------------------------------------------------------------------
  // The processor

  /** The output array's slots as a partial date. */
  function PartialOf(slots: seq<Option<int>>): PartialDate
    requires |slots| == 3
  {
    PartialDate(slots[YearIdx], slots[MonthIdx], slots[DayIdx])
  }

  function Slots(d: PartialDate): (r: seq<Option<int>>)
    ensures |r| == 3 && PartialOf(r) == d
  {
    [d.year, d.month, d.day]
  }

  /** `DateProcessor` with its English default locale and the two locales
      the constructor adds. `names` is the locale data behind the month-name
      fields and `toInt` is `RomanNumeral.toInt`, neither of which is part of
      this model. */
  class DateProcessor {
    const names: MonthNames
    const toInt: string -> Option<int>
    const supportedLocale: seq<Locale> := SupportedLocales

    /** Lines 132-141, without the bean property names. */
    constructor(names: MonthNames, toInt: string -> Option<int>)
      ensures this.names == names && this.toInt == toInt
    {
      this.names := names;
      this.toInt := toInt;
    }

    /** `process(dateText, result)` (lines 222-310): a new array of three
        slots holding the year, month and day read from the text, and the
        errors of the attempt appended to `result`. */
    method Process(dateText: string, result: ProcessingResult?) returns (output: array<Option<int>>)
      modifies Frame(result)
      ensures fresh(output) && output[..] == Slots(DateOf(dateText, names, toInt).date)
      ensures Errors(result) == old(Errors(result)) + (if result == null then [] else DateOf(dateText, names, toInt).errors)
    {
      output := new Option<int>[3](_ => None);
      assert output[..] == Slots(NoDate);
      if IsBlank(dateText) {
        return;
      }
      var t := Standardize(dateText);
      ghost var outcome := Cascade(t, names, toInt);
      assert DateOf(dateText, names, toInt) == outcome;
      var iso := ParseBest(t, IsoPartial, names, Us, IsoQueries);
      if iso.Some? {
        SetPartialDate(output, iso.value);
        return;
      }
      var localDate := TryParseCompleteDate(CompleteDatePatterns, t);
      if localDate.Some? {
        SetPartialDate(output, localDate.value);
        return;
      }
      var monthYear := ParseAs(t, NameYear, names, Us, YearMonthQuery);
      if monthYear.Some? {
        SetPartialDate(output, monthYear.value);
        return;
      }
      var month := ParseAs(t, NameOnly, names, Us, MonthQuery);
      if month.Some? {
        SetPartialDate(output, month.value);
        return;
      }
      ProcessFuzzy(t, output, result);
    }

    /** Lines 262-309 of `process`, on the standardized text: the two
        numeric readings, the Roman numeral, the other locales, and the
        error when nothing reads the text. */
    method ProcessFuzzy(t: string, output: array<Option<int>>, result: ProcessingResult?)
      requires output.Length == 3 && output[..] == Slots(NoDate)
      modifies output, Frame(result)
      ensures output[..] == Slots(Fuzzy(t, names, toInt).date)
      ensures Errors(result) == old(Errors(result)) + (if result == null then [] else Fuzzy(t, names, toInt).errors)
    {
      var le := ParseAs(t, DayMonthYear, names, Us, DateQuery);
      var me := ParseAs(t, MonthDayYear, names, Us, DateQuery);
      if le.Some? && me.Some? && le != me {
        Report(result, [Diagnostic(DateVague, t)]);
        return;
      }
      if le.Some? {
        SetPartialDate(output, le.value);
        return;
      }
      if me.Some? {
        SetPartialDate(output, me.value);
        return;
      }
      ProcessUnread(t, output, result);
    }

    /** Lines 293-309: the Roman numeral, the other locales, and the error
        when nothing reads the text. */
    method ProcessUnread(t: string, output: array<Option<int>>, result: ProcessingResult?)
      requires output.Length == 3 && output[..] == Slots(NoDate)
      modifies output, Frame(result)
      ensures output[..] == Slots(Unread(t, names, toInt).date)
      ensures Errors(result) == old(Errors(result)) + (if result == null then [] else Unread(t, names, toInt).errors)
    {
      ghost var roman := RomanDate(t, names, toInt);
      var found := ProcessRomanNumeralDate(t, output, result);
      if found {
        return;
      }
      assert output[..] == Slots(NoDate);
      var localDate := TryParseWithSupportedLocale(NamedMonthPatterns, t);
      if localDate.Some? {
        SetPartialDate(output, localDate.value);
        return;
      }
      Report(result, [Diagnostic(DateUnprocessable, t)]);
    }

    /** `validateBean` on the value itself: processes it, errors included. */
    method ValidateBean(dateText: string, isMandatory: bool, result: ProcessingResult?) returns (valid: bool)
      modifies Frame(result)
      ensures valid == DateIsValid(dateText, isMandatory, names, toInt)
      ensures Errors(result) == old(Errors(result)) + (if result == null then [] else DateOf(dateText, names, toInt).errors)
    {
      var output := Process(dateText, result);
      if output[0].Some? || output[1].Some? || output[2].Some? {
        return true;
      }
      valid := !isMandatory && IsBlank(dateText);
    }

    /** `setPartialDate` (lines 319-340): writes the slots the parsed value
        has and leaves the others. */
    method SetPartialDate(partialDate: array<Option<int>>, cal: Temporal)
      requires partialDate.Length == 3
      modifies partialDate
      ensures partialDate[..] == Slots(SetPartial(PartialOf(old(partialDate[..])), cal))
    {
      match cal
      case LocalDate(y, m, d) =>
        partialDate[DayIdx] := Some(d);
        partialDate[MonthIdx] := Some(m);
        partialDate[YearIdx] := Some(y);
      case YearMonth(y, m) =>
        partialDate[MonthIdx] := Some(m);
        partialDate[YearIdx] := Some(y);
      case Year(y) =>
        partialDate[YearIdx] := Some(y);
      case Month(m) =>
        partialDate[MonthIdx] := Some(m);
    }

    /** `processRomanNumeralDate` (lines 361-393): true, with the date
        written into `output`, when the text reads as a date once its Roman
        numeral is replaced by its value; the numeral's error is reported
        when `toInt` refuses it. */
    method ProcessRomanNumeralDate(dateText: string, output: array<Option<int>>, result: ProcessingResult?)
      returns (found: bool)
      requires output.Length == 3
      modifies output, Frame(result)
      ensures var r := RomanDate(dateText, names, toInt);
        found == r.date.Some?
        && output[..] == (if found then Slots(SetPartial(PartialOf(old(output[..])), r.date.value)) else old(output[..]))
        && Errors(result) == old(Errors(result)) + (if result == null then [] else r.errors)
    {
      var m := FindRoman(dateText, 0);
      if m.Some? {
        var romNum := dateText[m.value.0..m.value.1];
        var intValue := toInt(romNum);
        if intValue.None? {
          Report(result, [Diagnostic(DateRomanNumeralUnprocessable, dateText)]);
          return false;
        }
        var newTextDate := Standardize(ReplaceAll(dateText, romNum, IntToString(intValue.value)));
        var le := ParseAs(newTextDate, DayMonthYear, names, Us, DateQuery);
        if le.Some? {
          SetPartialDate(output, le.value);
          return true;
        }
        var iso := ParseAs(newTextDate, IsoPartial, names, Us, DateQuery);
        if iso.Some? {
          SetPartialDate(output, iso.value);
          return true;
        }
      }
      return false;
    }

    /** `tryParseCompleteDate` (lines 408-419): the patterns in order, the
        first that reads a date wins. */
    method TryParseCompleteDate(patterns: seq<seq<Element>>, dateText: string) returns (localDate: Option<Temporal>)
      ensures localDate == FirstComplete(patterns, dateText, names, Us)
    {
      for i := 0 to |patterns|
        invariant FirstComplete(patterns, dateText, names, Us) == FirstComplete(patterns[i..], dateText, names, Us)
      {
        assert patterns[i..][1..] == patterns[i + 1..];
        localDate := ParseAs(dateText, patterns[i], names, Us, DateQuery);
        if localDate.Some? {
          return;
        }
      }
      return None;
    }

    /** `tryParseWithSupportedLocale` (lines 429-442): every pattern in
        every supported locale, patterns outermost. */
    method TryParseWithSupportedLocale(patterns: seq<seq<Element>>, dateText: string) returns (localDate: Option<Temporal>)
      ensures localDate == WithLocales(patterns, supportedLocale, dateText, names)
    {
      for i := 0 to |patterns|
        invariant WithLocales(patterns, supportedLocale, dateText, names) == WithLocales(patterns[i..], supportedLocale, dateText, names)
      {
        assert patterns[i..][1..] == patterns[i + 1..];
        for j := 0 to |supportedLocale|
          invariant InLocales(patterns[i], supportedLocale, dateText, names) == InLocales(patterns[i], supportedLocale[j..], dateText, names)
        {
          assert supportedLocale[j..][1..] == supportedLocale[j + 1..];
          localDate := ParseAs(dateText, patterns[i], names, supportedLocale[j], DateQuery);
          if localDate.Some? {
            return;
          }
        }
      }
      return None;
    }
  }

  // ---------------------------------------------------------------------
  // Numeric dates `a-b-yyyy`

  /** The date a day-month reading gives: one when every field is in
      range, with the day cut to the month's length. */
  function Reading(year: nat, month: nat, day: nat): Option<Temporal> {
    if 1 <= year <= MaxYear && 1 <= month <= 12 && 1 <= day <= 31
    then Some(LocalDate(year, month, Min(day, MonthLength(year, month))))
    else None
  }

  /** `d-M-yyyy` reads the first number as the day, `M-d-yyyy` as the month. */
  lemma NumericReadings(s: string, i: nat, j: nat, names: MonthNames, locale: Locale)
    requires NumericShape(s, i, j)
    ensures var a, b, y := DigitsValue(s[..i]), DigitsValue(s[i + 1..j]), DigitsValue(s[j + 1..]);
      ParseAs(s, DayMonthYear, names, locale, DateQuery) == Reading(y, b, a)
      && ParseAs(s, MonthDayYear, names, locale, DateQuery) == Reading(y, a, b)
  {
    DayMonthYearReading(s, i, j, names, locale);
    MonthDayYearReading(s, i, j, names, locale);
  }

  lemma DayMonthYearReading(s: string, i: nat, j: nat, names: MonthNames, locale: Locale)
    requires NumericShape(s, i, j)
    ensures var a, b, y := DigitsValue(s[..i]), DigitsValue(s[i + 1..j]), DigitsValue(s[j + 1..]);
      ParseAs(s, DayMonthYear, names, locale, DateQuery) == Reading(y, b, a)
  {
    DayMonthYearRun(s, i, j, names, locale);
    assert [DateQuery][1..] == [];
  }

  lemma MonthDayYearReading(s: string, i: nat, j: nat, names: MonthNames, locale: Locale)
    requires NumericShape(s, i, j)
    ensures var a, b, y := DigitsValue(s[..i]), DigitsValue(s[i + 1..j]), DigitsValue(s[j + 1..]);
      ParseAs(s, MonthDayYear, names, locale, DateQuery) == Reading(y, a, b)
  {
    MonthDayYearRun(s, i, j, names, locale);
    assert [DateQuery][1..] == [];
  }

  predicate DigitsAndDashes(s: string) {
    forall k :: 0 <= k < |s| ==> IsDigit(s[k]) || s[k] == '-'
  }

  lemma NumericChars(s: string, i: nat, j: nat)
    requires NumericShape(s, i, j)
    ensures DigitsAndDashes(s) && !IsBlank(s) && Unpunctuated(s)
  {
    forall k | 0 <= k < |s| ensures IsDigit(s[k]) || s[k] == '-' {
      if k < i {
        assert s[k] == s[..i][k];
      } else if i < k < j {
        assert s[k] == s[i + 1..j][k - i - 1];
      } else if j < k {
        assert s[k] == s[j + 1..][k - j - 1];
      }
    }
    assert s[0] == s[..i][0];
  }

  /** Without letters there is no Roman numeral. */
  lemma NoRomanNumeral(s: string)
    requires DigitsAndDashes(s)
    ensures FindRoman(s, 0).None?
  {
    forall k: nat ensures RomanAt(s, k).None? {
      if k + 2 < |s| {
        assert !IsRomanLetter(s[k + 2]);
      }
    }
  }

  /** No pattern with a month name, nor `yyyyMMdd`, reads `a-b-yyyy`
      when `a` has fewer than four digits. */
  lemma NoNamedReading(s: string, i: nat, j: nat, names: MonthNames, locale: Locale)
    requires NumericShape(s, i, j) && i < 4 && WordNames(names)
    ensures Parse(s, IsoPartial, names, locale).None? && Parse(s, IsoBasic, names, locale).None?
    ensures Parse(s, NameYear, names, locale).None? && Parse(s, NameOnly, names, locale).None?
    ensures forall st :: (Parse(s, DayNameYear(st), names, locale).None?
      && Parse(s, NameDayYear(st), names, locale).None? && Parse(s, YearNameDay(st), names, locale).None?)
  {
    assert s[0] == s[..i][0];
    assert s[i + 1] == s[i + 1..j][0];
    YearFirstFails(s, i, names, locale);
    NameFirstFails(s, names, locale);
    DayNameFails(s, i, names, locale);
  }

  /** A numeric `a-b-yyyy` with a short first number reaches the fuzzy
      stage unchanged, and there only the two numeric readings can give a
      date: there is no numeral, and no other locale helps. */
  lemma NumericCascade(s: string, i: nat, j: nat, names: MonthNames, toInt: string -> Option<int>)
    requires NumericShape(s, i, j) && i < 4 && WordNames(names)
    ensures DateOf(s, names, toInt) == Fuzzy(s, names, toInt)
    ensures RomanDate(s, names, toInt) == RomanOutcome(None, [])
    ensures WithLocales(NamedMonthPatterns, SupportedLocales, s, names).None?
  {
    NumericChars(s, i, j);
    StandardizeUnpunctuated(s);
    NoRomanNumeral(s);
    NumericNotComplete(s, i, j, names);
    NumericNotNamed(s, i, j, names);
  }

  lemma NumericNotComplete(s: string, i: nat, j: nat, names: MonthNames)
    requires NumericShape(s, i, j) && i < 4 && WordNames(names)
    ensures ParseBest(s, IsoPartial, names, Us, IsoQueries).None?
    ensures FirstComplete(CompleteDatePatterns, s, names, Us).None?
    ensures ParseAs(s, NameYear, names, Us, YearMonthQuery).None? && ParseAs(s, NameOnly, names, Us, MonthQuery).None?
  {
    NoNamedReading(s, i, j, names, Us);
    NoCompleteDate(s, names, Us);
  }

  lemma NumericNotNamed(s: string, i: nat, j: nat, names: MonthNames)
    requires NumericShape(s, i, j) && i < 4 && WordNames(names)
    ensures WithLocales(NamedMonthPatterns, SupportedLocales, s, names).None?
  {
    NoNamedReading(s, i, j, names, French);
    NoNamedReading(s, i, j, names, Spanish);
    NoLocaleReading(s, names);
  }

  /** No complete date pattern reads `t` when none of them parses it. */
  lemma NoCompleteDate(t: string, names: MonthNames, locale: Locale)
    requires Parse(t, IsoBasic, names, locale).None?
    requires forall st :: (Parse(t, DayNameYear(st), names, locale).None?
      && Parse(t, NameDayYear(st), names, locale).None? && Parse(t, YearNameDay(st), names, locale).None?)
    ensures FirstComplete(CompleteDatePatterns, t, names, locale).None?
  {
    assert Parse(t, DayNameYear(Short), names, locale).None? && Parse(t, DayNameYear(Full), names, locale).None?;
    assert Parse(t, NameDayYear(Short), names, locale).None? && Parse(t, NameDayYear(Full), names, locale).None?;
    assert Parse(t, YearNameDay(Short), names, locale).None? && Parse(t, YearNameDay(Full), names, locale).None?;
  }

  /** Two numbers that both fit a month, read differently, make the date
      vague: nothing is kept and the error says so (`8-11-2003`). */
  lemma AmbiguousDate(s: string, i: nat, j: nat, names: MonthNames, toInt: string -> Option<int>)
    requires NumericShape(s, i, j) && i < 4 && WordNames(names)
    requires var a, b := DigitsValue(s[..i]), DigitsValue(s[i + 1..j]); 1 <= a <= 12 && 1 <= b <= 12 && a != b
    requires DigitsValue(s[j + 1..]) >= 1
    ensures DateOf(s, names, toInt) == Outcome(NoDate, [Diagnostic(DateVague, s)])
  {
    NumericCascade(s, i, j, names, toInt);
    NumericReadings(s, i, j, names, Us);
    FourDigitsValue(s[j + 1..]);
  }

  /** The same number twice reads the same either way and is accepted
      (`8-8-2010`). */
  lemma SameDayAndMonth(s: string, i: nat, j: nat, names: MonthNames, toInt: string -> Option<int>)
    requires NumericShape(s, i, j) && i < 4 && WordNames(names)
    requires var a := DigitsValue(s[..i]); 1 <= a <= 12 && DigitsValue(s[i + 1..j]) == a
    requires DigitsValue(s[j + 1..]) >= 1
    ensures var a, y := DigitsValue(s[..i]), DigitsValue(s[j + 1..]);
      DateOf(s, names, toInt) == Outcome(PartialDate(Some(y), Some(a), Some(a)), [])
  {
    NumericCascade(s, i, j, names, toInt);
    NumericReadings(s, i, j, names, Us);
    FourDigitsValue(s[j + 1..]);
  }

  /** A first number past 12 can only be the day (`13-10-2012`); a day past
      the end of the month is cut to its last day. */
  lemma DayFirstOnly(s: string, i: nat, j: nat, names: MonthNames, toInt: string -> Option<int>)
    requires NumericShape(s, i, j) && i < 4 && WordNames(names)
    requires var a, b := DigitsValue(s[..i]), DigitsValue(s[i + 1..j]); 13 <= a <= 31 && 1 <= b <= 12
    requires DigitsValue(s[j + 1..]) >= 1
    ensures var a, b, y := DigitsValue(s[..i]), DigitsValue(s[i + 1..j]), DigitsValue(s[j + 1..]);
      DateOf(s, names, toInt) == Outcome(PartialDate(Some(y), Some(b), Some(Min(a, MonthLength(y, b)))), [])
  {
    NumericCascade(s, i, j, names, toInt);
    NumericReadings(s, i, j, names, Us);
    FourDigitsValue(s[j + 1..]);
  }

  /** A second number past 12 can only be the day (`10-13-2012`). */
  lemma MonthFirstOnly(s: string, i: nat, j: nat, names: MonthNames, toInt: string -> Option<int>)
    requires NumericShape(s, i, j) && i < 4 && WordNames(names)
    requires var a, b := DigitsValue(s[..i]), DigitsValue(s[i + 1..j]); 1 <= a <= 12 && 13 <= b <= 31
    requires DigitsValue(s[j + 1..]) >= 1
    ensures var a, b, y := DigitsValue(s[..i]), DigitsValue(s[i + 1..j]), DigitsValue(s[j + 1..]);
      DateOf(s, names, toInt) == Outcome(PartialDate(Some(y), Some(a), Some(Min(b, MonthLength(y, a)))), [])
  {
    NumericCascade(s, i, j, names, toInt);
    NumericReadings(s, i, j, names, Us);
    FourDigitsValue(s[j + 1..]);
  }

  /** A numeric date is unprocessable exactly when neither reading is in
      range: year 0, a number outside 1..31, or two numbers past 12. */
  lemma NumericUnprocessable(s: string, i: nat, j: nat, names: MonthNames, toInt: string -> Option<int>)
    requires NumericShape(s, i, j) && i < 4 && WordNames(names)
    ensures var a, b, y := DigitsValue(s[..i]), DigitsValue(s[i + 1..j]), DigitsValue(s[j + 1..]);
      DateOf(s, names, toInt) == Outcome(NoDate, [Diagnostic(DateUnprocessable, s)])
      <==> y == 0 || a < 1 || a > 31 || b < 1 || b > 31 || (a > 12 && b > 12)
  {
    NumericCascade(s, i, j, names, toInt);
    NumericReadings(s, i, j, names, Us);
    FourDigitsValue(s[j + 1..]);
    forall x: Temporal ensures SetPartial(NoDate, x) != NoDate {
      SetPartialFills(x);
    }
  }

  // ---------------------------------------------------------------------
  // ISO 8601 dates `yyyy[-M[-d]]`

  /** Digits and dashes are left alone by the punctuation step. */
  lemma DashedText(s: string)
    requires |s| > 0 && IsDigit(s[0]) && DigitsAndDashes(s)
    ensures !IsBlank(s) && Standardize(s) == s
  {
    StandardizeUnpunctuated(s);
  }

  /** What the ISO step reads is the answer, with no error. */
  lemma IsoFirst(s: string, names: MonthNames, toInt: string -> Option<int>, x: Temporal)
    requires |s| > 0 && IsDigit(s[0]) && DigitsAndDashes(s)
    requires ParseBest(s, IsoPartial, names, Us, IsoQueries) == Some(x)
    ensures DateOf(s, names, toInt) == Outcome(SetPartial(NoDate, x), [])
  {
    DashedText(s);
  }

  /** A four-digit year alone is the year, with no month and no day
      (`1987`). */
  lemma IsoYearText(s: string, names: MonthNames, toInt: string -> Option<int>)
    requires |s| == 4 && AllDigits(s) && DigitsValue(s) >= 1
    ensures DateOf(s, names, toInt) == Outcome(PartialDate(Some(DigitsValue(s)), None, None), [])
  {
    var y := DigitsValue(s);
    assert ParseBest(s, IsoPartial, names, Us, IsoQueries) == Some(Year(y)) by {
      IsoYearOnly(s, names, Us);
      FourDigitsValue(s);
      var p := Parsed(Some(y), None, None);
      assert IsoQueries[1..] == [YearMonthQuery, YearQuery] && IsoQueries[1..][1..] == [YearQuery];
      assert FirstAnswer(p, [YearQuery]) == Some(Year(y));
      assert FirstAnswer(p, IsoQueries) == FirstAnswer(p, [YearMonthQuery, YearQuery]) == FirstAnswer(p, [YearQuery]);
    }
    IsoFirst(s, names, toInt, Year(y));
  }

  /** A year and a month number (`1987-07`). */
  lemma IsoYearMonthText(s: string, names: MonthNames, toInt: string -> Option<int>)
    requires 5 < |s| <= 5 + MaxWidth && AllDigits(s[..4]) && s[4] == '-' && AllDigits(s[5..])
    requires DigitsValue(s[..4]) >= 1 && 1 <= DigitsValue(s[5..]) <= 12
    ensures DateOf(s, names, toInt) ==
      Outcome(PartialDate(Some(DigitsValue(s[..4])), Some(DigitsValue(s[5..])), None), [])
  {
    forall k | 0 <= k < |s| ensures IsDigit(s[k]) || s[k] == '-' {
      if k < 4 {
        assert s[k] == s[..4][k];
      } else if k > 4 {
        assert s[k] == s[5..][k - 5];
      }
    }
    assert s[0] == s[..4][0];
    var y, m := DigitsValue(s[..4]), DigitsValue(s[5..]);
    assert ParseBest(s, IsoPartial, names, Us, IsoQueries) == Some(YearMonth(y, m)) by {
      IsoYearMonth(s, names, Us);
      FourDigitsValue(s[..4]);
      var p := Parsed(Some(y), Some(m), None);
      assert IsoQueries[1..] == [YearMonthQuery, YearQuery];
      assert FirstAnswer(p, [YearMonthQuery, YearQuery]) == Some(YearMonth(y, m));
      assert FirstAnswer(p, IsoQueries) == FirstAnswer(p, [YearMonthQuery, YearQuery]);
    }
    IsoFirst(s, names, toInt, YearMonth(y, m));
  }

  /** A year and a month number outside 1 to 12 (`1987-00`): resolution
      leaves a month without a day unchecked, the year-month query refuses
      it, and the year alone is the answer, with no error. */
  lemma IsoMonthUnchecked(s: string, names: MonthNames, toInt: string -> Option<int>)
    requires 5 < |s| <= 5 + MaxWidth && AllDigits(s[..4]) && s[4] == '-' && AllDigits(s[5..])
    requires DigitsValue(s[..4]) >= 1 && !(1 <= DigitsValue(s[5..]) <= 12) && FitsLong(s[5..])
    ensures DateOf(s, names, toInt) == Outcome(PartialDate(Some(DigitsValue(s[..4])), None, None), [])
  {
    forall k | 0 <= k < |s| ensures IsDigit(s[k]) || s[k] == '-' {
      if k < 4 {
        assert s[k] == s[..4][k];
      } else if k > 4 {
        assert s[k] == s[5..][k - 5];
      }
    }
    assert s[0] == s[..4][0];
    var y, m := DigitsValue(s[..4]), DigitsValue(s[5..]);
    assert ParseBest(s, IsoPartial, names, Us, IsoQueries) == Some(Year(y)) by {
      IsoYearMonth(s, names, Us);
      FourDigitsValue(s[..4]);
      ParseBestFirst(s, IsoPartial, names, Us, IsoQueries, Parsed(Some(y), Some(m), None), 2);
    }
    IsoFirst(s, names, toInt, Year(y));
  }

  /** A year and a negative month number (`1987--5`, which `1987/-5`
      becomes): the month's sign is accepted, resolution leaves the month
      unchecked, and the year alone is the answer, with no error. */
  lemma IsoNegativeMonth(s: string, names: MonthNames, toInt: string -> Option<int>)
    requires 6 < |s| <= 6 + MaxWidth && AllDigits(s[..4]) && s[4] == '-' && s[5] == '-' && AllDigits(s[6..])
    requires DigitsValue(s[..4]) >= 1 && DigitsValue(s[6..]) != 0
    requires |s| < 6 + MaxWidth || DigitsValue(s[6..]) <= LongMax + 1
    ensures DateOf(s, names, toInt) == Outcome(PartialDate(Some(DigitsValue(s[..4])), None, None), [])
  {
    forall k | 0 <= k < |s| ensures IsDigit(s[k]) || s[k] == '-' {
      if k < 4 {
        assert s[k] == s[..4][k];
      } else if k > 5 {
        assert s[k] == s[6..][k - 6];
      }
    }
    assert s[0] == s[..4][0];
    var y, m := DigitsValue(s[..4]), -(DigitsValue(s[6..]) as int);
    assert ParseBest(s, IsoPartial, names, Us, IsoQueries) == Some(Year(y)) by {
      IsoYearNegativeMonth(s, names, Us);
      FourDigitsValue(s[..4]);
      ParseBestFirst(s, IsoPartial, names, Us, IsoQueries, Parsed(Some(y), Some(m), None), 2);
    }
    IsoFirst(s, names, toInt, Year(y));
  }

  /** A year and a 19-digit month beyond `Long.MAX_VALUE`
      (`2000-9999999999999999999`): the month is read one digit short, so
      the ISO attempt fails as a whole and does not even give the year. */
  lemma IsoMonthOverflowRefused(s: string, names: MonthNames)
    requires |s| == 5 + MaxWidth && AllDigits(s[..4]) && s[4] == '-' && AllDigits(s[5..])
    requires !FitsLong(s[5..])
    ensures ParseBest(s, IsoPartial, names, Us, IsoQueries).None?
  {
    IsoMonthOverflow(s, names, Us);
    ParseBestNone(s, IsoPartial, names, Us, IsoQueries);
  }

  /** A full date whose month or day is out of range is refused by the
      resolution as a whole, so no query, not even the year, answers. */
  lemma IsoDateRefused(s: string, e: nat, names: MonthNames)
    requires 5 < e < |s| - 1 && e <= 5 + MaxWidth && |s| <= e + 1 + MaxWidth
    requires AllDigits(s[..4]) && s[4] == '-' && AllDigits(s[5..e]) && s[e] == '-' && AllDigits(s[e + 1..])
    requires !(1 <= DigitsValue(s[5..e]) <= 12) || !(1 <= DigitsValue(s[e + 1..]) <= 31)
    ensures ParseBest(s, IsoPartial, names, Us, IsoQueries).None?
  {
    if FitsLong(s[5..e]) && FitsLong(s[e + 1..]) {
      IsoDate(s, e, names, Us);
    } else {
      IsoDateOverflow(s, e, names, Us);
      ParseBestNone(s, IsoPartial, names, Us, IsoQueries);
    }
  }

  /** A year, a month and a day (`1987-06-03`); a day past the end of the
      month is cut to its last day. */
  lemma IsoDateText(s: string, e: nat, names: MonthNames, toInt: string -> Option<int>)
    requires 5 < e < |s| - 1 && e <= 5 + MaxWidth && |s| <= e + 1 + MaxWidth
    requires AllDigits(s[..4]) && s[4] == '-' && AllDigits(s[5..e]) && s[e] == '-' && AllDigits(s[e + 1..])
    requires DigitsValue(s[..4]) >= 1 && 1 <= DigitsValue(s[5..e]) <= 12 && 1 <= DigitsValue(s[e + 1..]) <= 31
    ensures var y, m := DigitsValue(s[..4]), DigitsValue(s[5..e]);
      DateOf(s, names, toInt) ==
        Outcome(PartialDate(Some(y), Some(m), Some(Min(DigitsValue(s[e + 1..]), MonthLength(y, m)))), [])
  {
    forall k | 0 <= k < |s| ensures IsDigit(s[k]) || s[k] == '-' {
      if k < 4 {
        assert s[k] == s[..4][k];
      } else if 4 < k < e {
        assert s[k] == s[5..e][k - 5];
      } else if e < k {
        assert s[k] == s[e + 1..][k - e - 1];
      }
    }
    assert s[0] == s[..4][0];
    var y, m, d := DigitsValue(s[..4]), DigitsValue(s[5..e]), DigitsValue(s[e + 1..]);
    assert ParseBest(s, IsoPartial, names, Us, IsoQueries) == Some(LocalDate(y, m, Min(d, MonthLength(y, m)))) by {
      IsoDate(s, e, names, Us);
      FourDigitsValue(s[..4]);
    }
    IsoFirst(s, names, toInt, LocalDate(y, m, Min(d, MonthLength(y, m))));
  }

  // ---------------------------------------------------------------------
  // Roman numeral months `d.xi.yyyy`

  /** A number, a separator, a run of Roman letters, a separator and a
      number. */
  predicate RomanShape(a: string, p: char, r: string, q: char, b: string) {
    |a| > 0 && AllDigits(a) && IsRomanSeparator(p)
    && |r| > 0 && (forall k :: 0 <= k < |r| ==> IsRomanLetter(r[k]))
    && IsRomanSeparator(q) && |b| > 0 && AllDigits(b)
  }

  lemma {:induction false} FindRomanFrom(t: string, i: nat, k: nat, e: nat)
    requires i <= k && (forall j :: i <= j < k ==> RomanAt(t, j).None?) && RomanAt(t, k) == Some(e)
    ensures FindRoman(t, i) == Some((k + 2, e))
    decreases k - i
  {
    if i < k {
      assert RomanAt(t, i).None?;
      FindRomanFrom(t, i + 1, k, e);
      assert FindRoman(t, i) == FindRoman(t, i + 1);
    } else {
      assert i + 2 < |t|;
    }
  }

  /** Where the match can start: at the last digit of the first number. */
  lemma RomanAtNumeral(a: string, p: char, r: string, q: char, b: string)
    requires RomanShape(a, p, r, q, b)
    ensures var t := a + [p] + r + [q] + b; RomanAt(t, |a| - 1) == Some(|a| + 1 + |r|)
  {
    var t := a + [p] + r + [q] + b;
    var e := |a| + 1 + |r|;
    assert t[|a| - 1] == a[|a| - 1] && t[|a|] == p && t[|a| + 1] == r[0];
    assert t[e] == q && t[e + 1] == b[0];
    forall k | |a| + 1 <= k < e ensures IsRomanLetter(t[k]) {
      assert t[k] == r[k - |a| - 1];
    }
    RunEndAt(t, |a| + 1, e, IsRomanLetter);
  }

  /** The numeral found is the run of letters between the separators. */
  lemma RomanNumeralFound(a: string, p: char, r: string, q: char, b: string)
    requires RomanShape(a, p, r, q, b)
    ensures var t := a + [p] + r + [q] + b;
      FindRoman(t, 0) == Some((|a| + 1, |a| + 1 + |r|)) && t[|a| + 1..|a| + 1 + |r|] == r
  {
    var t := a + [p] + r + [q] + b;
    forall j | 0 <= j < |a| - 1 ensures RomanAt(t, j).None? {
      assert t[j + 1] == a[j + 1];
    }
    RomanAtNumeral(a, p, r, q, b);
    FindRomanFrom(t, 0, |a| - 1, |a| + 1 + |r|);
  }

  /** A numeral `toInt` refuses gives no date and its one error. */
  lemma RomanNumeralRefused(a: string, p: char, r: string, q: char, b: string, names: MonthNames, toInt: string -> Option<int>)
    requires RomanShape(a, p, r, q, b) && toInt(r).None?
    ensures var t := a + [p] + r + [q] + b;
      RomanDate(t, names, toInt) == RomanOutcome(None, [Diagnostic(DateRomanNumeralUnprocessable, t)])
  {
    RomanNumeralMatched(a, p, r, q, b);
  }

  /** A Roman separator becomes a dash: '-' stays, the others are
      punctuation. */
  lemma SeparatorDash(a: string, c: char, rest: string)
    requires Unpunctuated(a) && IsRomanSeparator(c) && (rest == "" || !IsPunctuation(rest[0]))
    ensures Standardize(a + [c] + rest) == a + "-" + Standardize(rest)
  {
    if c == '-' {
      StandardizePrefix(a + [c], rest);
    } else {
      StandardizeRun(a, [c], rest);
    }
  }

  /** Text of digits and letters only holds no punctuation. */
  lemma DigitsUnpunctuated(s: string)
    requires AllDigits(s)
    ensures Unpunctuated(s)
  {
  }

  /** A value of at most two digits is written with at most two. */
  lemma SmallNumberText(v: nat)
    requires v < 100
    ensures |IntToString(v)| <= 2
  {
    if v >= 10 {
      assert IntToString(v) == NatToString(v / 10) + [DigitChar(v % 10)];
    }
  }

  /** A numeral that `toInt` reads, in a text that then reads as
      `d-M-yyyy`, gives that date. */
  lemma RomanDateRead(a: string, p: char, r: string, q: char, b: string, names: MonthNames,
                      toInt: string -> Option<int>, n: string, x: Temporal)
    requires RomanShape(a, p, r, q, b) && toInt(r).Some?
    requires Standardize(a + [p] + IntToString(toInt(r).value) + [q] + b) == n
    requires ParseAs(n, DayMonthYear, names, Us, DateQuery) == Some(x)
    ensures RomanDate(a + [p] + r + [q] + b, names, toInt) == RomanOutcome(Some(x), [])
  {
    RomanNumeralMatched(a, p, r, q, b);
    RomanReplaceAll(a, p, r, q, b, IntToString(toInt(r).value));
  }

  /** The match `RomanDate` takes is the numeral itself. */
  lemma RomanNumeralMatched(a: string, p: char, r: string, q: char, b: string)
    requires RomanShape(a, p, r, q, b)
    ensures var t := a + [p] + r + [q] + b; var found := FindRoman(t, 0);
      found.Some? && found.value.0 <= found.value.1 <= |t| && t[found.value.0..found.value.1] == r
  {
    RomanNumeralFound(a, p, r, q, b);
  }

  /** Only the numeral is replaced: the digits and separators around it
      hold no Roman letter. */
  lemma RomanReplaceAll(a: string, p: char, r: string, q: char, b: string, text: string)
    requires RomanShape(a, p, r, q, b)
    ensures ReplaceAll(a + [p] + r + [q] + b, r, text) == a + [p] + text + [q] + b
  {
    assert a + [p] + r + [q] + b == (a + [p]) + r + ([q] + b);
    forall k | 0 <= k < |a + [p]| ensures (a + [p])[k] != r[0] {
      if k < |a| {
        assert (a + [p])[k] == a[k];
      }
    }
    forall k | 0 <= k < |[q] + b| ensures ([q] + b)[k] != r[0] {
      if k > 0 {
        assert ([q] + b)[k] == b[k - 1];
      }
    }
    ReplaceAllOnce(a + [p], r, [q] + b, text);
    assert a + [p] + text + [q] + b == (a + [p]) + text + ([q] + b);
  }

  /** Three numbers between Roman separators, dash-separated. */
  lemma SeparatorsDashed(a: string, p: char, text: string, q: char, b: string)
    requires AllDigits(a) && AllDigits(text) && AllDigits(b) && |text| > 0
    requires IsRomanSeparator(p) && IsRomanSeparator(q)
    ensures Standardize(a + [p] + text + [q] + b) == a + "-" + text + "-" + b
  {
    DashedTail(text, q, b);
    DigitsUnpunctuated(a);
    Regrouped(a, [p], text, [q], b);
    Regrouped(a, "-", text, "-", b);
    SeparatorDash(a, p, text + [q] + b);
  }

  /** The last three parts of a five-part text, taken together. */
  lemma Regrouped(a: string, x: string, m: string, y: string, b: string)
    ensures a + x + m + y + b == a + x + (m + y + b)
    ensures |m| > 0 ==> (m + y + b)[0] == m[0]
  {
  }

  lemma DashedTail(text: string, q: char, b: string)
    requires AllDigits(text) && AllDigits(b) && IsRomanSeparator(q)
    ensures Standardize(text + [q] + b) == text + "-" + b
  {
    DigitsUnpunctuated(text);
    DigitsUnpunctuated(b);
    StandardizeUnpunctuated(b);
    SeparatorDash(text, q, b);
  }

  /** A day, a Roman month and a year (`8-xi-2003`, `8.XI.2003`): the
      numeral's value replaces it and the text reads as `d-M-yyyy`. */
  lemma RomanMonthDate(a: string, p: char, r: string, q: char, b: string, names: MonthNames, toInt: string -> Option<int>)
    requires RomanShape(a, p, r, q, b) && |a| <= MaxWidth && |b| == 4
    requires toInt(r).Some? && 1 <= toInt(r).value <= 12
    requires 1 <= DigitsValue(a) <= 31 && DigitsValue(b) >= 1
    ensures var m, d, y := toInt(r).value, DigitsValue(a), DigitsValue(b);
      RomanDate(a + [p] + r + [q] + b, names, toInt) == RomanOutcome(Some(LocalDate(y, m, Min(d, MonthLength(y, m)))), [])
  {
    var v := toInt(r).value;
    var text := IntToString(v);
    var n := a + "-" + text + "-" + b;
    SeparatorsDashed(a, p, text, q, b);
    var x := LocalDate(DigitsValue(b), v, Min(DigitsValue(a), MonthLength(DigitsValue(b), v)));
    assert ParseAs(n, DayMonthYear, names, Us, DateQuery) == Some(x) by {
      SmallNumberText(v);
      DashedReading(a, text, b, names);
      FourDigitsValue(b);
    }
    RomanDateRead(a, p, r, q, b, names, toInt, n, x);
  }

  /** The three parts of `a-m-b` are where the dashes say. */
  lemma DashedParts(a: string, m: string, b: string)
    ensures var n, i, j := a + "-" + m + "-" + b, |a|, |a| + 1 + |m|;
      n[..i] == a && n[i] == '-' && n[i + 1..j] == m && n[j] == '-' && n[j + 1..] == b
    ensures (AllDigits(a) && AllDigits(m) && AllDigits(b) && 0 < |a| <= MaxWidth && 0 < |m| <= MaxWidth && |b| == 4
      && FitsLong(a) && FitsLong(m)) ==> NumericShape(a + "-" + m + "-" + b, |a|, |a| + 1 + |m|)
  {
    var n, i, j := a + "-" + m + "-" + b, |a|, |a| + 1 + |m|;
    assert n == a + ("-" + m + "-" + b);
    assert n[i + 1..] == m + "-" + b;
  }

  /** `a-m-b` with three digit runs reads as day `a`, month `m`, year `b`. */
  lemma DashedReading(a: string, m: string, b: string, names: MonthNames)
    requires AllDigits(a) && AllDigits(m) && AllDigits(b)
    requires 0 < |a| <= MaxWidth && 0 < |m| <= MaxWidth && |b| == 4 && FitsLong(a) && FitsLong(m)
    ensures ParseAs(a + "-" + m + "-" + b, DayMonthYear, names, Us, DateQuery)
         == Reading(DigitsValue(b), DigitsValue(m), DigitsValue(a))
  {
    var n, i, j := a + "-" + m + "-" + b, |a|, |a| + 1 + |m|;
    DashedParts(a, m, b);
    NumericReadings(n, i, j, names, Us);
  }

  /** No month name of `locale` starts with `c`, case aside. */
  predicate NoNameStartsWith(names: MonthNames, locale: Locale, c: char) {
    forall st: TextStyle, k :: 0 <= k < |names(locale, st)| ==>
      |names(locale, st)[k]| > 0 && FoldCase(names(locale, st)[k][0]) != FoldCase(c)
  }

  /** Roman letters are not punctuation: the separators alone become
      dashes. */
  lemma RomanStandardized(a: string, p: char, r: string, q: char, b: string)
    requires RomanShape(a, p, r, q, b)
    ensures !IsBlank(a + [p] + r + [q] + b)
    ensures Standardize(a + [p] + r + [q] + b) == a + "-" + r + "-" + b
  {
    assert (a + [p] + r + [q] + b)[0] == a[0];
    DigitsUnpunctuated(a);
    DigitsUnpunctuated(b);
    StandardizeUnpunctuated(b);
    SeparatorDash(r, q, b);
    assert a + [p] + r + [q] + b == a + [p] + (r + [q] + b);
    assert (r + [q] + b)[0] == r[0];
    SeparatorDash(a, p, r + [q] + b);
  }

  /** Before the fuzzy stage nothing reads `d-xi-yyyy`: no year leads it and
      no month name follows the day. */
  lemma RomanNotEarlier(a: string, r: string, b: string, names: MonthNames)
    requires RomanShape(a, '-', r, '-', b) && |a| < 4 && WordNames(names) && NoNameStartsWith(names, Us, r[0])
    ensures var u := a + "-" + r + "-" + b;
      ParseBest(u, IsoPartial, names, Us, IsoQueries).None?
      && FirstComplete(CompleteDatePatterns, u, names, Us).None?
      && ParseAs(u, NameYear, names, Us, YearMonthQuery).None? && ParseAs(u, NameOnly, names, Us, MonthQuery).None?
      && ParseAs(u, DayMonthYear, names, Us, DateQuery).None? && ParseAs(u, MonthDayYear, names, Us, DateQuery).None?
  {
    var u := a + "-" + r + "-" + b;
    var i := |a|;
    assert u[..i] == a && u[i] == '-' && u[i + 1] == r[0] && u[0] == a[0];
    YearFirstFails(u, i, names, Us);
    NameFirstFails(u, names, Us);
    SecondNotNumber(u, i, names, Us);
    forall st: TextStyle ensures Parse(u, DayNameYear(st), names, Us).None? {
      NameAtUnlike(u, i + 1, names(Us, st));
      DayNameUnmatched(u, i, names, Us, st);
    }
    NoCompleteDate(u, names, Us);
  }

  /** A whole value with a Roman month (`8.xi.2003`): the date, and no
      error. */
  lemma RomanDateText(a: string, p: char, r: string, q: char, b: string, names: MonthNames, toInt: string -> Option<int>)
    requires RomanShape(a, p, r, q, b) && |a| < 4 && |b| == 4
    requires WordNames(names) && NoNameStartsWith(names, Us, r[0])
    requires toInt(r).Some? && 1 <= toInt(r).value <= 12
    requires 1 <= DigitsValue(a) <= 31 && DigitsValue(b) >= 1
    ensures var m, d, y := toInt(r).value, DigitsValue(a), DigitsValue(b);
      DateOf(a + [p] + r + [q] + b, names, toInt) ==
        Outcome(PartialDate(Some(y), Some(m), Some(Min(d, MonthLength(y, m)))), [])
  {
    RomanStandardized(a, p, r, q, b);
    var u := a + "-" + r + "-" + b;
    assert u == a + ['-'] + r + ['-'] + b;
    RomanNotEarlier(a, r, b, names);
    RomanMonthDate(a, '-', r, '-', b, names, toInt);
  }

  /** No pattern with a month name reads `t` in `locale`. */
  predicate NoNamedDate(t: string, names: MonthNames, locale: Locale) {
    forall st :: ParseAs(t, DayNameYear(st), names, locale, DateQuery).None?
      && ParseAs(t, NameDayYear(st), names, locale, DateQuery).None?
      && ParseAs(t, YearNameDay(st), names, locale, DateQuery).None?
  }

  /** The other locales help only where some pattern with a month name
      reads the text in one of them. */
  lemma NoLocaleReading(t: string, names: MonthNames)
    requires NoNamedDate(t, names, French) && NoNamedDate(t, names, Spanish)
    ensures WithLocales(NamedMonthPatterns, SupportedLocales, t, names).None?
  {
    NotInLocales(t, names, Short);
    NotInLocales(t, names, Full);
  }

  /** The three patterns of one text style read `t` in neither supported
      locale. */
  lemma NotInLocales(t: string, names: MonthNames, st: TextStyle)
    requires NoNamedDate(t, names, French) && NoNamedDate(t, names, Spanish)
    ensures InLocales(DayNameYear(st), SupportedLocales, t, names).None?
    ensures InLocales(NameDayYear(st), SupportedLocales, t, names).None?
    ensures InLocales(YearNameDay(st), SupportedLocales, t, names).None?
  {
    assert SupportedLocales[0] == French && SupportedLocales[1] == Spanish;
  }

  /** No pattern with a month name reads `d-xi-yyyy` in `locale`. */
  lemma RomanNotNamed(a: string, r: string, b: string, names: MonthNames, locale: Locale)
    requires RomanShape(a, '-', r, '-', b) && |a| < 4 && WordNames(names) && NoNameStartsWith(names, locale, r[0])
    ensures NoNamedDate(a + "-" + r + "-" + b, names, locale)
  {
    var u := a + "-" + r + "-" + b;
    var i := |a|;
    assert u[..i] == a && u[i] == '-' && u[i + 1] == r[0] && u[0] == a[0];
    YearFirstFails(u, i, names, locale);
    NameFirstFails(u, names, locale);
    forall st: TextStyle ensures Parse(u, DayNameYear(st), names, locale).None? {
      NameAtUnlike(u, i + 1, names(locale, st));
      DayNameUnmatched(u, i, names, locale, st);
    }
  }

  /** A numeral `toInt` refuses: its error, then nothing reads the value
      and it is unprocessable too. */
  lemma RomanRefused(a: string, p: char, r: string, q: char, b: string, names: MonthNames, toInt: string -> Option<int>)
    requires RomanShape(a, p, r, q, b) && |a| < 4 && toInt(r).None? && WordNames(names)
    requires NoNameStartsWith(names, Us, r[0]) && NoNameStartsWith(names, French, r[0]) && NoNameStartsWith(names, Spanish, r[0])
    ensures var u := a + "-" + r + "-" + b;
      DateOf(a + [p] + r + [q] + b, names, toInt) ==
        Outcome(NoDate, [Diagnostic(DateRomanNumeralUnprocessable, u), Diagnostic(DateUnprocessable, u)])
  {
    var u := a + "-" + r + "-" + b;
    assert DateOf(a + [p] + r + [q] + b, names, toInt) == Fuzzy(u, names, toInt) by {
      RomanStandardized(a, p, r, q, b);
      RomanNotEarlier(a, r, b, names);
      ReachesFuzzy(u, names, toInt);
    }
    RefusedFuzzy(a, r, b, names, toInt);
  }

  /** The fuzzy stage on `d-xi-yyyy` with a refused numeral. */
  lemma RefusedFuzzy(a: string, r: string, b: string, names: MonthNames, toInt: string -> Option<int>)
    requires RomanShape(a, '-', r, '-', b) && |a| < 4 && toInt(r).None? && WordNames(names)
    requires NoNameStartsWith(names, Us, r[0]) && NoNameStartsWith(names, French, r[0]) && NoNameStartsWith(names, Spanish, r[0])
    ensures var u := a + "-" + r + "-" + b;
      Fuzzy(u, names, toInt) == Outcome(NoDate, [Diagnostic(DateRomanNumeralUnprocessable, u), Diagnostic(DateUnprocessable, u)])
  {
    var u := a + "-" + r + "-" + b;
    assert ParseAs(u, DayMonthYear, names, Us, DateQuery).None? && ParseAs(u, MonthDayYear, names, Us, DateQuery).None? by {
      RomanNotEarlier(a, r, b, names);
    }
    assert RomanDate(u, names, toInt) == RomanOutcome(None, [Diagnostic(DateRomanNumeralUnprocessable, u)]) by {
      assert u == a + ['-'] + r + ['-'] + b;
      RomanNumeralRefused(a, '-', r, '-', b, names, toInt);
    }
    assert WithLocales(NamedMonthPatterns, SupportedLocales, u, names).None? by {
      RomanNotNamed(a, r, b, names, French);
      RomanNotNamed(a, r, b, names, Spanish);
      NoLocaleReading(u, names);
    }
    FuzzyUnread(u, names, toInt);
  }

  /** When no earlier pattern reads the text, the fuzzy stage decides. */
  lemma ReachesFuzzy(t: string, names: MonthNames, toInt: string -> Option<int>)
    requires ParseBest(t, IsoPartial, names, Us, IsoQueries).None? && FirstComplete(CompleteDatePatterns, t, names, Us).None?
    requires ParseAs(t, NameYear, names, Us, YearMonthQuery).None? && ParseAs(t, NameOnly, names, Us, MonthQuery).None?
    ensures Cascade(t, names, toInt) == Fuzzy(t, names, toInt)
  {
  }

  /** When neither reading, nor the numeral, nor another locale gives a
      date, the value is unprocessable after any numeral error. */
  lemma FuzzyUnread(t: string, names: MonthNames, toInt: string -> Option<int>)
    requires ParseAs(t, DayMonthYear, names, Us, DateQuery).None? && ParseAs(t, MonthDayYear, names, Us, DateQuery).None?
    requires RomanDate(t, names, toInt).date.None? && WithLocales(NamedMonthPatterns, SupportedLocales, t, names).None?
    ensures Fuzzy(t, names, toInt) == Outcome(NoDate, RomanDate(t, names, toInt).errors + [Diagnostic(DateUnprocessable, t)])
  {
  }
}
