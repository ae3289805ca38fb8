/** `DateIntervalProcessor`: splits a date interval such as
    1977-08-16/1977-08-20 into its start and end texts. The text is cut at
    its middle separator, and only when the separators before it read the
    same as the separators after it. */
module DateInterval {
  import opened Wrappers
  import opened JavaText
  import opened Diagnostics

  /** DATE_INTERVAL_SEPARATOR_PATTERN `[.\-/]`. */
  predicate IsIntervalSeparator(c: char) {
    c == '.' || c == '-' || c == '/'
  }

  /** `separatorStr`: the separators in order. */
  function Separators(s: string): string {
    Filter(s, IsIntervalSeparator)
  }

  /** `idx`: where each separator starts. The k-th position has exactly k
      separators before it. */
  function SeparatorPositions(s: string): (idx: seq<nat>)
    ensures |idx| == |Separators(s)|
    ensures forall k :: 0 <= k < |idx| ==> idx[k] < |s| && s[idx[k]] == Separators(s)[k]
    ensures forall k :: 0 <= k < |idx| ==> |Separators(s[..idx[k]])| == k
  {
    if |s| == 0 then []
    else
      var init := s[..|s| - 1];
      var idx := SeparatorPositions(init) + (if IsIntervalSeparator(s[|s| - 1]) then [|s| - 1] else []);
      assert forall k :: 0 <= k < |SeparatorPositions(init)| ==> s[..idx[k]] == init[..idx[k]];
      assert s[..|s| - 1] == init;
      idx
  }

  /** The separator at `pos` is preceded by `|Separators(s[..pos])|` others,
      so it is the one `idx` lists at that rank. */
  lemma {:induction false} PositionRank(s: string, pos: nat)
    requires pos < |s| && IsIntervalSeparator(s[pos])
    ensures |Separators(s[..pos])| < |SeparatorPositions(s)|
    ensures SeparatorPositions(s)[|Separators(s[..pos])|] == pos
    decreases |s|
  {
    var init := s[..|s| - 1];
    if pos == |s| - 1 {
      assert s[..pos] == init;
    } else {
      assert init[..pos] == s[..pos];
      PositionRank(init, pos);
    }
  }

  /** Odd length, and the first half reads as the second half once the
      middle separator is left out (lines 145-148). */
  predicate IsSymmetric(separators: string) {
    var h := |separators| / 2;
    |separators| % 2 == 1 && separators[..h] == separators[h + 1..]
  }

  /** The middle separator of `t`, when the punctuation is symmetric: the
      separators on its left read the same as those on its right. */
  function MiddleSeparator(t: string): (pos: Option<nat>)
    ensures pos.Some? <==> IsSymmetric(Separators(t))
    ensures pos.Some? ==> pos.value < |t| && IsIntervalSeparator(t[pos.value])
    ensures pos.Some? ==> Separators(t[..pos.value]) == Separators(t[pos.value + 1..])
  {
    var separators := Separators(t);
    var n := |separators|;
    if n % 2 != 0 && separators[..n / 2] == separators[n / 2 + 1..] then
      var p := SeparatorPositions(t)[n / 2];
      SplitSeparators(t, p);
      Some(p)
    else None
  }

  /** Cutting at a separator splits the separator string around it. */
  lemma SplitSeparators(t: string, p: nat)
    requires p < |t| && IsIntervalSeparator(t[p])
    ensures Separators(t) == Separators(t[..p]) + [t[p]] + Separators(t[p + 1..])
  {
    assert t == t[..p] + [t[p]] + t[p + 1..];
    FilterAppend(t[..p] + [t[p]], t[p + 1..], IsIntervalSeparator);
    FilterAppend(t[..p], [t[p]], IsIntervalSeparator);
    assert Filter([t[p]], IsIntervalSeparator) == [] + [t[p]];
  }

  /** Any separator with the same punctuation on both sides is the middle
      one: there is at most one place to cut. */
  lemma MiddleSeparatorUnique(t: string, p: nat)
    requires p < |t| && IsIntervalSeparator(t[p])
    requires Separators(t[..p]) == Separators(t[p + 1..])
    ensures MiddleSeparator(t) == Some(p)
  {
    SplitSeparators(t, p);
    var separators := Separators(t);
    var h := |Separators(t[..p])|;
    assert |separators| == 2 * h + 1;
    assert separators[..h] == Separators(t[..p]);
    assert separators[h + 1..] == Separators(t[p + 1..]);
    PositionRank(t, p);
  }

  /** The start and end texts, or nulls, and the errors appended. */
  datatype Interval = Interval(start: Option<string>, end: Option<string>, errors: seq<Diagnostic>)

  /** `process(dateIntervalText, result)`. */
  function SplitInterval(text: string): (r: Interval)
    ensures IsBlank(text) ==> r == Interval(None, None, [])
    ensures !IsBlank(text) ==> r == Cut(Trim(text))
  {
    if IsBlank(text) then Interval(None, None, []) else Cut(Trim(text))
  }

  /** Lines 136-163 on the trimmed text `t`: the cut at the middle
      separator, or one error naming why there is none. */
  function Cut(t: string): (r: Interval)
    ensures r.start.Some? <==> r.end.Some?
    ensures r.start.Some? <==> IsSymmetric(Separators(t))
    ensures r.start.Some? ==> (r.errors == [] && var p := MiddleSeparator(t).value;
      r.start.value == Trim(t[..p]) && r.end.value == Trim(t[p + 1..]))
    ensures r.start.None? ==> (r.errors ==
      [Diagnostic(if |Separators(t)| % 2 == 1 then IntervalNonSymmetric else DateNonSymmetric, t)])
  {
    match MiddleSeparator(t)
    case Some(p) => Interval(Some(Trim(t[..p])), Some(Trim(t[p + 1..])), [])
    case None =>
      var kind := if |Separators(t)| % 2 == 1 then IntervalNonSymmetric else DateNonSymmetric;
      Interval(None, None, [Diagnostic(kind, t)])
  }

  /** Two dates written with the same punctuation, joined by a separator,
      come back apart. */
  lemma JoinSplits(a: string, c: char, b: string)
    requires IsIntervalSeparator(c) && Separators(a) == Separators(b)
    requires |a| > 0 && !IsTrimmed(a[0]) && !IsJavaWhitespace(a[0])
    requires |b| > 0 && !IsTrimmed(b[|b| - 1])
    ensures SplitInterval(a + [c] + b) == Interval(Some(Trim(a)), Some(Trim(b)), [])
  {
    var text := a + [c] + b;
    assert text[0] == a[0];
    assert !IsBlank(text);
    TrimFixedEnds(text);
    assert text[..|a|] == a && text[|a| + 1..] == b;
    MiddleSeparatorUnique(text, |a|);
    assert SplitInterval(text) == Cut(text);
  }

  /** A text that starts and ends with characters `trim` keeps is its own
      trim. */
  lemma TrimFixedEnds(s: string)
    requires |s| > 0 && !IsTrimmed(s[0]) && !IsTrimmed(s[|s| - 1])
    ensures Trim(s) == s
  {
    TrimStartFixed(s);
    TrimEndFixed(s);
  }

  /** `validateBean`: valid when both dates were found, or when the value
      is optional and blank. */
  function IntervalIsValid(text: string, isMandatory: bool): (valid: bool)
    ensures valid <==> SplitInterval(text).errors == [] && (isMandatory ==> !IsBlank(text))
  {
    var r := SplitInterval(text);
    (r.start.Some? && r.end.Some?) || (!isMandatory && IsBlank(text))
  }

  /** `process` with its collector: the separator scan of lines 136-142,
      then the cut. */
  method Process(text: string, result: ProcessingResult?) returns (output: array<Option<string>>)
    modifies Frame(result)
    ensures fresh(output) && output.Length == 2
    ensures output[0] == SplitInterval(text).start && output[1] == SplitInterval(text).end
    ensures Errors(result) == old(Errors(result)) + (if result == null then [] else SplitInterval(text).errors)
  {
    output := new Option<string>[2](_ => None);
    if IsBlank(text) {
      return;
    }
    var start, end, errors := CutAt(Trim(text));
    Report(result, errors);
    output[0] := start;
    output[1] := end;
  }

  /** Lines 136-163 on the trimmed text `t`: the values for the two slots
      and the error to report. */
  method CutAt(t: string) returns (start: Option<string>, end: Option<string>, errors: seq<Diagnostic>)
    ensures Interval(start, end, errors) == Cut(t)
  {
    start, end, errors := None, None, [];
    var separatorStr, idx := ScanSeparators(t);
    var n := |separatorStr|;
    if IsSymmetric(separatorStr) {
      var separatorIdx := idx[n / 2];
      SymmetricCut(t, separatorIdx);
      start := Some(Trim(t[..separatorIdx]));
      end := Some(Trim(t[separatorIdx + 1..]));
    } else {
      var kind := if n % 2 != 0 then IntervalNonSymmetric else DateNonSymmetric;
      AsymmetricCut(t);
      errors := [Diagnostic(kind, t)];
    }
  }

  /** With symmetric punctuation the cut is at the separator of middle rank. */
  lemma SymmetricCut(t: string, p: nat)
    requires IsSymmetric(Separators(t)) && p == SeparatorPositions(t)[|Separators(t)| / 2]
    ensures p < |t| && Cut(t) == Interval(Some(Trim(t[..p])), Some(Trim(t[p + 1..])), [])
  {
    assert MiddleSeparator(t) == Some(p);
  }

  lemma AsymmetricCut(t: string)
    requires !IsSymmetric(Separators(t))
    ensures Cut(t) == Interval(None, None,
      [Diagnostic(if |Separators(t)| % 2 != 0 then IntervalNonSymmetric else DateNonSymmetric, t)])
  {
  }

  /** The `while (m.find())` loop of lines 139-142. */
  method ScanSeparators(t: string) returns (separatorStr: string, idx: seq<nat>)
    ensures separatorStr == Separators(t) && idx == SeparatorPositions(t)
  {
    separatorStr := "";
    idx := [];
    var i := 0;
    while i < |t|
      invariant 0 <= i <= |t|
      invariant separatorStr == Separators(t[..i]) && idx == SeparatorPositions(t[..i])
    {
      assert t[..i + 1][..i] == t[..i];
      if IsIntervalSeparator(t[i]) {
        separatorStr := separatorStr + [t[i]];
        idx := idx + [i];
      }
      i := i + 1;
    }
    assert t[..i] == t;
  }

  /** What `process` as written leaves: the two slots and the errors it
      added, and how it ended. */
  datatype Attempt = Attempt(interval: Interval, completion: Completion)

  /** `process` as written. Both error messages read `resourceBundle`, which
      `AbstractDataProcessor` (line 22) leaves null until `setLocale` is
      called, and this processor never calls it. So with a collector,
      asymmetric punctuation ends in a NullPointerException before any
      error is added, and `validateBean` does not catch it. */
  function AsWritten(text: string, collecting: bool): (r: Attempt)
    ensures r.completion == NullPointerThrown
      <==> collecting && !IsBlank(text) && !IsSymmetric(Separators(Trim(text)))
    ensures r.interval.errors == []
  {
    if IsBlank(text) then Attempt(Interval(None, None, []), Returned)
    else CutAsWritten(Trim(text), collecting)
  }

  /** Lines 136-163 as written, on the trimmed text `t`. */
  function CutAsWritten(t: string, collecting: bool): (r: Attempt)
    ensures r.completion == NullPointerThrown <==> collecting && !IsSymmetric(Separators(t))
    ensures r.interval.errors == []
  {
    var separators := Separators(t);
    if IsSymmetric(separators) then
      var p := SeparatorPositions(t)[|separators| / 2];
      Attempt(Interval(Some(Trim(t[..p])), Some(Trim(t[p + 1..])), []), Returned)
    else if collecting then Attempt(Interval(None, None, []), NullPointerThrown)
    else Attempt(Interval(None, None, []), Returned)
  }

  /** Wherever the code as written returns, it leaves the dates `Cut` gives;
      it differs only in never reporting an error. */
  lemma AsWrittenAgreesOnDates(text: string, collecting: bool)
    ensures AsWritten(text, collecting).completion == Returned
      ==> AsWritten(text, collecting).interval == SplitInterval(text).(errors := [])
  {
    if !IsBlank(text) {
      CutAsWrittenAgrees(Trim(text), collecting);
    }
  }

  /** With a collector, the code as written throws exactly where the
      corrected processor reports its error. */
  lemma ThrowsWhereReported(text: string)
    ensures AsWritten(text, true).completion == NullPointerThrown <==> SplitInterval(text).errors != []
  {
    if !IsBlank(text) {
      var t := Trim(text);
      if !IsSymmetric(Separators(t)) {
        AsymmetricCut(t);
      }
    }
  }

  /** `CutAsWritten` and `Cut` agree on the dates wherever the former
      returns. */
  lemma CutAsWrittenAgrees(t: string, collecting: bool)
    ensures CutAsWritten(t, collecting).completion == Returned
      ==> CutAsWritten(t, collecting).interval == Cut(t).(errors := [])
  {
    if IsSymmetric(Separators(t)) {
      SymmetricAgrees(t, collecting);
    } else {
      AsymmetricCut(t);
    }
  }

  /** With symmetric punctuation both cut at the same separator. */
  lemma SymmetricAgrees(t: string, collecting: bool)
    requires IsSymmetric(Separators(t))
    ensures CutAsWritten(t, collecting).interval == Cut(t)
  {
    SymmetricCut(t, SeparatorPositions(t)[|Separators(t)| / 2]);
  }

  /** `process` as written, with its collector; `NullPointerThrown` is the
      exception escaping. */
  method ProcessAsWritten(text: string, result: ProcessingResult?)
    returns (output: array<Option<string>>, c: Completion)
    modifies Frame(result)
    ensures fresh(output) && output.Length == 2
    ensures c == AsWritten(text, result != null).completion
    ensures c == Returned ==> (output[0] == AsWritten(text, result != null).interval.start
                               && output[1] == AsWritten(text, result != null).interval.end)
    ensures Errors(result) == old(Errors(result))
  {
    output := new Option<string>[2](_ => None);
    if IsBlank(text) {
      return output, Returned;
    }
    var start, end;
    start, end, c := CutAtAsWritten(Trim(text), result != null);
    if c == Returned {
      output[0] := start;
      output[1] := end;
    }
  }

  /** Lines 136-163 as written: the slots' values, or the exception the
      null bundle raises when there is a collector. */
  method CutAtAsWritten(t: string, collecting: bool)
    returns (start: Option<string>, end: Option<string>, c: Completion)
    ensures c == CutAsWritten(t, collecting).completion
    ensures c == Returned ==> Interval(start, end, []) == CutAsWritten(t, collecting).interval
  {
    start, end := None, None;
    var separatorStr, idx := ScanSeparators(t);
    var n := |separatorStr|;
    if n % 2 != 0 {
      var separatorIdx := idx[n / 2];
      if separatorStr[..n / 2] == separatorStr[n / 2 + 1..] {
        start := Some(Trim(t[..separatorIdx]));
        end := Some(Trim(t[separatorIdx + 1..]));
      } else if collecting {
        // resourceBundle.getString on the null bundle
        return start, end, NullPointerThrown;
      }
    } else if collecting {
      return start, end, NullPointerThrown;
    }
    c := Returned;
  }
}
