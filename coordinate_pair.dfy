/** `CoordinatePairProcessor`: splits a verbatim coordinate pair into its
    latitude and longitude texts. A decimal pair (latitude first) is tried
    first; otherwise the text is split at its last separator and the half
    ending in E or W is taken as the longitude. */
module CoordinatePair {
  import opened Wrappers
  import opened JavaText
  import opened Diagnostics

  /** The separators `[,;\/ \t]` of DECIMAL_COORD_PAIR. */
  predicate IsDecimalSeparator(c: char) {
    c == ',' || c == ';' || c == '/' || c == ' ' || c == '\t'
  }

  /** The separators `[,;\/\t]` of DMS_COORD_PAIR (no space). */
  predicate IsDmsSeparator(c: char) {
    c == ',' || c == ';' || c == '/' || c == '\t'
  }

  /** Where `\d{1,3}\.?\d+` starting at `q` ends, as the regex engine first
      settles it: over a fraction when at most three digits precede a '.'
      followed by a digit, otherwise over a run of at least two digits. */
  function DecimalNumberEnd(s: string, q: nat): (e: Option<nat>)
    requires q <= |s|
    ensures e.Some? ==> q + 2 <= e.value <= |s|
    ensures e.Some? ==> IsDigit(s[q]) && IsDigit(s[e.value - 1])
    ensures e.Some? ==> forall k :: q <= k < e.value ==> IsDigit(s[k]) || s[k] == '.'
    ensures e.Some? && e.value < |s| ==> !IsDigit(s[e.value])
  {
    var j := DigitRunEnd(s, q);
    if 1 <= j - q <= 3 && j + 1 < |s| && s[j] == '.' && IsDigit(s[j + 1]) then Some(DigitRunEnd(s, j + 1))
    else if j - q >= 2 then Some(j)
    else None
  }

  /** The first digit at or after `i`, or |s|. */
  function NextDigit(s: string, i: nat): (f: nat)
    requires i <= |s|
    ensures i <= f <= |s|
    ensures forall k :: i <= k < f ==> !IsDigit(s[k])
    ensures f < |s| ==> IsDigit(s[f])
    decreases |s| - i
  {
    if i == |s| || IsDigit(s[i]) then i else NextDigit(s, i + 1)
  }

  /** The find() of DECIMAL_COORD_PAIR
      `(^\s?\-?\d{1,3}\.?\d+)[\D]*[,;\/ \t]+(\-?\d{1,3}\.?\d+)`, as its two
      groups. Group 1 keeps the optional leading space and minus sign;
      group 2 starts after the separators that precede the next digit. */
  function DecimalPair(s: string): (r: Option<(string, string)>)
    ensures r.Some? ==> r.value.0 <= s
    ensures r.Some? ==> |r.value.0| >= 2 && |r.value.1| >= 2
    ensures r.Some? ==> IsDigit(r.value.0[|r.value.0| - 1]) && IsDigit(r.value.1[|r.value.1| - 1])
  {
    var q0 := if |s| > 0 && IsRegexSpace(s[0]) then 1 else 0;
    var q := if q0 < |s| && s[q0] == '-' then q0 + 1 else q0;
    match DecimalNumberEnd(s, q)
    case None => None
    case Some(e) => AfterFirstGroup(s, e)
  }

  /** The rest of the find() once group 1 ends at `e`: skip to the next
      digit, which must follow a separator (or a minus sign after one). */
  function AfterFirstGroup(s: string, e: nat): (r: Option<(string, string)>)
    requires 2 <= e <= |s| && IsDigit(s[e - 1])
    ensures r.Some? ==> r.value.0 == s[..e] && r.value.0 <= s
    ensures r.Some? ==> |r.value.0| >= 2 && |r.value.1| >= 2
    ensures r.Some? ==> IsDigit(r.value.0[|r.value.0| - 1]) && IsDigit(r.value.1[|r.value.1| - 1])
  {
    var f := NextDigit(s, e);
    if f == |s| then None
    else
      var start :=
        if f > e && IsDecimalSeparator(s[f - 1]) then Some(f)
        else if f >= e + 2 && s[f - 1] == '-' && IsDecimalSeparator(s[f - 2]) then Some(f - 1)
        else None;
      match start
      case None => None
      case Some(b) => GroupsAt(s, e, b, f)
  }

  /** Group 1 up to `e` and group 2 from `b` over the number at `f`. */
  function GroupsAt(s: string, e: nat, b: nat, f: nat): (r: Option<(string, string)>)
    requires 2 <= e <= |s| && IsDigit(s[e - 1]) && b <= f < |s|
    ensures r.Some? ==> r.value.0 == s[..e] && r.value.0 <= s
    ensures r.Some? ==> |r.value.0| >= 2 && |r.value.1| >= 2
    ensures r.Some? ==> IsDigit(r.value.0[|r.value.0| - 1]) && IsDigit(r.value.1[|r.value.1| - 1])
  {
    match DecimalNumberEnd(s, f)
    case None => None
    case Some(c) => Some((s[..e], s[b..c]))
  }

  /** The end of the line (maximal run without line terminators) at `p`. */
  function LineEnd(s: string, p: nat): (l: nat)
    requires p <= |s|
    ensures p <= l <= |s|
    ensures forall k :: p <= k < l ==> !IsLineTerminator(s[k])
    ensures l < |s| ==> IsLineTerminator(s[l])
    decreases |s| - p
  {
    if p == |s| || IsLineTerminator(s[p]) then p else LineEnd(s, p + 1)
  }

  /** The last separator strictly inside the line [p, l): after its first
      character and before its last one. */
  function LastInnerSeparator(s: string, p: nat, l: nat, k: nat): (r: Option<nat>)
    requires p <= l <= |s| && k <= l
    ensures r.Some? ==> p < r.value < l - 1 && r.value < k && IsDmsSeparator(s[r.value])
    ensures r.Some? ==> forall j :: r.value < j < k && j < l - 1 ==> !IsDmsSeparator(s[j])
    ensures r.None? ==> forall j :: p < j < k && j < l - 1 ==> !IsDmsSeparator(s[j])
    decreases k
  {
    if k <= p + 1 then None
    else if k - 1 < l - 1 && IsDmsSeparator(s[k - 1]) then Some(k - 1)
    else LastInnerSeparator(s, p, l, k - 1)
  }

  /** The separator picked is the last one inside the line: any separator
      with no other separator between it and the line's last character. */
  lemma {:induction false} LastInnerSeparatorIsLast(s: string, p: nat, l: nat, k: nat, j: nat)
    requires p <= l <= |s| && k <= l
    requires p < j < l - 1 && j < k && IsDmsSeparator(s[j])
    requires forall i :: j < i < k && i < l - 1 ==> !IsDmsSeparator(s[i])
    ensures LastInnerSeparator(s, p, l, k) == Some(j)
    decreases k
  {
    if k - 1 == j {
    } else {
      LastInnerSeparatorIsLast(s, p, l, k - 1, j);
    }
  }

  /** The find() of DMS_COORD_PAIR `(.+)[,;\/\t]+(.+)` from line start `p`,
      as (line start, separator, line end): on the first line that holds a
      separator with text on both sides, group 1 runs up to the last such
      separator (the greedy `.+`) and group 2 is the rest of the line. */
  function DmsSplit(s: string, p: nat): (r: Option<(nat, nat, nat)>)
    requires p <= |s|
    ensures r.Some? ==> p <= r.value.0 < r.value.1 && r.value.1 + 1 < r.value.2 <= |s|
    ensures r.Some? ==> IsDmsSeparator(s[r.value.1])
    ensures r.Some? ==> forall j :: r.value.1 < j < r.value.2 - 1 ==> !IsDmsSeparator(s[j])
    ensures r.Some? ==> forall j :: r.value.0 <= j < r.value.2 ==> !IsLineTerminator(s[j])
    decreases |s| - p
  {
    var l := LineEnd(s, p);
    match LastInnerSeparator(s, p, l, l)
    case Some(k) => Some((p, k, l))
    case None => if l == |s| then None else DmsSplit(s, l + 1)
  }

  /** The two groups of DMS_COORD_PAIR: non-empty, on one line, and only
      the last character of group 2 may be a separator. */
  function DmsPair(s: string): (r: Option<(string, string)>)
    ensures r.Some? <==> DmsSplit(s, 0).Some?
    ensures r.Some? ==> var (a, k, l) := DmsSplit(s, 0).value;
      r.value == (s[a..k], s[k + 1..l]) && |r.value.0| > 0 && |r.value.1| > 0
  {
    match DmsSplit(s, 0)
    case None => None
    case Some(split) => var (a, k, l) := split; Some((s[a..k], s[k + 1..l]))
  }

  /** A pair of (latitude, longitude) texts, or null, and the errors. */
  datatype Split = Split(pair: Option<(string, string)>, errors: seq<Diagnostic>)

  /** `process(coordinatePair, result)`. */
  function SplitPair(s: string): (r: Split)
    ensures IsBlank(s) ==> r == Split(None, [])
    ensures r.pair.Some? ==> r.errors == [] && |r.pair.value.0| > 0 && |r.pair.value.1| > 0
    ensures r.pair.None? && !IsBlank(s) ==> 1 <= |r.errors| <= 2 && r.errors[|r.errors| - 1] == Diagnostic(PairNoValidCoordinate, s)
    ensures forall d :: d in r.errors ==> d.Diagnostic? && d.subject == s
    ensures !IsBlank(s) && DecimalPair(s).Some? ==> r.pair == DecimalPair(s)
    ensures !IsBlank(s) && DecimalPair(s).None? ==> r == (if DmsPair(s).None? then Split(None, [Diagnostic(PairNoValidCoordinate, s)])
                                                          else FromDmsGroups(s, DmsPair(s).value.0, DmsPair(s).value.1))
  {
    if IsBlank(s) then Split(None, [])
    else match DecimalPair(s)
    case Some(pair) => Split(Some(pair), [])
    case None =>
      match DmsPair(s)
      case None => Split(None, [Diagnostic(PairNoValidCoordinate, s)])
      case Some(groups) => FromDmsGroups(s, groups.0, groups.1)
  }

  /** No separator stands anywhere but at the text's first or last
      character. */
  predicate NoInnerSeparator(s: string) {
    forall j :: 0 < j < |s| - 1 ==> !IsDecimalSeparator(s[j])
  }

  /** Without an inner separator no line has one, so DMS_COORD_PAIR finds
      nothing. */
  lemma {:induction false} NoInnerDmsSplit(s: string, p: nat)
    requires p <= |s| && NoInnerSeparator(s)
    ensures DmsSplit(s, p).None?
    decreases |s| - p
  {
    var l := LineEnd(s, p);
    match LastInnerSeparator(s, p, l, l)
    case Some(k) =>
      assert false;
    case None =>
      if l < |s| {
        NoInnerDmsSplit(s, l + 1);
      }
  }

  /** Without an inner separator, DECIMAL_COORD_PAIR has no separator
      before a second number. */
  lemma NoInnerDecimalPair(s: string)
    requires NoInnerSeparator(s)
    ensures DecimalPair(s).None?
  {
    var q0 := if |s| > 0 && IsRegexSpace(s[0]) then 1 else 0;
    var q := if q0 < |s| && s[q0] == '-' then q0 + 1 else q0;
    match DecimalNumberEnd(s, q)
    case None =>
    case Some(e) =>
      var f := NextDigit(s, e);
      if f < |s| {
        assert !IsDecimalSeparator(s[f - 1]);
        assert f >= e + 2 ==> !IsDecimalSeparator(s[f - 2]);
      }
  }

  /** A lone coordinate, or a text whose only separator is its first or
      last character, gives no pair and the no-valid-coordinate error. */
  lemma LoneCoordinate(s: string)
    requires !IsBlank(s) && NoInnerSeparator(s)
    ensures SplitPair(s) == Split(None, [Diagnostic(PairNoValidCoordinate, s)])
  {
    NoInnerDecimalPair(s);
    NoInnerDmsSplit(s, 0);
  }

  /** Lines 140-174: the half ending in E or W (the second one preferred) is
      the longitude; the other half must end in N or S. */
  function FromDmsGroups(s: string, g1: string, g2: string): (r: Split)
    ensures r.pair.Some? ==> (r.errors == []
      && EndsWithOneOf(r.pair.value.0, NorthSouth) && EndsWithOneOf(r.pair.value.1, EastWest)
      && (r.pair.value == (g1, g2) || r.pair.value == (g2, g1)))
    ensures r.pair.Some? && EndsWithOneOf(g2, EastWest) ==> r.pair.value == (g1, g2)
    ensures r.pair.None? ==> r.errors == [Diagnostic(if EndsWithOneOf(g2, EastWest) || EndsWithOneOf(g1, EastWest)
                                                      then PairNoLatitude else PairNoCardinalDirection, s),
                                           Diagnostic(PairNoValidCoordinate, s)]
    ensures r.pair.None? ==> !EndsWithOneOf(g1, NorthSouth) || !EndsWithOneOf(g2, EastWest)
  {
    if EndsWithOneOf(g2, EastWest) then CheckLatitude(s, g1, g2)
    else if EndsWithOneOf(g1, EastWest) then CheckLatitude(s, g2, g1)
    else Split(None, [Diagnostic(PairNoCardinalDirection, s), Diagnostic(PairNoValidCoordinate, s)])
  }

  /** Lines 157-174: the latitude half must end in N or S. */
  function CheckLatitude(s: string, latitude: string, longitude: string): Split {
    if EndsWithOneOf(latitude, NorthSouth) then Split(Some((latitude, longitude)), [])
    else Split(None, [Diagnostic(PairNoLatitude, s), Diagnostic(PairNoValidCoordinate, s)])
  }

  /** `validateBean`: valid when a pair was found, or when the value is
      optional and blank. */
  function PairIsValid(s: string, isMandatory: bool): (valid: bool)
    ensures valid <==> SplitPair(s).errors == [] && (isMandatory ==> !IsBlank(s))
  {
    SplitPair(s).pair.Some? || (!isMandatory && IsBlank(s))
  }

  /** `process` with its collector. */
  method Process(s: string, result: ProcessingResult?) returns (coordinates: Option<(string, string)>)
    modifies Frame(result)
    ensures coordinates == SplitPair(s).pair
    ensures Errors(result) == old(Errors(result)) + (if result == null then [] else SplitPair(s).errors)
  {
    var r := SplitPair(s);
    Report(result, r.errors);
    coordinates := r.pair;
  }
}
