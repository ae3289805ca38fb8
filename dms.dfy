/** `DegreeMinuteToDecimalProcessor`: converts one degree/minute/second
    coordinate such as 40°26′47″N into signed decimal degrees. The patterns
    of lines 42-57 are written out as deterministic scanners that settle on
    the same match as java.util.regex; the guards of `process` are then
    checked in the source's order. */
module DegreeMinute {
  import opened Wrappers
  import opened JavaText
  import opened Diagnostics
  import opened Numbers

  // ---------------------------------------------------------------------
  // REMOVE_CARDINAL_DIRECTION_PATTERN `(^\s?-\s?)|(\s?[NSEW]\s*$)`, replaceAll("")

  /** The end of the `^\s?-\s?` match, or 0 when it does not match. */
  function SignPrefixEnd(s: string): (pe: nat)
    ensures pe <= |s| && pe <= 3
    ensures forall k :: 0 <= k < pe ==> s[k] == '-' || IsRegexSpace(s[k])
    ensures pe > 0 <==> (|s| > 0 && s[0] == '-') || (|s| > 1 && IsRegexSpace(s[0]) && s[1] == '-')
  {
    if |s| > 0 && s[0] == '-' then (if |s| > 1 && IsRegexSpace(s[1]) then 2 else 1)
    else if |s| > 1 && IsRegexSpace(s[0]) && s[1] == '-' then (if |s| > 2 && IsRegexSpace(s[2]) then 3 else 2)
    else 0
  }

  /** Where the `\s?[NSEW]\s*$` match starts: one `\s` before the letter
      when there is one outside the sign prefix, else at the letter. */
  function CardinalStart(s: string): (p: Option<nat>)
    ensures p.Some? ==> SignPrefixEnd(s) <= p.value < LetterZoneEnd(s)
    ensures p.Some? <==> EndsWithOneOf(s, Cardinals)
    ensures p.Some? ==> forall k :: p.value <= k < LetterZoneEnd(s) ==> !IsDigit(s[k])
  {
    var pe := SignPrefixEnd(s);
    var u := TrailingSpaceStart(s, LetterZoneEnd(s));
    if u > pe && s[u - 1] in Cardinals then
      Some(if u >= pe + 2 && IsRegexSpace(s[u - 2]) then u - 2 else u - 1)
    else None
  }

  /** `p_dms`, line 163: the sign prefix and the trailing cardinal letter
      (with the spaces around it) removed; digits are never removed. */
  function RemoveSignAndCardinal(s: string): (r: string)
    ensures Digits(r) == Digits(s)
    ensures EndsWithOneOf(s, Cardinals) ==> |r| < |s|
    ensures !EndsWithOneOf(s, Cardinals) ==> r == s[SignPrefixEnd(s)..]
  {
    SignAndCardinalCut(s);
    match CardinalStart(s)
    case None => s[SignPrefixEnd(s)..]
    case Some(p) => s[SignPrefixEnd(s)..p] + s[LetterZoneEnd(s)..]
  }

  /** Neither cut of `RemoveSignAndCardinal` loses a digit. */
  lemma SignAndCardinalCut(s: string)
    ensures CardinalStart(s).None? ==> Digits(s[SignPrefixEnd(s)..]) == Digits(s)
    ensures CardinalStart(s).Some? ==>
      var r := s[SignPrefixEnd(s)..CardinalStart(s).value] + s[LetterZoneEnd(s)..];
      Digits(r) == Digits(s) && |r| < |s|
  {
    var pe := SignPrefixEnd(s);
    match CardinalStart(s)
    case None =>
      RemovedDigitsKept(s, pe, pe, pe);
      assert s[pe..pe] + s[pe..] == s[pe..];
    case Some(p) =>
      RemovedDigitsKept(s, pe, p, LetterZoneEnd(s));
  }

  /** Cutting out a prefix and a middle part that hold no digits keeps the
      digits. */
  lemma RemovedDigitsKept(s: string, pe: nat, p: nat, z: nat)
    requires pe <= p <= z <= |s|
    requires forall k :: 0 <= k < pe ==> !IsDigit(s[k])
    requires forall k :: p <= k < z ==> !IsDigit(s[k])
    ensures Digits(s[pe..p] + s[z..]) == Digits(s)
  {
    assert s == s[..pe] + s[pe..p] + s[p..z] + s[z..];
    FilterAppend(s[..pe] + s[pe..p] + s[p..z], s[z..], IsDigit);
    FilterAppend(s[..pe] + s[pe..p], s[p..z], IsDigit);
    FilterAppend(s[..pe], s[pe..p], IsDigit);
    FilterAppend(s[pe..p], s[z..], IsDigit);
    FilterDropsAll(s[..pe], IsDigit);
    FilterDropsAll(s[p..z], IsDigit);
  }

  // ---------------------------------------------------------------------
  // SPLIT_DMS_PARTS
  // `(\d{1,3})(?:[°d: ]+)(\d*\.?\d+)(?:['m′: ])*(\d*\.?\d+)*["s″ ]?`

  predicate IsDegreeSeparator(c: char) {
    c == '°' || c == 'd' || c == ':' || c == ' '
  }

  predicate IsMinuteSeparator(c: char) {
    c == '\'' || c == 'm' || c == '′' || c == ':' || c == ' '
  }

  /** The characters of `[\"s″]` tested at line 218. */
  predicate IsSecondMarker(c: char) {
    c == '"' || c == 's' || c == '″'
  }

  /** `\d*\.?\d+` at `q`, as the engine first settles it: the digit run,
      then a '.' and the digits after it when a digit follows the '.'. */
  function TokenEnd(s: string, q: nat): (t: Option<nat>)
    requires q <= |s|
    ensures t.Some? ==> q < t.value <= |s| && IsUnsignedText(s[q..t.value])
    ensures t.Some? ==> forall k :: q <= k < t.value ==> IsDigit(s[k]) || s[k] == '.'
    ensures t.None? ==> q == |s| || (!IsDigit(s[q]) && !(s[q] == '.' && q + 1 < |s| && IsDigit(s[q + 1])))
  {
    var d1 := DigitRunEnd(s, q);
    if d1 + 1 < |s| && s[d1] == '.' && IsDigit(s[d1 + 1]) then
      var t := DigitRunEnd(s, d1 + 1);
      FractionText(s, q, d1, t);
      Some(t)
    else if d1 > q then
      assert s[q..d1][..|s[q..d1]|] == s[q..d1];
      NoDot(s[q..d1]);
      Some(d1)
    else None
  }

  /** Digits, a '.', and at least one digit form unsigned decimal text. */
  lemma FractionText(s: string, q: nat, d1: nat, t: nat)
    requires q <= d1 < d1 + 1 < t <= |s| && s[d1] == '.'
    requires forall k :: q <= k < d1 ==> IsDigit(s[k])
    requires forall k :: d1 < k < t ==> IsDigit(s[k])
    ensures IsUnsignedText(s[q..t])
  {
    assert s[q..t] == s[q..d1] + s[d1..t];
    DotAt(s[q..d1], s[d1..t]);
    assert s[q..t][..d1 - q] == s[q..d1];
    assert s[q..t][d1 - q + 1..] == s[d1 + 1..t];
  }

  /** The repeated group `(\d*\.?\d+)*` from `i`: the bounds of its last
      iteration, the text Java reports as group 3. */
  function LastToken(s: string, i: nat): (r: Option<(nat, nat)>)
    requires i <= |s|
    ensures r.Some? ==> i <= r.value.0 < r.value.1 <= |s| && IsUnsignedText(s[r.value.0..r.value.1])
    ensures r.Some? ==> forall k :: r.value.0 <= k < r.value.1 ==> IsDigit(s[k]) || s[k] == '.'
    ensures r.None? <==> TokenEnd(s, i).None?
    decreases |s| - i
  {
    match TokenEnd(s, i)
    case None => None
    case Some(t) =>
      match LastToken(s, t)
      case None => Some((i, t))
      case Some(last) => Some(last)
  }

  /** The three groups of SPLIT_DMS_PARTS; group 3 may be absent. */
  datatype Groups = Groups(degree: string, minute: string, second: Option<string>)

  /** A degree of 1 to 3 digits and decimal texts for the others. */
  predicate WellFormed(g: Groups) {
    1 <= |g.degree| <= 3 && AllDigits(g.degree) && IsUnsignedText(g.minute)
    && (g.second.Some? ==> IsUnsignedText(g.second.value))
  }

  /** The match of SPLIT_DMS_PARTS starting exactly at `i`. `\d{1,3}`
      can only end where the digit run does, since a shorter degree would
      leave a digit where a separator is needed. */
  function MatchAt(s: string, i: nat): (g: Option<Groups>)
    requires i <= |s|
    ensures g.Some? ==> WellFormed(g.value) && i + |g.value.degree| < |s|
    ensures g.Some? ==> g.value.degree == s[i..i + |g.value.degree|] && IsDegreeSeparator(s[i + |g.value.degree|])
  {
    var j := DigitRunEnd(s, i);
    if 1 <= j - i <= 3 && j < |s| && IsDegreeSeparator(s[j]) then
      var q := RunEnd(s, j, IsDegreeSeparator);
      match TokenEnd(s, q)
      case None => None
      case Some(t) =>
        assert AllDigits(s[i..j]) by {
          forall k | 0 <= k < j - i ensures IsDigit(s[i..j][k]) { assert s[i..j][k] == s[i + k]; }
        }
        Some(Groups(s[i..j], s[q..t], SecondGroup(s, t)))
    else None
  }

  /** Group 3, after the minute separators that follow the minute. */
  function SecondGroup(s: string, t: nat): (second: Option<string>)
    requires t <= |s|
    ensures second.Some? ==> IsUnsignedText(second.value)
  {
    match LastToken(s, RunEnd(s, t, IsMinuteSeparator))
    case None => None
    case Some(bounds) => Some(s[bounds.0..bounds.1])
  }

  /** find(): the leftmost start at or after `i` where the pattern matches. */
  function FirstMatch(s: string, i: nat): (r: Option<nat>)
    requires i <= |s|
    ensures r.Some? ==> i <= r.value <= |s| && MatchAt(s, r.value).Some?
    ensures r.Some? ==> forall k :: i <= k < r.value ==> MatchAt(s, k).None?
    ensures r.None? ==> forall k :: i <= k <= |s| ==> MatchAt(s, k).None?
    decreases |s| - i
  {
    if MatchAt(s, i).Some? then Some(i)
    else if i == |s| then None
    else FirstMatch(s, i + 1)
  }

  /** Lines 168-176: the groups of the first match in `p_dms`. */
  function SplitDmsParts(p: string): (g: Option<Groups>)
    ensures g.Some? ==> WellFormed(g.value)
    ensures g.None? ==> forall k :: 0 <= k <= |p| ==> MatchAt(p, k).None?
    ensures g.Some? ==> exists k :: 0 <= k <= |p| && g == MatchAt(p, k)
  {
    match FirstMatch(p, 0)
    case None => None
    case Some(k) => MatchAt(p, k)
  }

  // ---------------------------------------------------------------------
  // The compaction loop, lines 180-189

  /** The non-blank groups, in order. */
  function NonBlank(groups: seq<Option<string>>): (parts: seq<string>)
    ensures |parts| <= |groups|
    ensures forall k :: 0 <= k < |parts| ==> !IsBlank(parts[k])
  {
    if |groups| == 0 then []
    else
      var last := groups[|groups| - 1];
      NonBlank(groups[..|groups| - 1]) + (if last.Some? && !IsBlank(last.value) then [last.value] else [])
  }

  /** Copies the non-blank groups to the front of a fresh 3-slot array,
      leaving the remaining slots null. */
  method CompactParts(groups: seq<Option<string>>) returns (parts: array<Option<string>>)
    requires |groups| <= 3
    ensures fresh(parts) && parts.Length == 3
    ensures forall k :: 0 <= k < |NonBlank(groups)| ==> parts[k] == Some(NonBlank(groups)[k])
    ensures forall k :: |NonBlank(groups)| <= k < 3 ==> parts[k] == None
  {
    parts := new Option<string>[3](_ => None);
    var partsIdx := 0;
    var i := 0;
    while i < |groups|
      invariant 0 <= i <= |groups|
      invariant partsIdx == |NonBlank(groups[..i])| <= i
      invariant forall k :: 0 <= k < partsIdx ==> parts[k] == Some(NonBlank(groups[..i])[k])
      invariant forall k :: partsIdx <= k < 3 ==> parts[k] == None
    {
      assert groups[..i + 1][..i] == groups[..i];
      var currPart := groups[i];
      if currPart.Some? && !IsBlank(currPart.value) {
        parts[partsIdx] := currPart;
        partsIdx := partsIdx + 1;
      }
      i := i + 1;
    }
    assert groups[..i] == groups;
  }

  /** A token is never blank, so all three groups survive the compaction
      in their places. */
  lemma CompactedGroups(g: Groups)
    requires WellFormed(g)
    ensures NonBlank([Some(g.degree), Some(g.minute), g.second])
         == [g.degree, g.minute] + (if g.second.Some? then [g.second.value] else [])
  {
    UnsignedNotBlank(g.degree);
    UnsignedNotBlank(g.minute);
    if g.second.Some? {
      UnsignedNotBlank(g.second.value);
    }
    var groups := [Some(g.degree), Some(g.minute), g.second];
    assert groups[..2] == [Some(g.degree), Some(g.minute)];
    assert groups[..2][..1] == [Some(g.degree)];
    assert groups[..2][..1][..0] == [];
    assert NonBlank(groups[..2][..1][..0]) == [];
    assert NonBlank(groups[..2][..1]) == [g.degree];
    assert NonBlank(groups[..2]) == [g.degree, g.minute];
  }

  /** Decimal text always holds a digit, which is not whitespace. */
  lemma UnsignedNotBlank(t: string)
    requires IsUnsignedText(t)
    ensures !IsBlank(t) && |t| > 0 && t[0] != '-'
  {
    var k := DotIndex(t);
    if k > 0 {
      assert IsDigit(t[..k][0]);
    } else {
      assert IsDigit(t[k + 1..][0]);
    }
  }

  // ---------------------------------------------------------------------
  // The guards and the value

  /** `negation`, lines 159-160: -1 when the text ends in S or W. */
  function Sign(dms: string): real {
    if EndsWithOneOf(dms, SouthWest) then -1.0 else 1.0
  }

  /** `m * negation` of line 228, without the product: `m`, negated for S
      and W. */
  function Signed(dms: string, m: real): real {
    if EndsWithOneOf(dms, SouthWest) then -m else m
  }

  lemma SignedProduct(dms: string, m: real)
    ensures m * Sign(dms) == Signed(dms, m)
  {
  }

  /** `NumberUtils.parseNumber(part, Double.class, 0d)`: 0 for a missing
      part. */
  function PartValue(part: Option<string>): (v: real)
    ensures part.Some? && IsUnsignedText(part.value) ==> v == UnsignedValue(part.value) && v >= 0.0
    ensures part.None? ==> v == 0.0
  {
    if part.None? then 0.0
    else
      if IsUnsignedText(part.value) then UnsignedNotBlank(part.value); ParseDecimal(part.value).GetOr(0.0)
      else ParseDecimal(part.value).GetOr(0.0)
  }

  /** `degree + minute/60 + second/3600` of line 228, before the sign. */
  function Magnitude(g: Groups): (m: real)
    ensures WellFormed(g) ==> m >= 0.0
  {
    PartValue(Some(g.degree)) + PartValue(Some(g.minute)) / 60.0 + PartValue(g.second) / 3600.0
  }

  /** The text of the captured groups, as concatenated at line 195. */
  function GroupsText(g: Groups): string {
    g.degree + g.minute + (if g.second.Some? then g.second.value else "")
  }

  /** `p_dms.matches(".*[\"s″].*")`: a marker and, since `.` stops at line
      terminators, no line terminator anywhere. */
  predicate HasSecondMarker(p: string) {
    (exists k :: 0 <= k < |p| && IsSecondMarker(p[k]))
    && (forall k :: 0 <= k < |p| ==> !IsLineTerminator(p[k]))
  }

  /** The decimal value, or null, and the errors appended. */
  datatype Outcome = Outcome(value: Option<real>, errors: seq<Diagnostic>)

  function Reject(kind: ErrorKind, dms: string): Outcome {
    Outcome(None, [Diagnostic(kind, dms)])
  }

  /** The checks that a match must pass (lines 195-225). */
  predicate Acceptable(dms: string, p: string, g: Groups) {
    Digits(GroupsText(g)) == Digits(dms)
    && !('.' in g.minute && g.second.Some?)
    && !(g.second.None? && HasSecondMarker(p))
  }

  /** `process(dms, result)`. */
  function Convert(dms: string): (r: Outcome)
    ensures IsBlank(dms) ==> r == Outcome(None, [])
    ensures r.value.Some? ==> r.errors == []
    ensures !IsBlank(dms) && r.value.None? ==> (|r.errors| == 1 && r.errors[0].Diagnostic? && r.errors[0].subject == dms)
    ensures !IsBlank(dms) && !EndsWithOneOf(dms, Cardinals) ==> r == Reject(DmsNoCardinalDirection, dms)
    ensures !IsBlank(dms) && EndsWithOneOf(dms, Cardinals) ==>
      var p := RemoveSignAndCardinal(dms);
      (SplitDmsParts(p).None? ==> r == Reject(DmsPatternDoesntMatch, dms))
      && (SplitDmsParts(p).Some? ==> (r.value.Some? <==> Acceptable(dms, p, SplitDmsParts(p).value)))
    ensures r.value.Some? ==> (EndsWithOneOf(dms, Cardinals) && SplitDmsParts(RemoveSignAndCardinal(dms)).Some?
      && var g := SplitDmsParts(RemoveSignAndCardinal(dms)).value;
         Digits(GroupsText(g)) == Digits(dms)
         && ('.' in g.minute ==> g.second.None?)
         && r.value.value == Signed(dms, Magnitude(g)))
    ensures r.value.Some? ==> (EndsWithOneOf(dms, SouthWest) ==> r.value.value <= 0.0)
    ensures r.value.Some? ==> (!EndsWithOneOf(dms, SouthWest) ==> r.value.value >= 0.0)
  {
    if IsBlank(dms) then Outcome(None, [])
    else if !EndsWithOneOf(dms, Cardinals) then Reject(DmsNoCardinalDirection, dms)
    else
      var p := RemoveSignAndCardinal(dms);
      match SplitDmsParts(p)
      case None => Reject(DmsPatternDoesntMatch, dms)
      case Some(g) => CheckGroups(dms, p, g)
  }

  /** Lines 195-228, once the groups are known: the checks in order, then
      the signed value. */
  function CheckGroups(dms: string, p: string, g: Groups): (r: Outcome)
    ensures r.value.Some? <==> Acceptable(dms, p, g)
    ensures r.value.Some? ==> r == Outcome(Some(Signed(dms, Magnitude(g))), [])
    ensures Digits(GroupsText(g)) != Digits(dms) ==> r == Reject(DmsPatternDoesntMatch, dms)
    ensures Digits(GroupsText(g)) == Digits(dms) && '.' in g.minute && g.second.Some? ==> r == Reject(DmsDecimalMinute, dms)
    ensures Digits(GroupsText(g)) == Digits(dms) && g.second.None? && HasSecondMarker(p) ==> r == Reject(DmsUnprocessable, dms)
  {
    if Digits(GroupsText(g)) != Digits(dms) then Reject(DmsPatternDoesntMatch, dms)
    else if '.' in g.minute && g.second.Some? then Reject(DmsDecimalMinute, dms)
    else if g.second.None? && HasSecondMarker(p) then Reject(DmsUnprocessable, dms)
    else Outcome(Some(Signed(dms, Magnitude(g))), [])
  }

  /** A '-' in front of the text moves the `\s*$` run by one. */
  lemma {:induction false} TrailingSpaceShift(s: string, e: nat)
    requires e <= |s|
    ensures TrailingSpaceStart("-" + s, e + 1) == TrailingSpaceStart(s, e) + 1
  {
    assert ("-" + s)[e] == if e == 0 then '-' else s[e - 1];
    if e > 0 && IsRegexSpace(s[e - 1]) {
      TrailingSpaceShift(s, e - 1);
    }
  }

  /** A leading '-' never decides which letter ends the text. */
  lemma EndsWithShift(s: string, letters: set<char>)
    requires '-' !in letters
    ensures EndsWithOneOf("-" + s, letters) == EndsWithOneOf(s, letters)
  {
    var t := "-" + s;
    assert LetterZoneEnd(t) == LetterZoneEnd(s) + 1 by {
      if |s| > 0 { assert t[|t| - 1] == s[|s| - 1]; }
    }
    TrailingSpaceShift(s, LetterZoneEnd(s));
    var u := TrailingSpaceStart(s, LetterZoneEnd(s));
    assert u > 0 ==> t[u] == s[u - 1];
  }

  /** The sign comes from the cardinal letter alone: a leading '-' is
      stripped and the value is the one of the text without it. */
  lemma LeadingMinusIgnored(s: string)
    requires |s| > 0 && s[0] != '-' && !IsJavaWhitespace(s[0])
    ensures Convert("-" + s).value == Convert(s).value
  {
    var t := "-" + s;
    assert !IsBlank(s) && !IsBlank(t) by {
      assert t[0] == '-' && !IsJavaWhitespace(t[0]);
    }
    EndsWithShift(s, Cardinals);
    if !EndsWithOneOf(s, Cardinals) {
      assert Convert(t).value.None? && Convert(s).value.None?;
    } else {
      RemoveShift(s);
      var p := RemoveSignAndCardinal(s);
      if SplitDmsParts(p).None? {
        assert Convert(t).value.None? && Convert(s).value.None?;
      } else {
        var g := SplitDmsParts(p).value;
        assert Convert(t) == CheckGroups(t, p, g);
        assert Convert(s) == CheckGroups(s, p, g);
        assert Digits(t) == Digits(s) by {
          FilterAppend("-", s, IsDigit);
          assert Digits("-") == "";
        }
        assert Sign(t) == Sign(s) by {
          EndsWithShift(s, SouthWest);
        }
        SameDigitsSameValue(t, s, p, g);
      }
    }
  }

  /** The value of a match depends on the text only through its digits
      and its sign. */
  lemma SameDigitsSameValue(a: string, b: string, p: string, g: Groups)
    requires Digits(a) == Digits(b) && Sign(a) == Sign(b)
    ensures CheckGroups(a, p, g).value == CheckGroups(b, p, g).value
  {
    assert Acceptable(a, p, g) == Acceptable(b, p, g);
    if Acceptable(a, p, g) {
      AcceptedValue(a, p, g);
      AcceptedValue(b, p, g);
    }
  }

  lemma AcceptedValue(dms: string, p: string, g: Groups)
    requires Acceptable(dms, p, g)
    ensures CheckGroups(dms, p, g).value == Some(Signed(dms, Magnitude(g)))
  {
  }

  /** The product of line 228 is the signed magnitude. */
  lemma AcceptedProduct(dms: string, p: string, g: Groups, magnitude: real, negation: real)
    requires Acceptable(dms, p, g) && negation == Sign(dms)
    requires magnitude == PartValue(Some(g.degree)) + PartValue(Some(g.minute)) / 60.0 + PartValue(g.second) / 3600.0
    ensures CheckGroups(dms, p, g).value == Some(magnitude * negation)
  {
    AcceptedValue(dms, p, g);
    SignedProduct(dms, magnitude);
  }

  /** Removing the sign prefix and the cardinal letter gives the same text
      with or without a leading '-'. */
  lemma RemoveShift(s: string)
    requires |s| > 0 && s[0] != '-' && !IsJavaWhitespace(s[0]) && EndsWithOneOf(s, Cardinals)
    ensures RemoveSignAndCardinal("-" + s) == RemoveSignAndCardinal(s)
  {
    var t := "-" + s;
    var z := LetterZoneEnd(s);
    var p := CardinalStart(s).value;
    CardinalShift(s);
    MinusSlice(s, 0, p);
    MinusSlice(s, z, |s|);
    CardinalRemoved(s, p);
    CardinalRemoved(t, p + 1);
  }

  /** A leading '-' is the whole sign prefix and moves the cardinal
      letter's match by one. */
  lemma CardinalShift(s: string)
    requires |s| > 0 && s[0] != '-' && !IsJavaWhitespace(s[0]) && EndsWithOneOf(s, Cardinals)
    ensures SignPrefixEnd("-" + s) == 1 && SignPrefixEnd(s) == 0
    ensures LetterZoneEnd("-" + s) == LetterZoneEnd(s) + 1
    ensures CardinalStart("-" + s) == Some(CardinalStart(s).value + 1)
  {
    var t := "-" + s;
    var z := LetterZoneEnd(s);
    assert t[1] == s[0];
    assert LetterZoneEnd(t) == z + 1 by {
      assert t[|t| - 1] == s[|s| - 1];
    }
    TrailingSpaceShift(s, z);
    var u := TrailingSpaceStart(s, z);
    assert t[u] == s[u - 1];
    assert u >= 2 ==> t[u - 1] == s[u - 2];
  }

  /** With a cardinal letter, the text between the sign prefix and the
      letter's match is followed by what comes after the letter zone. */
  lemma CardinalRemoved(s: string, p: nat)
    requires CardinalStart(s) == Some(p)
    ensures RemoveSignAndCardinal(s) == s[SignPrefixEnd(s)..p] + s[LetterZoneEnd(s)..]
  {
  }

  /** A leading '-' shifts every slice by one. */
  lemma MinusSlice(s: string, a: nat, b: nat)
    requires a <= b <= |s|
    ensures ("-" + s)[a + 1..b + 1] == s[a..b]
    ensures b == |s| ==> ("-" + s)[a + 1..] == s[a..]
  {
    var t := "-" + s;
    forall k | 0 <= k < b - a ensures t[a + 1..b + 1][k] == s[a..b][k] {
      assert t[a + 1 + k] == s[a + k];
    }
  }

  /** `validateBean`: valid when a value was computed, or when the value is
      optional and blank. */
  function DmsIsValid(dms: string, isMandatory: bool): (valid: bool)
    ensures valid <==> Convert(dms).errors == [] && (isMandatory ==> !IsBlank(dms))
  {
    Convert(dms).value.Some? || (!isMandatory && IsBlank(dms))
  }

  /** `process` with its collector: the guards in the source's order, the
      compaction loop, then the arithmetic. */
  method Process(dms: string, result: ProcessingResult?) returns (decimal: Option<real>)
    modifies Frame(result)
    ensures decimal == Convert(dms).value
    ensures Errors(result) == old(Errors(result)) + (if result == null then [] else Convert(dms).errors)
  {
    if IsBlank(dms) {
      return None;
    }
    if !EndsWithOneOf(dms, Cardinals) {
      Report(result, [Diagnostic(DmsNoCardinalDirection, dms)]);
      return None;
    }
    var negation := if EndsWithOneOf(dms, SouthWest) then -1.0 else 1.0;
    var p := RemoveSignAndCardinal(dms);
    var m := SplitDmsParts(p);
    if m.None? {
      Report(result, [Diagnostic(DmsPatternDoesntMatch, dms)]);
      return None;
    }
    decimal := ConvertGroups(dms, p, m.value, negation, result);
  }

  /** Lines 180-229, once SPLIT_DMS_PARTS has matched `p_dms`. */
  method ConvertGroups(dms: string, p: string, g: Groups, negation: real, result: ProcessingResult?)
    returns (decimal: Option<real>)
    requires WellFormed(g) && negation == Sign(dms)
    modifies Frame(result)
    ensures decimal == CheckGroups(dms, p, g).value
    ensures Errors(result) == old(Errors(result)) + (if result == null then [] else CheckGroups(dms, p, g).errors)
  {
    var allNumbers := Digits(dms);
    var parts := CompactParts([Some(g.degree), Some(g.minute), g.second]);
    assert parts[0] == Some(g.degree) && parts[1] == Some(g.minute) && parts[2] == g.second by {
      CompactedGroups(g);
    }
    var degree := PartValue(parts[0]);
    var minute := PartValue(parts[1]);
    var second := PartValue(parts[2]);
    var secondText := if parts[2].Some? then parts[2].value else "";
    if Digits(parts[0].value + parts[1].value + secondText) != allNumbers {
      assert CheckGroups(dms, p, g) == Reject(DmsPatternDoesntMatch, dms);
      Report(result, [Diagnostic(DmsPatternDoesntMatch, dms)]);
      return None;
    }
    if '.' in parts[1].value && parts[2].Some? {
      assert CheckGroups(dms, p, g) == Reject(DmsDecimalMinute, dms);
      Report(result, [Diagnostic(DmsDecimalMinute, dms)]);
      return None;
    }
    if parts[2].None? && HasSecondMarker(p) {
      assert CheckGroups(dms, p, g) == Reject(DmsUnprocessable, dms);
      Report(result, [Diagnostic(DmsUnprocessable, dms)]);
      return None;
    }
    var magnitude := degree + minute / 60.0 + second / 3600.0;
    AcceptedProduct(dms, p, g, magnitude, negation);
    decimal := Some(magnitude * negation);
  }
}
