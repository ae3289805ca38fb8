/** Test inputs of the converter, computed by the model. */
module DegreeMinuteExamples {
  import opened Wrappers
  import opened JavaText
  import opened Diagnostics
  import opened Numbers
  import opened DegreeMinute

  const Colons := "40:26:47N"

  lemma ColonsStripped() ensures RemoveSignAndCardinal(Colons) == "40:26:47" {
    var s := Colons;
    assert LetterZoneEnd(s) == 9;
    assert TrailingSpaceStart(s, 9) == 9;
    assert s[8] == 'N' && s[7] == '7';
    assert SignPrefixEnd(s) == 0;
    assert CardinalStart(s) == Some(8);
    assert s[0..8] + s[9..] == "40:26:47";
  }

  lemma ColonsGroups() ensures MatchAt("40:26:47", 0) == Some(Groups("40", "26", Some("47"))) {
    var p := "40:26:47";
    assert DigitRunEnd(p, 0) == 2;
    assert RunEnd(p, 2, IsDegreeSeparator) == 3;
    assert DigitRunEnd(p, 3) == 5;
    assert TokenEnd(p, 3) == Some(5);
    assert RunEnd(p, 5, IsMinuteSeparator) == 6;
    assert DigitRunEnd(p, 6) == 8;
    assert TokenEnd(p, 6) == Some(8);
    assert TokenEnd(p, 8) == None;
    assert LastToken(p, 6) == Some((6, 8));
    assert p[0..2] == "40" && p[3..5] == "26" && p[6..8] == "47";
  }

  /** A non-digit between two texts contributes nothing to their digits. */
  lemma DigitsSkip(a: string, c: char, b: string)
    requires !IsDigit(c)
    ensures Digits(a + [c] + b) == Digits(a) + Digits(b)
  {
    FilterAppend(a + [c], b, IsDigit);
    FilterAppend(a, [c], IsDigit);
    FilterDropsAll([c], IsDigit);
  }

  /** Digits around two separators are all the digits. */
  lemma DigitsAroundSeparators(d: string, c: char, m: string, e: char, sec: string)
    requires !IsDigit(c) && !IsDigit(e)
    ensures Digits(d + [c] + (m + [e] + sec)) == Digits(d) + Digits(m) + Digits(sec)
  {
    DigitsSkip(d, c, m + [e] + sec);
    DigitsSkip(m, e, sec);
  }

  lemma ColonsDigits() ensures Digits("40:26:47") == "402647" {
    DigitsAroundSeparators("40", ':', "26", ':', "47");
    assert "40" + [':'] + ("26" + [':'] + "47") == "40:26:47";
    FilterKeepsAll("40", IsDigit);
    FilterKeepsAll("26", IsDigit);
    FilterKeepsAll("47", IsDigit);
  }

  lemma ColonsParts()
    ensures PartValue(Some("40")) == 40.0 && PartValue(Some("26")) == 26.0 && PartValue(Some("47")) == 47.0
  {
    DigitsParse("40"); DigitsParse("26"); DigitsParse("47");
    assert "40"[..1] == "4" && "26"[..1] == "2" && "47"[..1] == "4";
  }

  lemma ColonsSplit() ensures SplitDmsParts("40:26:47") == Some(Groups("40", "26", Some("47"))) {
    ColonsGroups();
    assert FirstMatch("40:26:47", 0) == Some(0);
  }

  lemma ColonsChecked()
    ensures CheckGroups(Colons, "40:26:47", Groups("40", "26", Some("47")))
         == Outcome(Some(40.0 + 26.0 / 60.0 + 47.0 / 3600.0), [])
  {
    var g := Groups("40", "26", Some("47"));
    ColonsStripped(); ColonsDigits(); ColonsParts();
    assert Digits(Colons) == "402647";
    FilterKeepsAll("402647", IsDigit);
    assert GroupsText(g) == "402647";
    assert '.' !in g.minute;
    ColonsCardinal();
  }

  lemma ColonsCardinal()
    ensures !IsBlank(Colons) && EndsWithOneOf(Colons, Cardinals) && !EndsWithOneOf(Colons, SouthWest)
  {
    assert !IsJavaWhitespace(Colons[0]);
    assert TrailingSpaceStart(Colons, LetterZoneEnd(Colons)) == 9;
  }

  /** 40:26:47N is 40 degrees, 26 minutes and 47 seconds north. */
  lemma ColonsExample()
    ensures Convert(Colons).value == Some(40.0 + 26.0 / 60.0 + 47.0 / 3600.0)
  {
    ColonsStripped(); ColonsSplit(); ColonsChecked(); ColonsCardinal();
  }

  // A decimal degree: the match starts after the '.', so the digits 4 and
  // 0 are not captured and the digit check rejects the text.

  const DecimalDegree := "40.1:26:47N"

  lemma DecimalDegreeStripped() ensures RemoveSignAndCardinal(DecimalDegree) == "40.1:26:47" {
    var s := DecimalDegree;
    assert LetterZoneEnd(s) == 11;
    assert TrailingSpaceStart(s, 11) == 11;
    assert s[10] == 'N' && s[9] == '7';
    assert SignPrefixEnd(s) == 0;
    assert CardinalStart(s) == Some(10);
    assert s[0..10] + s[11..] == "40.1:26:47";
  }

  lemma DecimalDegreeNoEarlyMatch()
    ensures MatchAt("40.1:26:47", 0) == None && MatchAt("40.1:26:47", 1) == None && MatchAt("40.1:26:47", 2) == None
  {
    var p := "40.1:26:47";
    assert DigitRunEnd(p, 0) == 2 && p[2] == '.';
    assert MatchAt(p, 0) == None;
    assert DigitRunEnd(p, 1) == 2;
    assert MatchAt(p, 1) == None;
    assert DigitRunEnd(p, 2) == 2;
  }

  lemma DecimalDegreeSplit() ensures SplitDmsParts("40.1:26:47") == Some(Groups("1", "26", Some("47"))) {
    var p := "40.1:26:47";
    DecimalDegreeMatch();
    DecimalDegreeNoEarlyMatch();
    assert FirstMatch(p, 3) == Some(3);
    assert FirstMatch(p, 0) == Some(3);
  }

  lemma DecimalDegreeMatch() ensures MatchAt("40.1:26:47", 3) == Some(Groups("1", "26", Some("47"))) {
    var p := "40.1:26:47";
    assert DigitRunEnd(p, 3) == 4;
    assert RunEnd(p, 4, IsDegreeSeparator) == 5;
    assert DigitRunEnd(p, 5) == 7;
    assert TokenEnd(p, 5) == Some(7);
    assert RunEnd(p, 7, IsMinuteSeparator) == 8;
    assert DigitRunEnd(p, 8) == 10;
    assert TokenEnd(p, 8) == Some(10);
    assert TokenEnd(p, 10) == None;
    assert LastToken(p, 8) == Some((8, 10));
    assert p[3..4] == "1" && p[5..7] == "26" && p[8..10] == "47";
  }

  lemma DecimalDegreeDigits() ensures |Digits("40.1:26:47")| == 7 {
    DigitsAroundSeparators("40.1", ':', "26", ':', "47");
    assert "40.1" + [':'] + ("26" + [':'] + "47") == "40.1:26:47";
    DigitsSkip("40", '.', "1");
    assert "40" + ['.'] + "1" == "40.1";
    FilterKeepsAll("40", IsDigit);
    FilterKeepsAll("1", IsDigit);
    FilterKeepsAll("26", IsDigit);
    FilterKeepsAll("47", IsDigit);
  }

  lemma DecimalDegreeCardinal()
    ensures !IsBlank(DecimalDegree) && EndsWithOneOf(DecimalDegree, Cardinals)
  {
    assert !IsJavaWhitespace(DecimalDegree[0]);
    assert TrailingSpaceStart(DecimalDegree, LetterZoneEnd(DecimalDegree)) == 11;
  }

  /** 40.1:26:47N is rejected: a decimal degree is not supported. */
  lemma DecimalDegreeExample()
    ensures Convert(DecimalDegree) == Reject(DmsPatternDoesntMatch, DecimalDegree)
  {
    DecimalDegreeStripped(); DecimalDegreeSplit(); DecimalDegreeCardinal(); DecimalDegreeChecked();
  }

  lemma DecimalDegreeChecked()
    ensures CheckGroups(DecimalDegree, "40.1:26:47", Groups("1", "26", Some("47")))
         == Reject(DmsPatternDoesntMatch, DecimalDegree)
  {
    var g := Groups("1", "26", Some("47"));
    DecimalDegreeStripped(); DecimalDegreeDigits();
    FilterKeepsAll("12647", IsDigit);
    assert GroupsText(g) == "12647";
    assert Digits(GroupsText(g)) != Digits(DecimalDegree);
  }

  // Seconds marked without a seconds value.

  const MarkerOnly := "40d8.29sN"

  lemma MarkerOnlyStripped() ensures RemoveSignAndCardinal(MarkerOnly) == "40d8.29s" {
    var s := MarkerOnly;
    assert LetterZoneEnd(s) == 9;
    assert TrailingSpaceStart(s, 9) == 9;
    assert s[8] == 'N' && s[7] == 's';
    assert SignPrefixEnd(s) == 0;
    assert CardinalStart(s) == Some(8);
    assert s[0..8] + s[9..] == "40d8.29s";
  }

  lemma MarkerOnlySplit() ensures SplitDmsParts("40d8.29s") == Some(Groups("40", "8.29", None)) {
    var p := "40d8.29s";
    assert DigitRunEnd(p, 0) == 2;
    assert RunEnd(p, 2, IsDegreeSeparator) == 3;
    assert DigitRunEnd(p, 3) == 4;
    assert DigitRunEnd(p, 5) == 7;
    assert TokenEnd(p, 3) == Some(7);
    assert RunEnd(p, 7, IsMinuteSeparator) == 7;
    assert DigitRunEnd(p, 7) == 7;
    assert TokenEnd(p, 7) == None;
    assert p[0..2] == "40" && p[3..7] == "8.29";
    assert MatchAt(p, 0) == Some(Groups("40", "8.29", None));
    assert FirstMatch(p, 0) == Some(0);
  }

  lemma MarkerOnlyDigits() ensures Digits("40d8.29s") == Digits("408.29") {
    DigitsSkip("40", 'd', "8.29s");
    assert "40" + ['d'] + "8.29s" == "40d8.29s";
    DigitsSkip("8.29", 's', "");
    assert "8.29" + ['s'] + "" == "8.29s";
    FilterAppend("40", "8.29", IsDigit);
    assert "40" + "8.29" == "408.29";
  }

  lemma MarkerOnlyCardinal()
    ensures !IsBlank(MarkerOnly) && EndsWithOneOf(MarkerOnly, Cardinals)
  {
    assert !IsJavaWhitespace(MarkerOnly[0]);
    assert TrailingSpaceStart(MarkerOnly, LetterZoneEnd(MarkerOnly)) == 9;
  }

  /** 40d8.29sN is rejected: an 's' marks seconds that are not there. */
  lemma MarkerOnlyExample()
    ensures Convert(MarkerOnly) == Reject(DmsUnprocessable, MarkerOnly)
  {
    MarkerOnlyStripped(); MarkerOnlySplit(); MarkerOnlyCardinal(); MarkerOnlyChecked();
  }

  lemma MarkerOnlyChecked()
    ensures CheckGroups(MarkerOnly, "40d8.29s", Groups("40", "8.29", None)) == Reject(DmsUnprocessable, MarkerOnly)
  {
    var p := "40d8.29s";
    var g := Groups("40", "8.29", None);
    MarkerOnlyStripped(); MarkerOnlyDigits();
    assert GroupsText(g) == "408.29";
    assert IsSecondMarker(p[7]);
    assert HasSecondMarker(p);
  }

  /** 40°26'47" has no cardinal letter. */
  lemma NoCardinalExample()
    ensures Convert(NoCardinal) == Reject(DmsNoCardinalDirection, NoCardinal)
  {
    NoCardinalFacts();
  }

  const NoCardinal := "40°26'47\""

  lemma NoCardinalFacts() ensures !IsBlank(NoCardinal) && !EndsWithOneOf(NoCardinal, Cardinals) {
    var s := NoCardinal;
    assert !IsJavaWhitespace(s[0]);
    assert TrailingSpaceStart(s, LetterZoneEnd(s)) == |s|;
  }
}
