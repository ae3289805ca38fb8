/** The decimal and the inverted degree-minute-second pairs of the
    processor's unit tests, computed by the model. */
module CoordinatePairExamples {
  import opened Wrappers
  import opened JavaText
  import opened CoordinatePair
  import opened Diagnostics

  const DecimalText := "-71.87°;35.98 °"

  lemma Run1() ensures DigitRunEnd(DecimalText, 1) == 3 {
    var s := DecimalText;
    assert s[1] == '7' && s[2] == '1' && s[3] == '.';
  }
  lemma Run4() ensures DigitRunEnd(DecimalText, 4) == 6 {
    var s := DecimalText;
    assert s[4] == '8' && s[5] == '7' && s[6] == '°';
  }
  lemma Number1() ensures DecimalNumberEnd(DecimalText, 1) == Some(6) {
    Run1(); Run4();
  }
  lemma Next6() ensures NextDigit(DecimalText, 6) == 8 {
    var s := DecimalText;
    assert s[6] == '°' && s[7] == ';' && s[8] == '3';
  }
  lemma Run8() ensures DigitRunEnd(DecimalText, 8) == 10 {
    var s := DecimalText;
    assert s[8] == '3' && s[9] == '5' && s[10] == '.';
  }
  lemma Run11() ensures DigitRunEnd(DecimalText, 11) == 13 {
    var s := DecimalText;
    assert s[11] == '9' && s[12] == '8' && s[13] == ' ';
  }
  lemma Number8() ensures DecimalNumberEnd(DecimalText, 8) == Some(13) {
    Run8(); Run11();
  }
  /** A negative first number ending at `e`, one separator, then a second
      number from `e + 2` to `c`. */
  lemma MinusPairAt(s: string, e: nat, c: nat)
    requires 0 < |s| && s[0] == '-'
    requires DecimalNumberEnd(s, 1) == Some(e)
    requires e + 2 < |s| && NextDigit(s, e) == e + 2 && IsDecimalSeparator(s[e + 1])
    requires DecimalNumberEnd(s, e + 2) == Some(c)
    ensures DecimalPair(s) == Some((s[..e], s[e + 2..c]))
  {
    assert GroupsAt(s, e, e + 2, e + 2) == Some((s[..e], s[e + 2..c]));
    assert AfterFirstGroup(s, e) == Some((s[..e], s[e + 2..c]));
    assert !IsRegexSpace(s[0]);
  }

  /** A latitude alone, ending in a comma (`45.5N,`), is no pair. */
  lemma LoneLatitude(s: string)
    requires s == "45.5N,"
    ensures SplitPair(s) == Split(None, [Diagnostic(PairNoValidCoordinate, s)])
  {
    assert !IsJavaWhitespace(s[0]);
    assert NoInnerSeparator(s);
    LoneCoordinate(s);
  }

  lemma DecimalExample()
    ensures DecimalPair(DecimalText) == Some(("-71.87", "35.98"))
  {
    var s := DecimalText;
    Number1(); Next6(); Number8();
    assert s[0] == '-' && s[7] == ';';
    MinusPairAt(s, 6, 13);
    DecimalGroups();
  }

  lemma DecimalGroups() ensures DecimalText[..6] == "-71.87" && DecimalText[8..13] == "35.98" {
    var s := DecimalText;
    assert s[8..13] == "35.98" by {
      assert s[8] == '3' && s[9] == '5' && s[10] == '.' && s[11] == '9' && s[12] == '8';
    }
  }

  const Inverted := "74° 0' 21.5022\"W/40°26'47\"N"

  /** A first number from 0 to `e` whose following digit at `f` starts no
      second number. */
  lemma SecondNumberMissing(s: string, e: nat, f: nat)
    requires 0 < |s| && !IsRegexSpace(s[0]) && s[0] != '-'
    requires DecimalNumberEnd(s, 0) == Some(e)
    requires NextDigit(s, e) == f && f < |s| && DecimalNumberEnd(s, f) == None
    ensures DecimalPair(s) == None
  {
  }

  lemma InvertedNotDecimal() ensures DecimalPair(Inverted) == None {
    var s := Inverted;
    assert s[0] == '7' && s[1] == '4' && s[2] == '°';
    assert DigitRunEnd(s, 0) == 2;
    assert DecimalNumberEnd(s, 0) == Some(2);
    assert s[3] == ' ' && s[4] == '0' && s[5] == '\'';
    assert NextDigit(s, 2) == 4;
    assert DigitRunEnd(s, 4) == 5;
    SecondNumberMissing(s, 2, 4);
  }

  lemma InvertedOneLine() ensures |Inverted| == 27 && LineEnd(Inverted, 0) == 27 {
    var s := Inverted;
    assert forall k :: 0 <= k < 27 ==> !IsLineTerminator(s[k]);
  }

  lemma InvertedLastSeparator()
    ensures |Inverted| == 27 && LastInnerSeparator(Inverted, 0, 27, 27) == Some(16)
  {
    var s := Inverted;
    assert forall i :: 16 < i < 26 ==> !IsDmsSeparator(s[i]);
    LastInnerSeparatorIsLast(s, 0, 27, 27, 16);
  }

  lemma InvertedSplit() ensures DmsSplit(Inverted, 0) == Some((0, 16, 27)) {
    InvertedOneLine();
    InvertedLastSeparator();
  }

  lemma InvertedHalves()
    ensures DmsPair(Inverted) == Some(("74° 0' 21.5022\"W", "40°26'47\"N"))
  {
    InvertedSplit();
    assert Inverted[0..16] == "74° 0' 21.5022\"W";
    assert Inverted[17..27] == Inverted[17..];
    assert Inverted[17..] == "40°26'47\"N";
  }

  lemma InvertedCardinals()
    ensures EndsWithOneOf("74° 0' 21.5022\"W", EastWest)
    ensures !EndsWithOneOf("40°26'47\"N", EastWest) && EndsWithOneOf("40°26'47\"N", NorthSouth)
  {
    var g1, g2 := "74° 0' 21.5022\"W", "40°26'47\"N";
    assert TrailingSpaceStart(g1, LetterZoneEnd(g1)) == |g1|;
    assert TrailingSpaceStart(g2, LetterZoneEnd(g2)) == |g2|;
  }

  lemma InvertedExample()
    ensures SplitPair(Inverted).pair == Some(("40°26'47\"N", "74° 0' 21.5022\"W"))
  {
    InvertedNotDecimal(); InvertedHalves(); InvertedCardinals();
    assert !IsBlank(Inverted) by { assert !IsJavaWhitespace(Inverted[0]); }
  }
}
