/** Person names worked through the model: the accented name that the
    misread separator class cuts, and the "annotated by" phrase that the
    backspace in line 51 keeps from matching. */
module PersonNameExamples {
  import opened Wrappers
  import opened JavaText
  import opened NamePatterns
  import opened PersonName

  /** Inside a word NORMALIZE matches nothing but its class: every other
      alternative but `&\s+others` needs `\b`. */
  lemma NormalizeMidWord(s: string, i: nat)
    requires 0 < i < |s| && IsWordChar(s[i - 1]) && IsWordChar(s[i])
    requires s[i] !in DeletedChars && s[i] != '&'
    ensures FirstMatch(s, i, NormalizePattern).None?
  {
    NormalizePatternConsumes();
    assert !IsBoundary(s, i);
    NoMatchWhereBlocked(s, i, NormalizePattern);
  }

  /** Inside a word SPLIT_NAMES matches nothing but its class. */
  lemma SplitMidWord(s: string, i: nat, chars: set<char>, annotatedTail: Tail)
    requires 0 < i < |s| && IsWordChar(s[i - 1]) && IsWordChar(s[i]) && s[i] !in chars
    ensures Consuming(SplitNames(chars, annotatedTail))
    ensures FirstMatch(s, i, SplitNames(chars, annotatedTail)).None?
  {
    SplitNamesConsume(chars, annotatedTail);
    assert !IsBoundary(s, i);
    NoMatchWhereBlocked(s, i, SplitNames(chars, annotatedTail));
  }

  /** "Gâteau", a word with a Latin-1 letter. */
  const Gateau: string := "G\U{E2}teau"

  /** Every letter of "Gâteau" is a word character. */
  lemma GateauWord()
    ensures |Gateau| == 6
    ensures forall k :: 0 <= k < |Gateau| ==> IsWordChar(Gateau[k])
  {
  }

  /** The characters a NORMALIZE match starts with, besides white space. */
  const NormalizeInitials: set<char> := DeletedChars + {'a', 'e', 'u', '&', ','}

  lemma NormalizePatternInitials()
    ensures Initials(NormalizePattern, NormalizeInitials)
  {
  }

  /** A word of clean letters whose first character starts no NORMALIZE
      match holds no NORMALIZE match. */
  lemma NormalizeNoneInWord(s: string)
    requires |s| > 0 && !IsRegexSpace(s[0])
    requires s[0] !in NormalizeInitials && LowerAscii(s[0]) !in NormalizeInitials
    requires forall k :: 0 <= k < |s| ==> IsWordChar(s[k]) && s[k] !in DeletedChars && s[k] != '&'
    ensures Consuming(NormalizePattern)
    ensures forall k :: 0 <= k < |s| ==> FirstMatch(s, k, NormalizePattern).None?
  {
    NormalizePatternConsumes();
    NormalizePatternInitials();
    forall k | 0 <= k < |s| ensures FirstMatch(s, k, NormalizePattern).None? {
      if k == 0 {
        NoMatchOffInitials(s, 0, NormalizePattern, NormalizeInitials);
      } else {
        NormalizeMidWord(s, k);
      }
    }
  }

  /** No NORMALIZE match and nothing to normalise: the name is split as
      given. */
  lemma GateauScrubbed()
    ensures Scrubbed(Gateau) == Gateau
  {
    GateauWord();
    NormalizeKeepsClean(Gateau);
    NormalizeNoneInWord(Gateau);
    DeleteNothing(Gateau, NormalizePattern, 0);
  }

  /** The letters the keywords of SPLIT_NAMES start with. */
  const KeywordInitials: set<char> := {'a', 'c', 'd', 'e', 'i', 'r', 's', 't', 'v', 'w'}

  /** A match of SPLIT_NAMES starts with a character of its class, white
      space or a keyword initial. */
  lemma SplitNamesInitials(chars: set<char>, annotatedTail: Tail)
    requires forall c :: c in chars ==> !('A' <= c <= 'Z')
    ensures Initials(SplitNames(chars, annotatedTail), chars + KeywordInitials)
  {
    var alts, cs := SplitNames(chars, annotatedTail), chars + KeywordInitials;
    LaterLines(chars, annotatedTail);
    forall k | 4 <= k < |alts| ensures StartsWithin(alts[k], cs) {
      assert alts[k] == alts[4..][k - 4];
      StartsWithinWider(alts[k], LaterInitials, cs);
    }
  }

  /** A wider set of initial characters still covers every match. */
  lemma StartsWithinWider(alt: Alternative, cs: set<char>, ds: set<char>)
    requires StartsWithin(alt, cs) && cs <= ds
    ensures StartsWithin(alt, ds)
  {
  }

  /** A character that is no white space and, up to ASCII case, no
      keyword initial nor in the class, starts no match of SPLIT_NAMES. */
  lemma SplitStart(s: string, i: nat, chars: set<char>, annotatedTail: Tail)
    requires i < |s| && !IsRegexSpace(s[i])
    requires s[i] !in chars + KeywordInitials && LowerAscii(s[i]) !in chars + KeywordInitials
    requires forall c :: c in chars ==> !('A' <= c <= 'Z')
    ensures Consuming(SplitNames(chars, annotatedTail))
    ensures FirstMatch(s, i, SplitNames(chars, annotatedTail)).None?
  {
    SplitNamesConsume(chars, annotatedTail);
    SplitNamesInitials(chars, annotatedTail);
    NoMatchOffInitials(s, i, SplitNames(chars, annotatedTail), chars + KeywordInitials);
  }

  /** From `j` on, a word with none of the class's characters holds no
      SPLIT_NAMES match. */
  lemma SplitNoneInWord(s: string, j: nat, chars: set<char>, annotatedTail: Tail)
    requires 0 < j <= |s|
    requires forall k :: j - 1 <= k < |s| ==> IsWordChar(s[k])
    requires forall k :: j <= k < |s| ==> s[k] !in chars
    ensures Consuming(SplitNames(chars, annotatedTail))
    ensures forall k :: j <= k < |s| ==> FirstMatch(s, k, SplitNames(chars, annotatedTail)).None?
  {
    SplitNamesConsume(chars, annotatedTail);
    forall k | j <= k < |s| ensures FirstMatch(s, k, SplitNames(chars, annotatedTail)).None? {
      SplitMidWord(s, k, chars, annotatedTail);
    }
  }

  /** A name that is its own trim and not blank is kept as it is. */
  lemma KeptAsIs(n: string)
    requires |n| > 0 && !IsTrimmed(n[0]) && !IsTrimmed(n[|n| - 1]) && !IsJavaWhitespace(n[0])
    ensures Kept(n) == [n]
  {
    TrimStartFixed(n);
    TrimEndFixed(n);
  }

  /** A character of the class matches where it stands: the class is the
      first alternative. */
  lemma SplitClassMatch(s: string, i: nat, chars: set<char>, annotatedTail: Tail)
    requires i < |s| && s[i] in chars
    ensures Consuming(SplitNames(chars, annotatedTail))
    ensures FirstMatch(s, i, SplitNames(chars, annotatedTail)) == Some(i + 1)
  {
    SplitNamesConsume(chars, annotatedTail);
    assert MatchAlt(s, i, SplitNames(chars, annotatedTail)[0]) == Some(i + 1);
  }

  /** A word whose second character, and no other, is in the class of
      SPLIT_NAMES, and whose first starts no match, is split around that
      character. */
  lemma SplitAfterFirst(s: string, chars: set<char>, annotatedTail: Tail)
    requires 2 < |s| && !IsRegexSpace(s[0])
    requires s[0] !in chars + KeywordInitials && LowerAscii(s[0]) !in chars + KeywordInitials
    requires forall c :: c in chars ==> !('A' <= c <= 'Z')
    requires s[1] in chars
    requires forall k :: 1 <= k < |s| ==> IsWordChar(s[k])
    requires forall k :: 2 <= k < |s| ==> s[k] !in chars
    ensures Consuming(SplitNames(chars, annotatedTail))
    ensures Split(s, SplitNames(chars, annotatedTail)) == [s[..1], s[2..]]
  {
    var p := SplitNames(chars, annotatedTail);
    SplitStart(s, 0, chars, annotatedTail);
    SplitClassMatch(s, 1, chars, annotatedTail);
    SplitNoneInWord(s, 2, chars, annotatedTail);
    SplitOneMatch(s, p, 1, 2);
  }

  /** As written, `split` cuts "Gâteau" at the 'â'. */
  lemma GateauSplitAsWritten()
    ensures Consuming(SplitPatternAsWritten)
    ensures Split(Gateau, SplitPatternAsWritten) == [Gateau[..1], Gateau[2..]]
  {
    GateauWord();
    SplitAfterFirst(Gateau, MisreadSeparatorChars, Backspace);
  }

  /** A text that scrubbing leaves as it is, and that is split into two
      parts that are their own trim and not blank, gives those two names. */
  lemma TwoNames(rawValue: string, pattern: seq<Alternative>, a: string, b: string)
    requires Consuming(pattern) && Scrubbed(rawValue) == rawValue && Split(rawValue, pattern) == [a, b]
    requires |a| > 0 && !IsTrimmed(a[0]) && !IsTrimmed(a[|a| - 1]) && !IsJavaWhitespace(a[0])
    requires |b| > 0 && !IsTrimmed(b[0]) && !IsTrimmed(b[|b| - 1]) && !IsJavaWhitespace(b[0])
    ensures NamesWith(rawValue, pattern) == [a, b]
  {
    KeptAsIs(a);
    KeptAsIs(b);
    assert KeepNames([a, b]) == KeepNames([a]) + Kept(b) by {
      assert [a, b][..1] == [a];
    }
    assert KeepNames([a]) == KeepNames([]) + Kept(a) by {
      assert [a][..0] == [];
    }
  }

  /** "G" and "teau", the two halves of "Gâteau" around the 'â'. */
  const GateauHead: string := "G"
  const GateauTail: string := "teau"

  /** As written, the class holds 'â': "Gâteau" comes back as "G" and
      "teau". */
  lemma AccentedNameCutAsWritten()
    ensures Consuming(SplitPatternAsWritten)
    ensures NamesWith(Gateau, SplitPatternAsWritten) == [GateauHead, GateauTail]
  {
    GateauScrubbed();
    GateauSplitAsWritten();
    TwoNames(Gateau, SplitPatternAsWritten, Gateau[..1], Gateau[2..]);
    assert Gateau[..1] == GateauHead && Gateau[2..] == GateauTail;
  }

  /** SPLIT_NAMES as meant matches nowhere in "Gâteau". */
  lemma GateauSplitNone()
    ensures Consuming(SplitPattern)
    ensures forall k :: 0 <= k < |Gateau| ==> FirstMatch(Gateau, k, SplitPattern).None?
  {
    GateauWord();
    SplitStart(Gateau, 0, SeparatorChars, Boundary);
    SplitNoneInWord(Gateau, 1, SeparatorChars, Boundary);
  }

  /** With the en dash in the class, "Gâteau" is one name. */
  lemma AccentedNameKept()
    ensures Names(Gateau) == [Gateau]
  {
    GateauScrubbed();
    GateauSplitNone();
    SplitNoMatch(Gateau, SplitPattern);
    KeptAsIs(Gateau);
    assert KeepNames([Gateau]) == KeepNames([]) + Kept(Gateau);
  }

  /** "annotated by " and a word, starting at the word start `i`. */
  predicate AnnotatedByAt(s: string, i: nat) {
    0 < i && i + 13 < |s| && !IsWordChar(s[i - 1]) && s[i..i + 9] == "annotated"
    && s[i + 9] == ' ' && s[i + 10] == 'b' && s[i + 11] == 'y' && s[i + 12] == ' '
    && IsWordChar(s[i + 13])
  }

  /** "annotated" is spelt at `i`. */
  lemma AnnotatedStem(s: string, i: nat)
    requires AnnotatedByAt(s, i)
    ensures StemEnd(s, i, Lit("annotated"), true) == Some(i + 9)
  {
    var w := "annotated";
    forall j | 0 <= j < |w| ensures CharMatches(s[i + j], w[j], true) {
      assert s[i..i + 9][j] == s[i + j];
    }
    StemLitPrefix(s, i, w, [], true);
    assert Lit(w) + [] == Lit(w);
  }

  /** The "annotated" branch with `\b` after it takes "annotated by ". */
  lemma AnnotatedBranchBoundary(s: string, i: nat)
    requires AnnotatedByAt(s, i)
    ensures BranchEnd(s, i, ByPhrase("annotated", false), true, Boundary) == Some(i + 13)
  {
    AnnotatedStem(s, i);
    assert RunEnd(s, i + 9, IsRegexSpace) == i + 10;
    assert RunEnd(s, i + 12, IsRegexSpace) == i + 13;
    assert ByEnd(s, i + 9, By, true) == Some(i + 12);
    assert IsBoundary(s, i + 13);
    assert FinishEnd(s, i + 12, true, Boundary) == Some(i + 13);
  }

  /** With U+0008 after it, the branch finds no backspace after "by " nor
      after "annotated ". */
  lemma AnnotatedBranchBackspace(s: string, i: nat)
    requires AnnotatedByAt(s, i)
    ensures BranchEnd(s, i, ByPhrase("annotated", false), true, Backspace).None?
  {
    AnnotatedStem(s, i);
    assert RunEnd(s, i + 9, IsRegexSpace) == i + 10;
    assert RunEnd(s, i + 12, IsRegexSpace) == i + 13;
    assert ByEnd(s, i + 9, By, true) == Some(i + 12);
    assert FinishEnd(s, i + 12, true, Backspace).None?;
    assert FinishEnd(s, i + 9, true, Backspace).None?;
  }

  /** The "annotated" line of SPLIT_NAMES takes "annotated by " when it ends
      in `\b`, and nothing when it ends in U+0008. */
  lemma AnnotatedLine(s: string, i: nat, chars: set<char>)
    requires AnnotatedByAt(s, i)
    ensures MatchAlt(s, i, SplitNames(chars, Boundary)[3]) == Some(i + 13)
    ensures MatchAlt(s, i, SplitNames(chars, Backspace)[3]).None?
  {
    var b := ByPhrase("annotated", false);
    assert SplitNames(chars, Boundary)[3] == Phrase(true, true, [b], Boundary);
    assert SplitNames(chars, Backspace)[3] == Phrase(true, true, [b], Backspace);
    assert IsBoundary(s, i);
    AnnotatedBranchBoundary(s, i);
    AnnotatedBranchBackspace(s, i);
  }

  /** The first three lines of SPLIT_NAMES: the class, ` - ` and
      "with"/"and"/"et". */
  lemma EarlierLines(chars: set<char>, annotatedTail: Tail)
    ensures SplitNames(chars, annotatedTail)[..3] == [
      CharClass(chars),
      Phrase(true, false, [Branch([Spaces, Ch('-'), Spaces], None, NoBy, false)], Boundary),
      Phrase(true, true, [Plain("with"), Plain("and"), Plain("et")], Boundary)]
  {
  }

  /** None of the first three lines of SPLIT_NAMES matches at "annotated":
      'a' is no separator, no space, and starts neither "with", "and" nor
      "et". */
  lemma AnnotatedNotEarlier(s: string, i: nat, chars: set<char>, annotatedTail: Tail)
    requires AnnotatedByAt(s, i) && 'a' !in chars
    ensures forall k :: 0 <= k < 3 ==> MatchAlt(s, i, SplitNames(chars, annotatedTail)[k]).None?
  {
    var alts := SplitNames(chars, annotatedTail);
    EarlierLines(chars, annotatedTail);
    assert alts[0] == alts[..3][0] && alts[1] == alts[..3][1] && alts[2] == alts[..3][2];
    assert s[i] == 'a' && s[i + 1] == 'n' && s[i + 2] == 'n' by {
      assert s[i..i + 9][0] == s[i] && s[i..i + 9][1] == s[i + 1] && s[i..i + 9][2] == s[i + 2];
    }
    assert Blocked(s, i, alts[0]) && Blocked(s, i, alts[1]);
    AltBlocked(s, i, alts[0]);
    AltBlocked(s, i, alts[1]);
    StemLitMismatch(s, i, "with", [], true, 0);
    StemLitMismatch(s, i, "and", [], true, 2);
    StemLitMismatch(s, i, "et", [], true, 0);
    assert Lit("with") + [] == Lit("with") && Lit("and") + [] == Lit("and") && Lit("et") + [] == Lit("et");
  }

  /** The letters the keywords after the "annotated" line start with. */
  const LaterInitials: set<char> := {'c', 'd', 'e', 'i', 'r', 's', 't', 'v'}

  /** The lines after "annotated" start with those letters. */
  lemma LaterLines(chars: set<char>, annotatedTail: Tail)
    ensures SplitNames(chars, annotatedTail)[4..] == KeywordLines
    ensures Initials(KeywordLines, LaterInitials)
  {
    var alts := SplitNames(chars, annotatedTail);
    assert alts[4..] == KeywordLines;
  }

  /** No line after "annotated" matches at a word that starts with 'a'. */
  lemma AnnotatedNotLater(s: string, i: nat, chars: set<char>, annotatedTail: Tail)
    requires AnnotatedByAt(s, i)
    ensures forall k :: 4 <= k < 16 ==> MatchAlt(s, i, SplitNames(chars, annotatedTail)[k]).None?
  {
    var alts := SplitNames(chars, annotatedTail);
    LaterLines(chars, annotatedTail);
    SplitNamesConsume(chars, annotatedTail);
    assert |alts| == 16;
    assert forall k :: 4 <= k < 16 ==> alts[k] == alts[4..][k - 4];
    assert s[i] == 'a' by {
      assert s[i..i + 9][0] == s[i];
    }
    NoMatchOffInitials(s, i, alts[4..], LaterInitials);
  }

  /** With `\b`, the "annotated by " phrase is a separator. */
  lemma AnnotatedByFound(s: string, i: nat, chars: set<char>)
    requires AnnotatedByAt(s, i) && 'a' !in chars
    ensures Consuming(SplitNames(chars, Boundary))
    ensures FirstMatch(s, i, SplitNames(chars, Boundary)) == Some(i + 13)
  {
    SplitNamesConsume(chars, Boundary);
    AnnotatedNotEarlier(s, i, chars, Boundary);
    AnnotatedLine(s, i, chars);
  }

  /** With U+0008, no line of SPLIT_NAMES matches there. */
  lemma AnnotatedByMissed(s: string, i: nat, chars: set<char>)
    requires AnnotatedByAt(s, i) && 'a' !in chars
    ensures Consuming(SplitNames(chars, Backspace))
    ensures FirstMatch(s, i, SplitNames(chars, Backspace)).None?
  {
    SplitNamesConsume(chars, Backspace);
    AnnotatedNotEarlier(s, i, chars, Backspace);
    AnnotatedLine(s, i, chars);
    AnnotatedNotLater(s, i, chars, Backspace);
  }

  /** A collector list with an annotation. */
  const Annotated: string := "Smith annotated by Jones"

  lemma AnnotatedShape()
    ensures AnnotatedByAt(Annotated, 6)
  {
    assert Annotated[6..15] == "annotated";
  }

  /** With `\b`, "annotated by " separates "Smith" from "Jones". */
  lemma AnnotatedSeparates()
    ensures Consuming(SplitPattern)
    ensures FirstMatch(Annotated, 6, SplitPattern) == Some(19)
  {
    AnnotatedShape();
    AnnotatedByFound(Annotated, 6, SeparatorChars);
  }

  /** As written, the pattern matches nothing at "annotated". */
  lemma AnnotatedMissedAsWritten()
    ensures Consuming(SplitPatternAsWritten)
    ensures FirstMatch(Annotated, 6, SplitPatternAsWritten).None?
  {
    AnnotatedShape();
    AnnotatedByMissed(Annotated, 6, MisreadSeparatorChars);
  }
}
