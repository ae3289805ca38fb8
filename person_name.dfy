/** `PersonNameProcessor`: turns a raw "recorded by" text such as
    "Charles Darwin; Carl Linnaeus" into the list of the names in it. The
    text is normalised, filler ("et al.", "unknown", digits, ...) is
    deleted, and what is left is split at name separators (";", "&",
    " - ", "and", "det. by", ...). */
module PersonName {
  import opened Wrappers
  import opened JavaText
  import opened ErrorHandling
  import opened NamePatterns

  /** BRACKETS_CHAR `[\[\]()]`. */
  predicate IsBracket(c: char) { c == '[' || c == ']' || c == '(' || c == ')' }

  /** ILLEGAL_CHAR `[?!=]`. */
  predicate IsIllegal(c: char) { c == '?' || c == '!' || c == '=' }

  predicate IsLegal(c: char) { !IsIllegal(c) }

  /** Each bracket replaced by a space. */
  function Unbracket(s: string): (r: string)
    ensures |r| == |s|
    ensures forall k :: 0 <= k < |s| ==> r[k] == if IsBracket(s[k]) then ' ' else s[k]
  {
    seq(|s|, k requires 0 <= k < |s| => if IsBracket(s[k]) then ' ' else s[k])
  }

  /** `normalize` (lines 84-88): brackets become spaces, then `?`, `!` and
      `=` are deleted. */
  function Normalize(s: string): (r: string)
    ensures |r| <= |s|
    ensures forall k :: 0 <= k < |r| ==> !IsBracket(r[k]) && !IsIllegal(r[k])
  {
    var u := Unbracket(s);
    var r := Filter(u, IsLegal);
    assert forall k :: 0 <= k < |r| ==> r[k] in u by {
      FilterFrom(u, IsLegal);
    }
    r
  }

  /** What `Filter` keeps comes from its input. */
  lemma {:induction false} FilterFrom(s: string, keep: char -> bool)
    ensures forall k :: 0 <= k < |Filter(s, keep)| ==> Filter(s, keep)[k] in s
  {
    if |s| > 0 {
      var init := s[..|s| - 1];
      FilterFrom(init, keep);
      assert forall c :: c in init ==> c in s;
    }
  }

  /** Normalising twice is normalising once. */
  lemma NormalizeIdempotent(s: string)
    ensures Normalize(Normalize(s)) == Normalize(s)
  {
    var n := Normalize(s);
    assert Unbracket(n) == n;
    FilterKeepsAll(n, IsLegal);
  }

  /** A text with no bracket and no `?`, `!` or `=` is already normal. */
  lemma NormalizeKeepsClean(s: string)
    requires forall k :: 0 <= k < |s| ==> !IsBracket(s[k]) && !IsIllegal(s[k])
    ensures Normalize(s) == s
  {
    assert Unbracket(s) == s;
    FilterKeepsAll(s, IsLegal);
  }

  /** A keyword branch without optional parts. */
  function Plain(w: string): Branch {
    Branch(Lit(w), None, NoBy, false)
  }

  /** `w(\s+by)?\s+`, with `\.?` after `w` when `dot`. */
  function ByPhrase(w: string, dot: bool): Branch {
    Branch(Lit(w), if dot then Some('.') else None, By, true)
  }

  /** `[":\d+]`. */
  const DeletedChars: set<char> := {'"', ':', '+', '0', '1', '2', '3', '4', '5', '6', '7', '8', '9'}

  /** NORMALIZE (lines 33-42), one alternative per line; `(\band|\&)` is
      written as two alternatives in a row, which the engine tries in the
      same order. */
  const NormalizePattern: seq<Alternative> := [
    Phrase(true, false, [Branch(Lit("et") + [Spaces] + Lit("al"), Some('.'), NoBy, false)], NoTail),
    Phrase(true, false, [Branch(Lit("u.") + [OptSpaces] + Lit("a."), None, NoBy, false)], NoTail),
    Phrase(true, false, [Branch(Lit("and") + [Spaces] + Lit("others"), None, NoBy, false)], NoTail),
    Phrase(false, false, [Branch(Lit("&") + [Spaces] + Lit("others"), None, NoBy, false)], NoTail),
    Phrase(true, false, [Branch(Lit("etc"), Some('.'), NoBy, false)], NoTail),
    Phrase(true, false, [Branch([Ch(','), Spaces, DigitRun], None, NoBy, false)], NoTail),
    Phrase(true, true, [Plain("unknown")], Boundary),
    Phrase(true, true, [Plain("annonymous"), Plain("anonymous")], Boundary),
    Phrase(true, true, [Plain("undetermined")], Boundary),
    CharClass(DeletedChars)
  ]

  /** The separator characters of line 48 as they were meant: the en dash
      U+2013 and `;`, `|`, `&`, `/`. */
  const SeparatorChars: set<char> := {'\U{2013}', ';', '|', '&', '/'}

  /** SPLIT_NAMES (lines 48-63), one alternative per line, with the two
      corrections of the findings: the first class holds the en dash, and
      the "annotated" line ends in `\b`. */
  const SplitPattern: seq<Alternative> := SplitNames(SeparatorChars, Boundary)

  /** The first class of line 48 as the file spells it: the UTF-8 bytes of
      the en dash read as windows-1252, that is 'â', '€' and '“', then `;`,
      `|`, `&`, `/`. */
  const MisreadSeparatorChars: set<char> := {'\U{E2}', '\U{20AC}', '\U{201C}', ';', '|', '&', '/'}

  /** SPLIT_NAMES exactly as written, the "annotated" line ending in the
      character U+0008. */
  const SplitPatternAsWritten: seq<Alternative> := SplitNames(MisreadSeparatorChars, Backspace)

  /** SPLIT_NAMES with a given first class and a given end of the
      "annotated" line (line 51). */
  function SplitNames(chars: set<char>, annotatedTail: Tail): seq<Alternative> {
    [
      CharClass(chars),
      Phrase(true, false, [Branch([Spaces, Ch('-'), Spaces], None, NoBy, false)], Boundary),
      Phrase(true, true, [Plain("with"), Plain("and"), Plain("et")], Boundary),
      Phrase(true, true, [ByPhrase("annotated", false)], annotatedTail)
    ] + KeywordLines
  }

  /** Lines 52-63 of SPLIT_NAMES, the same in both versions. */
  const KeywordLines: seq<Alternative> := [
    Phrase(true, true, [ByPhrase("conf", true), ByPhrase("confirmed", false)], Boundary),
    Phrase(true, true, [ByPhrase("checked", false)], Boundary),
    Phrase(true, true, [ByPhrase("det", true)], Boundary),
    Phrase(true, true, [ByPhrase("dupl", true), ByPhrase("dup", true), ByPhrase("duplicate", false)], Boundary),
    Phrase(true, true, [ByPhrase("ex", true), ByPhrase("examined", false)], Boundary),
    Phrase(true, true, [ByPhrase("indentified", false), ByPhrase("identified", false)], Boundary),
    Phrase(true, true, [Branch(Lit("in") + [Spaces] + Lit("part"), None, By, true)], Boundary),
    Phrase(true, true, [Branch(Lit("redet"), Some('.'), ByMaybeY, true)], Boundary),
    Phrase(true, true, [ByPhrase("reidentified", false)], Boundary),
    Phrase(true, true, [Branch(Lit("stet"), Some('!'), NoBy, false)], Boundary),
    Phrase(true, true, [ByPhrase("then", false)], Boundary),
    Phrase(true, true, [ByPhrase("ver", true), ByPhrase("verf", true), ByPhrase("verified", false), ByPhrase("verifie", false)], Boundary)
  ]

  lemma NormalizePatternConsumes()
    ensures Consuming(NormalizePattern)
  {
  }

  lemma SplitNamesConsume(chars: set<char>, annotatedTail: Tail)
    ensures Consuming(SplitNames(chars, annotatedTail))
  {
    var head := SplitNames(chars, annotatedTail)[..4];
    assert Consuming(head) by {
      LitStarts("with"); LitStarts("and"); LitStarts("et"); LitStarts("annotated");
    }
    KeywordLinesConsume();
    ConsumingAppend(head, KeywordLines);
    assert SplitNames(chars, annotatedTail) == head + KeywordLines;
  }

  lemma KeywordLinesConsume()
    ensures Consuming(KeywordLines)
  {
    LitStarts("conf"); LitStarts("confirmed"); LitStarts("checked"); LitStarts("det");
    LitStarts("dupl"); LitStarts("dup"); LitStarts("duplicate"); LitStarts("ex"); LitStarts("examined");
    LitStarts("indentified"); LitStarts("identified"); LitStarts("in"); LitStarts("redet");
    LitStarts("reidentified"); LitStarts("stet"); LitStarts("then");
    LitStarts("ver"); LitStarts("verf"); LitStarts("verified"); LitStarts("verifie");
    assert (Lit("in") + [Spaces] + Lit("part"))[0] == Lit("in")[0];
  }

  /** A keyword's stem starts with a character, not with optional space. */
  lemma LitStarts(w: string)
    requires |w| > 0
    ensures |Lit(w)| > 0 && !Lit(w)[0].OptSpaces?
  {
  }

  lemma ConsumingAppend(a: seq<Alternative>, b: seq<Alternative>)
    requires Consuming(a) && Consuming(b)
    ensures Consuming(a + b)
  {
    forall k | 0 <= k < |a + b| ensures (a + b)[k] == if k < |a| then a[k] else b[k - |a|] { }
  }

  /** The text that is split: normalised, then with the NORMALIZE matches
      deleted. */
  function Scrubbed(rawValue: string): string {
    NormalizePatternConsumes();
    DeleteMatches(Normalize(rawValue), NormalizePattern, 0)
  }

  /** What `split(SPLIT_NAMES)` returns for a raw value, under a given
      version of the pattern. */
  function PartsWith(rawValue: string, pattern: seq<Alternative>): seq<string>
    requires Consuming(pattern)
  {
    Split(Scrubbed(rawValue), pattern)
  }

  /** The parts, each mapped by `keep`, concatenated in order. */
  function Collect(parts: seq<string>, keep: string -> seq<string>): seq<string> {
    if |parts| == 0 then [] else Collect(parts[..|parts| - 1], keep) + keep(parts[|parts| - 1])
  }

  lemma {:induction false} CollectAppend(a: seq<string>, b: seq<string>, keep: string -> seq<string>)
    ensures Collect(a + b, keep) == Collect(a, keep) + Collect(b, keep)
    decreases |b|
  {
    if |b| == 0 {
      assert a + b == a;
    } else {
      assert (a + b)[..|a + b| - 1] == a + b[..|b| - 1];
      CollectAppend(a, b[..|b| - 1], keep);
    }
  }

  lemma {:induction false} CollectFrom(parts: seq<string>, keep: string -> seq<string>)
    ensures forall n :: n in Collect(parts, keep) ==> exists p :: p in parts && n in keep(p)
  {
    if |parts| > 0 {
      var last := parts[|parts| - 1];
      CollectFrom(parts[..|parts| - 1], keep);
      assert forall p :: p in parts[..|parts| - 1] ==> p in parts;
      assert last in parts;
    }
  }

  /** One step of the loop of lines 161-165: the trimmed part, unless it is
      blank. */
  function Kept(part: string): seq<string> {
    var t := Trim(part);
    if IsBlank(t) then [] else [t]
  }

  /** The loop of lines 160-166 as a function: each part trimmed, the blank
      ones dropped. */
  function KeepNames(parts: seq<string>): seq<string> {
    Collect(parts, Kept)
  }

  /** Names keep the order of the parts they come from: the names of two
      runs of parts are the names of the first run, then those of the
      second. */
  lemma KeepNamesAppend(a: seq<string>, b: seq<string>)
    ensures KeepNames(a + b) == KeepNames(a) + KeepNames(b)
  {
    CollectAppend(a, b, Kept);
  }

  /** A kept part is trimmed and not blank. */
  lemma KeptTrimmed(p: string)
    ensures forall n :: n in Kept(p) ==> !IsBlank(n) && Trim(n) == n && n == Trim(p)
  {
    TrimIdempotent(p);
  }

  /** Every name is the trimmed, non-blank text of one of the parts. */
  lemma KeepNamesFromParts(parts: seq<string>)
    ensures forall n :: n in KeepNames(parts) ==> !IsBlank(n) && Trim(n) == n && exists p :: p in parts && n == Trim(p)
  {
    CollectFrom(parts, Kept);
    forall n | n in KeepNames(parts)
      ensures !IsBlank(n) && Trim(n) == n && exists p :: p in parts && n == Trim(p)
    {
      var p :| p in parts && n in Kept(p);
      KeptTrimmed(p);
    }
  }

  /** `process(rawValue, result)`; `result` is never written to. */
  function NamesWith(rawValue: string, pattern: seq<Alternative>): seq<string>
    requires Consuming(pattern)
  {
    KeepNames(PartsWith(rawValue, pattern))
  }

  /** `process` with SPLIT_NAMES as meant. */
  function Names(rawValue: string): seq<string> {
    SplitNamesConsume(SeparatorChars, Boundary);
    NamesWith(rawValue, SplitPattern)
  }

  /** `process` (lines 156-168): the split, then the loop that trims each
      entry in place and collects the non-blank ones in order. */
  method Process(rawValue: string) returns (nameList: seq<string>)
    ensures nameList == Names(rawValue)
  {
    SplitNamesConsume(SeparatorChars, Boundary);
    var parts := PartsWith(rawValue, SplitPattern);
    nameList := CollectNames(parts);
  }

  /** Lines 157 and 160-166: the array `split` returned, each entry trimmed
      in place, the non-blank ones appended to the list in order. */
  method CollectNames(parts: seq<string>) returns (nameList: seq<string>)
    ensures nameList == KeepNames(parts)
  {
    var names := new string[|parts|](k requires 0 <= k < |parts| => parts[k]);
    nameList := [];
    for i := 0 to names.Length
      invariant forall k :: i <= k < names.Length ==> names[k] == parts[k]
      invariant nameList == KeepNames(parts[..i])
    {
      assert parts[..i + 1][..i] == parts[..i];
      assert KeepNames(parts[..i + 1]) == KeepNames(parts[..i]) + Kept(parts[i]);
      names[i] := Trim(names[i]);
      if !IsBlank(names[i]) {
        nameList := nameList + [names[i]];
      }
    }
    assert parts[..names.Length] == parts;
  }

  /** Every character of a piece of `split` is a character of the text. */
  lemma {:induction false} PiecesFromText(s: string, alts: seq<Alternative>, start: nat, i: nat)
    requires start <= i <= |s| && Consuming(alts)
    ensures forall p, k :: p in Pieces(s, alts, start, i) && 0 <= k < |p| ==> p[k] in s
    decreases |s| - i
  {
    if i < |s| {
      match FirstMatch(s, i, alts)
      case Some(e) =>
        PiecesFromText(s, alts, e, e);
        assert forall k :: 0 <= k < i - start ==> s[start..i][k] == s[start + k];
      case None =>
        PiecesFromText(s, alts, start, i + 1);
    } else {
      assert forall k :: 0 <= k < |s| - start ==> s[start..][k] == s[start + k];
    }
  }

  /** Trimming clean text leaves clean text. */
  lemma TrimClean(s: string)
    requires AllClean(s)
    ensures AllClean(Trim(s))
  {
    var t := Trim(s);
    TrimSlice(s);
    var a := |s| - |TrimStart(s)|;
    forall k | 0 <= k < |t| ensures IsCleanChar(t[k]) {
      assert t[k] == s[a + k];
    }
  }

  /** A character no name holds: a separator character, a bracket, one of
      `?!=`, or one of `":+` and the digits. */
  predicate IsCleanChar(c: char) {
    c !in SeparatorChars && c !in DeletedChars && !IsBracket(c) && !IsIllegal(c)
  }

  predicate AllClean(s: string) {
    forall k :: 0 <= k < |s| ==> IsCleanChar(s[k])
  }

  /** What a name may hold: only clean characters; and it is trimmed and
      not blank. */
  predicate IsCleanName(n: string) {
    !IsBlank(n) && Trim(n) == n && AllClean(n)
  }

  /** The text that is split holds no bracket, none of `?!=` and none of
      `":+` or the digits. */
  lemma ScrubbedChars(rawValue: string)
    ensures forall k :: 0 <= k < |Scrubbed(rawValue)| ==>
      var c := Scrubbed(rawValue)[k]; c !in DeletedChars && !IsBracket(c) && !IsIllegal(c)
  {
    NormalizePatternConsumes();
    var normal := Normalize(rawValue);
    DeletedClass(normal, NormalizePattern, 0, 9);
    DeleteFrom(normal, NormalizePattern, 0);
  }

  /** Every part `split` returns holds only clean characters. */
  lemma PartsAreClean(rawValue: string)
    ensures Consuming(SplitPattern)
    ensures forall p :: p in PartsWith(rawValue, SplitPattern) ==> AllClean(p)
  {
    SplitNamesConsume(SeparatorChars, Boundary);
    var t := Scrubbed(rawValue);
    ScrubbedChars(rawValue);
    PiecesAvoidClass(t, SplitPattern, 0, 0, 0);
    PiecesFromText(t, SplitPattern, 0, 0);
    var pieces := Pieces(t, SplitPattern, 0, 0);
    var parts := PartsWith(rawValue, SplitPattern);
    forall p | p in parts ensures AllClean(p) {
      var i :| 0 <= i < |parts| && parts[i] == p;
      assert p == pieces[i];
    }
  }

  /** Every name `process` returns is clean. */
  lemma NamesAreClean(rawValue: string)
    ensures forall n :: n in Names(rawValue) ==> IsCleanName(n)
  {
    PartsAreClean(rawValue);
    var parts := PartsWith(rawValue, SplitPattern);
    KeepNamesFromParts(parts);
    forall n | n in Names(rawValue) ensures IsCleanName(n) {
      var p :| p in parts && n == Trim(p);
      TrimClean(p);
    }
  }

  /** Every character left by the deletion is a character of the text. */
  lemma {:induction false} DeleteFrom(s: string, alts: seq<Alternative>, i: nat)
    requires i <= |s| && Consuming(alts)
    ensures forall k :: 0 <= k < |DeleteMatches(s, alts, i)| ==> DeleteMatches(s, alts, i)[k] in s
    decreases |s| - i
  {
    if i < |s| {
      match FirstMatch(s, i, alts)
      case Some(e) => DeleteFrom(s, alts, e);
      case None => DeleteFrom(s, alts, i + 1);
    }
  }

  /** `processBean` (lines 96-106): the names joined by "|", or the
      error-mode value when there is none. A reader splitting the written
      value at "|" gets the names back. */
  function BeanValue(rawValue: string, mode: ErrorHandlingMode): (r: Option<string>)
    ensures |Names(rawValue)| > 0 ==> r.Some? && SplitOn(r.value, '|') == Names(rawValue)
    ensures |Names(rawValue)| == 0 ==> r == ValueOnError(mode, Some(rawValue))
  {
    var names := Names(rawValue);
    if |names| > 0 then
      NamesAreClean(rawValue);
      assert forall i :: 0 <= i < |names| ==> Lacks(names[i], '|') by {
        assert '|' in SeparatorChars;
        forall i | 0 <= i < |names| ensures Lacks(names[i], '|') {
          assert names[i] in names;
        }
      }
      SplitOnJoin(names, '|');
      Some(Join(names, "|"))
    else ValueOnError(mode, Some(rawValue))
  }

  /** `validateBean` (lines 120-147): valid when a name was found, or when
      the value is optional and blank. */
  function NameIsValid(rawValue: string, isMandatory: bool): (valid: bool)
    ensures valid <==> |Names(rawValue)| > 0 || (!isMandatory && IsBlank(rawValue))
    ensures valid && isMandatory ==> BeanValue(rawValue, UseNull).Some?
  {
    |Names(rawValue)| > 0 || (!isMandatory && IsBlank(rawValue))
  }
}
