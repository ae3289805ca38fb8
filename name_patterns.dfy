/** The part of `java.util.regex` that the person-name patterns use: an
    alternation of character classes and keyword phrases such as
    `\b(?i:det\.?(\s+by)?\s+)\b`, matched the way the backtracking engine
    settles them, and the two uses the processor makes of a pattern,
    `Matcher.replaceAll("")` and `String.split`. */
module NamePatterns {
  import opened Wrappers
  import opened JavaText

  /** One step of a keyword: a literal character, `\s+`, `\s*` or `\d+`.
      A run is followed in every pattern by a literal it cannot match, so
      the engine keeps the whole run. */
  datatype Tok = Ch(c: char) | Spaces | OptSpaces | DigitRun

  /** The optional `(\s+by)?` group, or `(\s+by?)?`. */
  datatype ByGroup = NoBy | By | ByMaybeY

  /** What follows a phrase: nothing, `\b`, or the character U+0008 (what
      `"\b"` means inside a Java string literal). */
  datatype Tail = NoTail | Boundary | Backspace

  /** One branch of a phrase: the stem, an optional character after it
      (`\.?`, `!?`), the optional "by" group and a mandatory `\s+`. */
  datatype Branch = Branch(stem: seq<Tok>, opt: Option<char>, byGroup: ByGroup, spaces: bool)

  /** One alternative of the pattern. A phrase is `\b` (when `lead`), then
      the branches tried in order, then the tail; `ignoreCase` is `(?i:)`. */
  datatype Alternative =
    | CharClass(chars: set<char>)
    | Phrase(lead: bool, ignoreCase: bool, branches: seq<Branch>, tail: Tail)

  /** Every branch consumes a character before anything optional, so no
      alternative matches the empty string. */
  predicate Consuming(alts: seq<Alternative>) {
    forall k :: 0 <= k < |alts| ==> alts[k].Phrase? ==>
      forall j :: 0 <= j < |alts[k].branches| ==>
        |alts[k].branches[j].stem| > 0 && !alts[k].branches[j].stem[0].OptSpaces?
  }

  predicate IsAsciiLetter(c: char) { 'a' <= c <= 'z' || 'A' <= c <= 'Z' }

  /** The word characters of `\b`: `Character.isLetterOrDigit` or '_',
      for the Latin letters of U+0000 to U+024F. */
  predicate IsWordChar(c: char) {
    IsAsciiLetter(c) || IsDigit(c) || c == '_' || c == '\U{AA}' || c == '\U{B5}' || c == '\U{BA}'
    || ('\U{C0}' <= c <= '\U{24F}' && c != '\U{D7}' && c != '\U{F7}')
  }

  /** `\b` at position `i`: a word character on exactly one side. */
  predicate IsBoundary(s: string, i: nat)
    requires i <= |s|
  {
    (i > 0 && IsWordChar(s[i - 1])) != (i < |s| && IsWordChar(s[i]))
  }

  /** Case folding of `(?i)` without UNICODE_CASE: ASCII letters only. */
  function LowerAscii(c: char): (r: char)
    ensures IsAsciiLetter(c) <==> IsAsciiLetter(r)
    ensures !('A' <= r <= 'Z')
  {
    if 'A' <= c <= 'Z' then (c as int + 32) as char else c
  }

  predicate CharMatches(c: char, p: char, ignoreCase: bool) {
    if ignoreCase then LowerAscii(c) == LowerAscii(p) else c == p
  }

  /** The characters of `w` as literal steps. */
  function Lit(w: string): (r: seq<Tok>)
    ensures |r| == |w| && forall k :: 0 <= k < |w| ==> r[k] == Ch(w[k])
  {
    seq(|w|, k requires 0 <= k < |w| => Ch(w[k]))
  }

  /** Where the stem ends when it matches at `i`. */
  function StemEnd(s: string, i: nat, stem: seq<Tok>, ignoreCase: bool): (r: Option<nat>)
    requires i <= |s|
    ensures r.Some? ==> i <= r.value <= |s|
    ensures r.Some? && |stem| > 0 && !stem[0].OptSpaces? ==> i < r.value
    decreases |stem|
  {
    if |stem| == 0 then Some(i)
    else
      match stem[0]
      case Ch(c) =>
        if i < |s| && CharMatches(s[i], c, ignoreCase) then StemEnd(s, i + 1, stem[1..], ignoreCase) else None
      case Spaces =>
        var j := RunEnd(s, i, IsRegexSpace);
        if j > i then StemEnd(s, j, stem[1..], ignoreCase) else None
      case OptSpaces =>
        StemEnd(s, RunEnd(s, i, IsRegexSpace), stem[1..], ignoreCase)
      case DigitRun =>
        var j := DigitRunEnd(s, i);
        if j > i then StemEnd(s, j, stem[1..], ignoreCase) else None
  }

  /** A literal word that the text spells at `i` (up to case when
      `ignoreCase`) is passed over, and the rest of the stem goes on after
      it. */
  lemma {:induction false} StemLitPrefix(s: string, i: nat, w: string, rest: seq<Tok>, ignoreCase: bool)
    requires i + |w| <= |s|
    requires forall j :: 0 <= j < |w| ==> CharMatches(s[i + j], w[j], ignoreCase)
    ensures StemEnd(s, i, Lit(w) + rest, ignoreCase) == StemEnd(s, i + |w|, rest, ignoreCase)
    decreases |w|
  {
    if |w| == 0 {
      assert Lit(w) + rest == rest;
    } else {
      assert (Lit(w) + rest)[0] == Ch(w[0]);
      assert (Lit(w) + rest)[1..] == Lit(w[1..]) + rest;
      assert CharMatches(s[i], w[0], ignoreCase);
      StemLitPrefix(s, i + 1, w[1..], rest, ignoreCase);
    }
  }

  /** A literal word that the text leaves at its `j`-th character does not
      match. */
  lemma {:induction false} StemLitMismatch(s: string, i: nat, w: string, rest: seq<Tok>, ignoreCase: bool, j: nat)
    requires j < |w|
    requires i + j <= |s| && forall k :: 0 <= k < j ==> CharMatches(s[i + k], w[k], ignoreCase)
    requires i + j >= |s| || !CharMatches(s[i + j], w[j], ignoreCase)
    ensures StemEnd(s, i, Lit(w) + rest, ignoreCase).None?
    decreases j
  {
    assert (Lit(w) + rest)[0] == Ch(w[0]);
    assert (Lit(w) + rest)[1..] == Lit(w[1..]) + rest;
    if j > 0 {
      assert CharMatches(s[i], w[0], ignoreCase);
      StemLitMismatch(s, i + 1, w[1..], rest, ignoreCase, j - 1);
    }
  }

  /** The "by" group at `k`, when it is there: `\s+` then 'b' and 'y' (the
      'y' optional for `by?`, taken whenever present). */
  function ByEnd(s: string, k: nat, byGroup: ByGroup, ignoreCase: bool): (r: Option<nat>)
    requires k <= |s|
    ensures r.Some? ==> k < r.value <= |s|
  {
    var m := RunEnd(s, k, IsRegexSpace);
    if byGroup.NoBy? || m == k || m >= |s| || !CharMatches(s[m], 'b', ignoreCase) then None
    else if m + 1 < |s| && CharMatches(s[m + 1], 'y', ignoreCase) then Some(m + 2)
    else if byGroup.ByMaybeY? then Some(m + 1)
    else None
  }

  /** The tail at `m`, and where the match ends after it. */
  function TailEnd(s: string, m: nat, tail: Tail): (r: Option<nat>)
    requires m <= |s|
    ensures r.Some? ==> m <= r.value <= |s|
  {
    match tail
    case NoTail => Some(m)
    case Boundary => if IsBoundary(s, m) then Some(m) else None
    case Backspace => if m < |s| && s[m] == '\U{8}' then Some(m + 1) else None
  }

  /** The mandatory `\s+` (when the branch has one) and the tail. Only the
      whole run can be followed by `\b` or U+0008: a shorter run stops
      between two spaces. */
  function FinishEnd(s: string, k: nat, spaces: bool, tail: Tail): (r: Option<nat>)
    requires k <= |s|
    ensures r.Some? ==> k <= r.value <= |s|
  {
    if spaces then
      var m := RunEnd(s, k, IsRegexSpace);
      if m == k then None else TailEnd(s, m, tail)
    else TailEnd(s, k, tail)
  }

  /** After the optional character: the "by" group taken first, then
      skipped. */
  function AfterOpt(s: string, k: nat, b: Branch, ignoreCase: bool, tail: Tail): (r: Option<nat>)
    requires k <= |s|
    ensures r.Some? ==> k <= r.value <= |s|
  {
    var withBy := match ByEnd(s, k, b.byGroup, ignoreCase)
      case Some(g) => FinishEnd(s, g, b.spaces, tail)
      case None => None;
    if withBy.Some? then withBy else FinishEnd(s, k, b.spaces, tail)
  }

  /** One branch at `i`: the stem, then the optional character taken first
      and skipped on failure. */
  function BranchEnd(s: string, i: nat, b: Branch, ignoreCase: bool, tail: Tail): (r: Option<nat>)
    requires i <= |s|
    ensures r.Some? ==> i <= r.value <= |s|
    ensures r.Some? ==> StemEnd(s, i, b.stem, ignoreCase).Some? && StemEnd(s, i, b.stem, ignoreCase).value <= r.value
  {
    match StemEnd(s, i, b.stem, ignoreCase)
    case None => None
    case Some(j) =>
      var taken :=
        if b.opt.Some? && j < |s| && CharMatches(s[j], b.opt.value, ignoreCase) then AfterOpt(s, j + 1, b, ignoreCase, tail)
        else None;
      if taken.Some? then taken else AfterOpt(s, j, b, ignoreCase, tail)
  }

  /** The first branch, in order, that matches at `i`. */
  function BranchesEnd(s: string, i: nat, branches: seq<Branch>, ignoreCase: bool, tail: Tail): (r: Option<nat>)
    requires i <= |s|
    ensures r.Some? ==> i <= r.value <= |s|
    ensures r.None? <==> forall j :: 0 <= j < |branches| ==> BranchEnd(s, i, branches[j], ignoreCase, tail).None?
    ensures r.Some? ==> exists j :: (0 <= j < |branches| && r == BranchEnd(s, i, branches[j], ignoreCase, tail)
      && StemEnd(s, i, branches[j].stem, ignoreCase).value <= r.value)
  {
    if |branches| == 0 then None
    else
      var first := BranchEnd(s, i, branches[0], ignoreCase, tail);
      if first.Some? then first
      else
        var rest := BranchesEnd(s, i, branches[1..], ignoreCase, tail);
        assert forall j :: 1 <= j < |branches| ==> branches[j] == branches[1..][j - 1];
        rest
  }

  /** Where one alternative's match at `i` ends. */
  function MatchAlt(s: string, i: nat, alt: Alternative): (r: Option<nat>)
    requires i <= |s|
    ensures r.Some? ==> i <= r.value <= |s|
    ensures alt.CharClass? ==> (r.Some? <==> i < |s| && s[i] in alt.chars)
  {
    match alt
    case CharClass(chars) => if i < |s| && s[i] in chars then Some(i + 1) else None
    case Phrase(lead, ignoreCase, branches, tail) =>
      if lead && !IsBoundary(s, i) then None else BranchesEnd(s, i, branches, ignoreCase, tail)
  }

  /** The alternatives of a consuming pattern never match the empty
      string. */
  lemma MatchAltConsumes(s: string, i: nat, alts: seq<Alternative>, k: nat)
    requires Consuming(alts) && i <= |s| && k < |alts|
    ensures MatchAlt(s, i, alts[k]).Some? ==> i < MatchAlt(s, i, alts[k]).value
  {
  }

  /** `find()` at `i` with the alternatives tried in order: the end of the
      first one that matches. */
  function FirstMatch(s: string, i: nat, alts: seq<Alternative>): (r: Option<nat>)
    requires i <= |s|
    requires Consuming(alts)
    ensures r.Some? ==> i < r.value <= |s|
    ensures r.None? <==> forall k :: 0 <= k < |alts| ==> MatchAlt(s, i, alts[k]).None?
    ensures r.Some? ==> exists k :: (0 <= k < |alts| && r == MatchAlt(s, i, alts[k])
      && forall j :: 0 <= j < k ==> MatchAlt(s, i, alts[j]).None?)
  {
    if |alts| == 0 then None
    else
      var first := MatchAlt(s, i, alts[0]);
      MatchAltConsumes(s, i, alts, 0);
      if first.Some? then first
      else
        assert Consuming(alts[1..]) by {
          forall k | 0 <= k < |alts[1..]| ensures alts[1..][k] == alts[k + 1] { }
        }
        var rest := FirstMatch(s, i, alts[1..]);
        assert forall k :: 1 <= k < |alts| ==> alts[k] == alts[1..][k - 1];
        rest
  }

  /** Whether the first step of `stem` can take the character `c`. */
  predicate CanStart(c: char, stem: seq<Tok>, ignoreCase: bool) {
    |stem| == 0 ||
    match stem[0]
    case Ch(p) => CharMatches(c, p, ignoreCase)
    case Spaces => IsRegexSpace(c)
    case OptSpaces => true
    case DigitRun => IsDigit(c)
  }

  /** The alternative cannot match at `i`: the character is not in the
      class, or the phrase needs `\b` where there is none, or no branch
      can take the character. */
  predicate Blocked(s: string, i: nat, alt: Alternative)
    requires i < |s|
  {
    match alt
    case CharClass(chars) => s[i] !in chars
    case Phrase(lead, ignoreCase, branches, _) =>
      (lead && !IsBoundary(s, i)) || forall j :: 0 <= j < |branches| ==> !CanStart(s[i], branches[j].stem, ignoreCase)
  }

  /** A stem whose first step cannot take the character does not match. */
  lemma StemBlocked(s: string, i: nat, stem: seq<Tok>, ignoreCase: bool)
    requires i < |s| && !CanStart(s[i], stem, ignoreCase)
    ensures StemEnd(s, i, stem, ignoreCase).None?
  {
    if |stem| > 0 {
      match stem[0]
      case Ch(p) =>
      case Spaces => assert RunEnd(s, i, IsRegexSpace) == i;
      case OptSpaces =>
      case DigitRun => assert DigitRunEnd(s, i) == i;
    }
  }

  /** A blocked alternative does not match. */
  lemma AltBlocked(s: string, i: nat, alt: Alternative)
    requires i < |s| && Blocked(s, i, alt)
    ensures MatchAlt(s, i, alt).None?
  {
    if alt.Phrase? && !(alt.lead && !IsBoundary(s, i)) {
      forall j | 0 <= j < |alt.branches|
        ensures BranchEnd(s, i, alt.branches[j], alt.ignoreCase, alt.tail).None?
      {
        StemBlocked(s, i, alt.branches[j].stem, alt.ignoreCase);
      }
    }
  }

  /** Where every alternative is blocked, nothing matches. */
  lemma NoMatchWhereBlocked(s: string, i: nat, alts: seq<Alternative>)
    requires i < |s| && Consuming(alts)
    requires forall k :: 0 <= k < |alts| ==> Blocked(s, i, alts[k])
    ensures FirstMatch(s, i, alts).None?
  {
    forall k | 0 <= k < |alts| ensures MatchAlt(s, i, alts[k]).None? {
      AltBlocked(s, i, alts[k]);
    }
  }

  /** Every character a match can start with, up to ASCII case, is in
      `cs` (which holds no upper-case ASCII letter), or the match starts
      with `\s+`. */
  predicate Initials(alts: seq<Alternative>, cs: set<char>) {
    (forall c :: c in cs ==> !('A' <= c <= 'Z'))
    && forall k :: 0 <= k < |alts| ==> StartsWithin(alts[k], cs)
  }

  /** Every match of one alternative starts with `\s+` or a character of `cs`. */
  predicate StartsWithin(alt: Alternative, cs: set<char>) {
    match alt
    case CharClass(chars) => chars <= cs
    case Phrase(_, _, branches, _) =>
      forall j :: 0 <= j < |branches| ==> (|branches[j].stem| > 0 &&
        (branches[j].stem[0].Spaces? || (branches[j].stem[0].Ch? && branches[j].stem[0].c in cs)))
  }

  /** Nothing matches at a character no match can start with. */
  lemma NoMatchOffInitials(s: string, i: nat, alts: seq<Alternative>, cs: set<char>)
    requires i < |s| && Consuming(alts) && Initials(alts, cs)
    requires !IsRegexSpace(s[i]) && s[i] !in cs && LowerAscii(s[i]) !in cs
    ensures FirstMatch(s, i, alts).None?
  {
    forall k | 0 <= k < |alts| ensures Blocked(s, i, alts[k]) {
      match alts[k]
      case CharClass(chars) =>
      case Phrase(_, ignoreCase, branches, _) =>
        forall j | 0 <= j < |branches| ensures !CanStart(s[i], branches[j].stem, ignoreCase) {
          var t := branches[j].stem[0];
          if t.Ch? {
            assert LowerAscii(t.c) == t.c;
          }
        }
    }
    NoMatchWhereBlocked(s, i, alts);
  }

  /** `Matcher.replaceAll("")` from position `i`: every match is deleted,
      scanning left to right and resuming after each match. */
  function DeleteMatches(s: string, alts: seq<Alternative>, i: nat): (r: string)
    requires i <= |s| && Consuming(alts)
    ensures |r| <= |s| - i
    decreases |s| - i
  {
    if i == |s| then ""
    else
      match FirstMatch(s, i, alts)
      case Some(e) => DeleteMatches(s, alts, e)
      case None => [s[i]] + DeleteMatches(s, alts, i + 1)
  }

  /** No character of a class in the pattern survives the deletion. */
  lemma {:induction false} DeletedClass(s: string, alts: seq<Alternative>, i: nat, cls: nat)
    requires i <= |s| && Consuming(alts) && cls < |alts| && alts[cls].CharClass?
    ensures forall k :: 0 <= k < |DeleteMatches(s, alts, i)| ==> DeleteMatches(s, alts, i)[k] !in alts[cls].chars
    decreases |s| - i
  {
    if i < |s| {
      match FirstMatch(s, i, alts)
      case Some(e) => DeletedClass(s, alts, e, cls);
      case None =>
        assert MatchAlt(s, i, alts[cls]).None?;
        DeletedClass(s, alts, i + 1, cls);
    }
  }

  /** Text in which nothing matches is left as it is. */
  lemma {:induction false} DeleteNothing(s: string, alts: seq<Alternative>, i: nat)
    requires i <= |s| && Consuming(alts)
    requires forall k :: i <= k < |s| ==> FirstMatch(s, k, alts).None?
    ensures DeleteMatches(s, alts, i) == s[i..]
    decreases |s| - i
  {
    if i < |s| {
      DeleteNothing(s, alts, i + 1);
      assert s[i..] == [s[i]] + s[i + 1..];
    }
  }

  /** The pieces `String.split` cuts before dropping trailing empty ones:
      the current piece started at `start`, and the scan is at `i`. */
  function Pieces(s: string, alts: seq<Alternative>, start: nat, i: nat): (r: seq<string>)
    requires start <= i <= |s| && Consuming(alts)
    ensures |r| > 0
    decreases |s| - i
  {
    if i == |s| then [s[start..]]
    else
      match FirstMatch(s, i, alts)
      case Some(e) => [s[start..i]] + Pieces(s, alts, e, e)
      case None => Pieces(s, alts, start, i + 1)
  }

  /** The matched separators, in the same scan. */
  function Delimiters(s: string, alts: seq<Alternative>, i: nat): (r: seq<string>)
    requires i <= |s| && Consuming(alts)
    decreases |s| - i
  {
    if i == |s| then []
    else
      match FirstMatch(s, i, alts)
      case Some(e) => [s[i..e]] + Delimiters(s, alts, e)
      case None => Delimiters(s, alts, i + 1)
  }

  /** Pieces and separators taken in turn. */
  function Interleave(pieces: seq<string>, delimiters: seq<string>): string
    requires |pieces| == |delimiters| + 1
    decreases |delimiters|
  {
    if |delimiters| == 0 then pieces[0]
    else pieces[0] + delimiters[0] + Interleave(pieces[1..], delimiters[1..])
  }

  /** Splitting loses nothing: the pieces with the separators between them
      give back the text. */
  lemma {:induction false} PiecesRejoin(s: string, alts: seq<Alternative>, start: nat, i: nat)
    requires start <= i <= |s| && Consuming(alts)
    ensures |Pieces(s, alts, start, i)| == |Delimiters(s, alts, i)| + 1
    ensures Interleave(Pieces(s, alts, start, i), Delimiters(s, alts, i)) == s[start..]
    decreases |s| - i
  {
    if i < |s| {
      match FirstMatch(s, i, alts)
      case Some(e) =>
        PiecesRejoin(s, alts, e, e);
        var ps, ds := Pieces(s, alts, e, e), Delimiters(s, alts, e);
        assert Pieces(s, alts, start, i) == [s[start..i]] + ps;
        assert Delimiters(s, alts, i) == [s[i..e]] + ds;
        InterleaveCons(s[start..i], ps, s[i..e], ds);
        SliceThrice(s, start, i, e);
      case None =>
        PiecesRejoin(s, alts, start, i + 1);
        assert Pieces(s, alts, start, i) == Pieces(s, alts, start, i + 1);
        assert Delimiters(s, alts, i) == Delimiters(s, alts, i + 1);
    }
  }

  lemma SliceThrice(s: string, a: nat, b: nat, c: nat)
    requires a <= b <= c <= |s|
    ensures s[a..] == s[a..b] + s[b..c] + s[c..]
  {
  }

  lemma InterleaveCons(p: string, ps: seq<string>, d: string, ds: seq<string>)
    requires |ps| == |ds| + 1
    ensures Interleave([p] + ps, [d] + ds) == p + d + Interleave(ps, ds)
  {
    assert ([p] + ps)[1..] == ps && ([d] + ds)[1..] == ds;
  }

  /** A piece holds no character of a class in the pattern: wherever one
      stands, the scan cuts. */
  lemma {:induction false} PiecesAvoidClass(s: string, alts: seq<Alternative>, start: nat, i: nat, cls: nat)
    requires start <= i <= |s| && Consuming(alts) && cls < |alts| && alts[cls].CharClass?
    requires forall k :: start <= k < i ==> s[k] !in alts[cls].chars
    ensures forall p, k :: p in Pieces(s, alts, start, i) && 0 <= k < |p| ==> p[k] !in alts[cls].chars
    decreases |s| - i
  {
    if i < |s| {
      match FirstMatch(s, i, alts)
      case Some(e) =>
        PiecesAvoidClass(s, alts, e, e, cls);
      case None =>
        assert MatchAlt(s, i, alts[cls]).None?;
        PiecesAvoidClass(s, alts, start, i + 1, cls);
    }
  }

  /** `String.split(regex)`: the input itself when nothing matches,
      otherwise the pieces without the trailing empty ones. */
  function Split(s: string, alts: seq<Alternative>): (r: seq<string>)
    requires Consuming(alts)
    ensures |r| <= |Pieces(s, alts, 0, 0)| && r == Pieces(s, alts, 0, 0)[..|r|]
    ensures forall k :: |r| <= k < |Pieces(s, alts, 0, 0)| ==> Pieces(s, alts, 0, 0)[k] == ""
  {
    var pieces := Pieces(s, alts, 0, 0);
    if |pieces| == 1 then pieces else DropTrailingEmpty(pieces)
  }

  /** Positions where nothing matches leave the current piece open. */
  lemma {:induction false} PiecesSkip(s: string, alts: seq<Alternative>, start: nat, i: nat, j: nat)
    requires start <= i <= j <= |s| && Consuming(alts)
    requires forall k :: i <= k < j ==> FirstMatch(s, k, alts).None?
    ensures Pieces(s, alts, start, i) == Pieces(s, alts, start, j)
    decreases j - i
  {
    if i < j {
      PiecesStep(s, alts, start, i);
      PiecesSkip(s, alts, start, i + 1, j);
    }
  }

  /** One position where nothing matches. */
  lemma PiecesStep(s: string, alts: seq<Alternative>, start: nat, i: nat)
    requires start <= i < |s| && Consuming(alts)
    requires FirstMatch(s, i, alts).None?
    ensures Pieces(s, alts, start, i) == Pieces(s, alts, start, i + 1)
  {
  }

  /** A text the pattern never matches is split into itself alone. */
  lemma SplitNoMatch(s: string, alts: seq<Alternative>)
    requires Consuming(alts)
    requires forall k :: 0 <= k < |s| ==> FirstMatch(s, k, alts).None?
    ensures Split(s, alts) == [s]
  {
    PiecesSkip(s, alts, 0, 0, |s|);
  }

  /** A text with one match, from `i` to `e`, and a non-empty rest after it
      is split into what precedes the match and what follows it. */
  lemma SplitOneMatch(s: string, alts: seq<Alternative>, i: nat, e: nat)
    requires Consuming(alts) && i < e < |s|
    requires forall k :: 0 <= k < i ==> FirstMatch(s, k, alts).None?
    requires FirstMatch(s, i, alts) == Some(e)
    requires forall k :: e <= k < |s| ==> FirstMatch(s, k, alts).None?
    ensures Split(s, alts) == [s[..i], s[e..]]
  {
    PiecesSkip(s, alts, 0, 0, i);
    PiecesSkip(s, alts, e, e, |s|);
    assert Pieces(s, alts, 0, 0) == [s[..i], s[e..]];
  }
}
