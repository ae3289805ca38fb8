/** Character classes and string operations of the Java platform that the
    processors rely on: `Character.isWhitespace`, `String.trim`, the
    `java.util.regex` classes `\d`, `\s` and `.`, `String.replace`,
    `Integer.toString` and commons-lang `StringUtils.join`. */
module JavaText {

  /** `\d` of java.util.regex (no UNICODE_CHARACTER_CLASS): ASCII digits. */
  predicate IsDigit(c: char) { '0' <= c <= '9' }

  /** `\s` of java.util.regex: space, tab, newline, vertical tab, form feed, return. */
  predicate IsRegexSpace(c: char) {
    c == ' ' || c == '\t' || c == '\n' || c == '\U{B}' || c == '\U{C}' || c == '\r'
  }

  /** The characters java.util.regex treats as line terminators: `.` does
      not match them and `$` may match just before a final one. */
  predicate IsLineTerminator(c: char) {
    c == '\n' || c == '\r' || c == '\U{85}' || c == '\U{2028}' || c == '\U{2029}'
  }

  /** Line terminators that `\s` does not match. */
  predicate IsUnicodeTerminator(c: char) {
    c == '\U{85}' || c == '\U{2028}' || c == '\U{2029}'
  }

  /** `Character.isWhitespace`: the Unicode space separators other than the
      non-breaking ones, plus the ASCII controls tab to return and the four
      information separators. */
  predicate IsJavaWhitespace(c: char) {
    ('\t' <= c <= '\r') || ('\U{1C}' <= c <= ' ') || c == '\U{1680}' || c == '\U{180E}'
    || ('\U{2000}' <= c <= '\U{2006}') || ('\U{2008}' <= c <= '\U{200A}')
    || c == '\U{2028}' || c == '\U{2029}' || c == '\U{205F}' || c == '\U{3000}'
  }

  /** commons-lang `StringUtils.isBlank`; a Java `null` is modelled as "". */
  predicate IsBlank(s: string) {
    forall i :: 0 <= i < |s| ==> IsJavaWhitespace(s[i])
  }

  /** `String.trim` removes every character up to U+0020 at either end. */
  predicate IsTrimmed(c: char) { c <= ' ' }

  function TrimStart(s: string): (r: string)
    ensures |r| <= |s| && r == s[|s| - |r|..]
    ensures forall i :: 0 <= i < |s| - |r| ==> IsTrimmed(s[i])
    ensures |r| > 0 ==> !IsTrimmed(r[0])
  {
    if |s| > 0 && IsTrimmed(s[0]) then TrimStart(s[1..]) else s
  }

  function TrimEnd(s: string): (r: string)
    ensures |r| <= |s| && r == s[..|r|]
    ensures forall i :: |r| <= i < |s| ==> IsTrimmed(s[i])
    ensures |r| > 0 ==> !IsTrimmed(r[|r| - 1])
  {
    if |s| > 0 && IsTrimmed(s[|s| - 1]) then TrimEnd(s[..|s| - 1]) else s
  }

  /** `String.trim`. */
  function Trim(s: string): string {
    TrimEnd(TrimStart(s))
  }

  /** The trimmed text is a slice of the text, with only trimmed characters
      cut at either end. */
  lemma TrimSlice(s: string)
    ensures var a := |s| - |TrimStart(s)|; var b := a + |Trim(s)|;
      0 <= a <= b <= |s| && Trim(s) == s[a..b]
      && (forall i :: 0 <= i < a ==> IsTrimmed(s[i]))
      && (forall i :: b <= i < |s| ==> IsTrimmed(s[i]))
  {
    TrimCutMiddle(s);
    TrimCutTail(s);
  }

  lemma TrimCutMiddle(s: string)
    ensures var a := |s| - |TrimStart(s)|; a + |Trim(s)| <= |s| && Trim(s) == s[a..a + |Trim(s)|]
  {
    var t := TrimStart(s);
    var r := TrimEnd(t);
    var a := |s| - |t|;
    assert Trim(s) == r == t[..|r|] && t == s[a..];
    PrefixOfSuffix(s, a, |r|);
  }

  lemma PrefixOfSuffix(s: string, a: nat, n: nat)
    requires a + n <= |s|
    ensures s[a..][..n] == s[a..a + n]
  {
  }

  lemma TrimCutTail(s: string)
    ensures var b := |s| - |TrimStart(s)| + |Trim(s)|; forall i :: b <= i < |s| ==> IsTrimmed(s[i])
  {
    var t := TrimStart(s);
    var r := TrimEnd(t);
    var a := |s| - |t|;
    forall i | a + |r| <= i < |s| ensures IsTrimmed(s[i]) {
      assert s[i] == t[i - a];
    }
  }

  /** The trimmed text neither starts nor ends with a trimmed character. */
  lemma TrimEnds(s: string)
    ensures |Trim(s)| > 0 ==> !IsTrimmed(Trim(s)[0]) && !IsTrimmed(Trim(s)[|Trim(s)| - 1])
  {
    var t := TrimStart(s);
    var r := TrimEnd(t);
    assert |r| > 0 ==> r[0] == t[0];
  }

  lemma {:induction false} TrimStartFixed(s: string)
    requires |s| == 0 || !IsTrimmed(s[0])
    ensures TrimStart(s) == s
  {
  }

  lemma {:induction false} TrimEndFixed(s: string)
    requires |s| == 0 || !IsTrimmed(s[|s| - 1])
    ensures TrimEnd(s) == s
  {
  }

  /** Trimming twice is trimming once. */
  lemma TrimIdempotent(s: string)
    ensures Trim(Trim(s)) == Trim(s)
  {
    var r := Trim(s);
    TrimEnds(s);
    TrimStartFixed(r);
    TrimEndFixed(r);
  }

  /** The characters of `s` kept by `keep`, in order (a `replaceAll` of a
      negated character class by ""). */
  function Filter(s: string, keep: char -> bool): (r: string)
    ensures |r| <= |s|
    ensures forall i :: 0 <= i < |r| ==> keep(r[i])
  {
    if |s| == 0 then "" else Filter(s[..|s| - 1], keep) + (if keep(s[|s| - 1]) then [s[|s| - 1]] else "")
  }

  lemma {:induction false} FilterAppend(a: string, b: string, keep: char -> bool)
    ensures Filter(a + b, keep) == Filter(a, keep) + Filter(b, keep)
    decreases |b|
  {
    if |b| == 0 {
      assert a + b == a;
    } else {
      assert (a + b)[..|a + b| - 1] == a + b[..|b| - 1];
      FilterAppend(a, b[..|b| - 1], keep);
    }
  }

  /** Filtering keeps every character the predicate accepts: a string made
      only of such characters is left unchanged. */
  lemma {:induction false} FilterKeepsAll(s: string, keep: char -> bool)
    requires forall i :: 0 <= i < |s| ==> keep(s[i])
    ensures Filter(s, keep) == s
  {
    if |s| > 0 {
      FilterKeepsAll(s[..|s| - 1], keep);
    }
  }

  /** A string none of whose characters is accepted filters to "". */
  lemma {:induction false} FilterDropsAll(s: string, keep: char -> bool)
    requires forall i :: 0 <= i < |s| ==> !keep(s[i])
    ensures Filter(s, keep) == ""
  {
    if |s| > 0 {
      FilterDropsAll(s[..|s| - 1], keep);
    }
  }

  /** Filtering twice with the same predicate is filtering once. */
  lemma FilterIdempotent(s: string, keep: char -> bool)
    ensures Filter(Filter(s, keep), keep) == Filter(s, keep)
  {
    FilterKeepsAll(Filter(s, keep), keep);
  }

  /** The digits of a string, in order (`replaceAll("[^\\d]", "")`). */
  function Digits(s: string): (r: string)
    ensures forall i :: 0 <= i < |r| ==> IsDigit(r[i])
  {
    Filter(s, IsDigit)
  }

  /** commons-lang `StringUtils.join(list, sep)` over non-null elements. */
  function Join(parts: seq<string>, sep: string): string {
    if |parts| == 0 then ""
    else if |parts| == 1 then parts[0]
    else Join(parts[..|parts| - 1], sep) + sep + parts[|parts| - 1]
  }

  /** Java's `String.replace(target, replacement)`: every occurrence, left to
      right, without overlap. */
  function ReplaceAll(s: string, target: string, replacement: string): string
    requires |target| > 0
    decreases |s|
  {
    if |s| < |target| then s
    else if s[..|target|] == target then replacement + ReplaceAll(s[|target|..], target, replacement)
    else [s[0]] + ReplaceAll(s[1..], target, replacement)
  }

  /** `replace` passes over text holding no first character of the target. */
  lemma {:induction false} ReplaceAllSkips(u: string, rest: string, target: string, replacement: string)
    requires |target| > 0 && forall k :: 0 <= k < |u| ==> u[k] != target[0]
    ensures ReplaceAll(u + rest, target, replacement) == u + ReplaceAll(rest, target, replacement)
    decreases |u|
  {
    if |u| == 0 {
      assert u + rest == rest;
    } else {
      var s := u + rest;
      if |s| >= |target| {
        assert s[..|target|] != target by {
          assert s[..|target|][0] == u[0];
        }
        assert s[1..] == u[1..] + rest;
        assert ReplaceAll(s, target, replacement) == [u[0]] + ReplaceAll(u[1..] + rest, target, replacement);
        ReplaceAllSkips(u[1..], rest, target, replacement);
        assert u == [u[0]] + u[1..];
      } else {
        assert ReplaceAll(rest, target, replacement) == rest;
      }
    }
  }

  /** One occurrence of the target, with none of its first character
      around it, is replaced and nothing else changes. */
  lemma ReplaceAllOnce(u: string, target: string, v: string, replacement: string)
    requires |target| > 0
    requires forall k :: 0 <= k < |u| ==> u[k] != target[0]
    requires forall k :: 0 <= k < |v| ==> v[k] != target[0]
    ensures ReplaceAll(u + target + v, target, replacement) == u + replacement + v
  {
    assert u + target + v == u + (target + v);
    ReplaceAllSkips(u, target + v, target, replacement);
    assert (target + v)[..|target|] == target && (target + v)[|target|..] == v;
    ReplaceAllSkips(v, "", target, replacement);
    assert v + "" == v;
  }

  /** The character of one decimal digit. */
  function DigitChar(d: nat): (c: char)
    requires d < 10
    ensures IsDigit(c) && DigitValue(c) == d
  {
    ['0', '1', '2', '3', '4', '5', '6', '7', '8', '9'][d]
  }

  function DigitValue(c: char): nat
    requires IsDigit(c)
  {
    (c as int - '0' as int) as nat
  }

  predicate AllDigits(s: string) {
    forall i :: 0 <= i < |s| ==> IsDigit(s[i])
  }

  /** The value of a string of decimal digits ("" is 0). */
  function DigitsValue(s: string): nat
    requires AllDigits(s)
  {
    if |s| == 0 then 0 else DigitsValue(s[..|s| - 1]) * 10 + DigitValue(s[|s| - 1])
  }

  lemma DigitsValueAppend(a: string, c: char)
    requires AllDigits(a) && IsDigit(c)
    ensures AllDigits(a + [c]) && DigitsValue(a + [c]) == DigitsValue(a) * 10 + DigitValue(c)
  {
    assert (a + [c])[..|a|] == a;
  }

  /** `Integer.toString` of a non-negative value. */
  function NatToString(n: nat): (r: string)
    ensures |r| > 0 && AllDigits(r)
    ensures DigitsValue(r) == n
  {
    if n < 10 then [DigitChar(n)]
    else
      var r := NatToString(n / 10) + [DigitChar(n % 10)];
      assert r[..|r| - 1] == NatToString(n / 10);
      r
  }

  /** `Integer.toString`. */
  function IntToString(n: int): (r: string)
    ensures |r| > 0
    ensures n >= 0 ==> AllDigits(r) && DigitsValue(r) == n
    ensures n < 0 ==> r[0] == '-' && AllDigits(r[1..]) && DigitsValue(r[1..]) == -n
  {
    if n < 0 then
      var r := "-" + NatToString(-n);
      assert r[1..] == NatToString(-n);
      r
    else NatToString(n)
  }

  /** The index of the first character at or after `i` that is not a digit. */
  function DigitRunEnd(s: string, i: nat): (j: nat)
    requires i <= |s|
    ensures i <= j <= |s|
    ensures forall k :: i <= k < j ==> IsDigit(s[k])
    ensures j < |s| ==> !IsDigit(s[j])
    decreases |s| - i
  {
    if i < |s| && IsDigit(s[i]) then DigitRunEnd(s, i + 1) else i
  }

  /** The end of the maximal run of `sep` characters starting at `i`. */
  function RunEnd(s: string, i: nat, sep: char -> bool): (j: nat)
    requires i <= |s|
    ensures i <= j <= |s|
    ensures forall k :: i <= k < j ==> sep(s[k])
    ensures j < |s| ==> !sep(s[j])
    decreases |s| - i
  {
    if i < |s| && sep(s[i]) then RunEnd(s, i + 1, sep) else i
  }

  /** True when the last character of `s` other than a trailing `\s` run
      (and one final line terminator that `\s` does not cover) is in
      `letters`: the `find()` of `[<letters>]\s*$`. */
  predicate EndsWithOneOf(s: string, letters: set<char>) {
    var e := LetterZoneEnd(s);
    var u := TrailingSpaceStart(s, e);
    u > 0 && s[u - 1] in letters
  }

  /** Where `$` can sit at the end of `s`: before a final line terminator
      that `\s` does not match, otherwise the end of the input. */
  function LetterZoneEnd(s: string): (e: nat)
    ensures e <= |s| && |s| - e <= 1
  {
    if |s| > 0 && IsUnicodeTerminator(s[|s| - 1]) then |s| - 1 else |s|
  }

  /** The start of the `\s` run that ends at `e`. */
  function TrailingSpaceStart(s: string, e: nat): (u: nat)
    requires e <= |s|
    ensures u <= e
    ensures forall k :: u <= k < e ==> IsRegexSpace(s[k])
    ensures u > 0 ==> !IsRegexSpace(s[u - 1])
  {
    if e > 0 && IsRegexSpace(s[e - 1]) then TrailingSpaceStart(s, e - 1) else e
  }

  /** Letters of the case-insensitive class `[NSEW]` (ASCII case folding only). */
  const Cardinals: set<char> := {'N', 'S', 'E', 'W', 'n', 's', 'e', 'w'}
  const EastWest: set<char> := {'E', 'W', 'e', 'w'}
  const NorthSouth: set<char> := {'N', 'S', 'n', 's'}
  const SouthWest: set<char> := {'S', 'W', 's', 'w'}

  /** Splitting at every `c`, empty pieces included (how a reader of the
      "|"-joined value gets the names back). */
  function SplitOn(s: string, c: char): (r: seq<string>)
    ensures |r| > 0
  {
    if |s| == 0 then [""]
    else
      var r := SplitOn(s[..|s| - 1], c);
      if s[|s| - 1] == c then r + [""]
      else r[..|r| - 1] + [r[|r| - 1] + [s[|s| - 1]]]
  }

  predicate Lacks(s: string, c: char) {
    forall k :: 0 <= k < |s| ==> s[k] != c
  }

  /** Text without `c` is one piece. */
  lemma {:induction false} SplitOnPlain(a: string, b: string, c: char)
    requires Lacks(b, c)
    ensures var r := SplitOn(a, c);
      SplitOn(a + b, c) == r[..|r| - 1] + [r[|r| - 1] + b]
    decreases |b|
  {
    var r := SplitOn(a, c);
    if |b| == 0 {
      assert a + b == a;
      assert r[|r| - 1] + b == r[|r| - 1];
      assert r[..|r| - 1] + [r[|r| - 1]] == r;
    } else {
      var b', x := b[..|b| - 1], b[|b| - 1];
      assert (a + b)[..|a + b| - 1] == a + b';
      SplitOnPlain(a, b', c);
      var q := SplitOn(a + b', c);
      assert q == r[..|r| - 1] + [r[|r| - 1] + b'];
      assert q[..|q| - 1] == r[..|r| - 1];
      assert q[|q| - 1] == r[|r| - 1] + b';
      assert SplitOn(a + b, c) == q[..|q| - 1] + [q[|q| - 1] + [x]];
      assert r[|r| - 1] + b' + [x] == r[|r| - 1] + b;
    }
  }

  /** Joining names that hold no `c` with `c` between them, then splitting
      at `c`, gives the names back. */
  lemma {:induction false} SplitOnJoin(names: seq<string>, c: char)
    requires |names| > 0
    requires forall i :: 0 <= i < |names| ==> Lacks(names[i], c)
    ensures SplitOn(Join(names, [c]), c) == names
  {
    var last := names[|names| - 1];
    if |names| == 1 {
      SplitOnPlain("", last, c);
      assert "" + last == last;
    } else {
      var init := names[..|names| - 1];
      SplitOnJoin(init, c);
      SplitOnJoinLast(init, last, c);
      assert init + [last] == names;
    }
  }

  /** One more name after names that split back. */
  lemma SplitOnJoinLast(init: seq<string>, last: string, c: char)
    requires |init| > 0 && Lacks(last, c) && SplitOn(Join(init, [c]), c) == init
    ensures SplitOn(Join(init + [last], [c]), c) == init + [last]
  {
    var j := Join(init, [c]);
    var jc := j + [c];
    assert jc[..|jc| - 1] == j;
    var r := SplitOn(jc, c);
    assert r == init + [""];
    SplitOnPlain(jc, last, c);
    assert r[..|r| - 1] == init;
    assert (init + [last])[..|init|] == init;
    assert Join(init + [last], [c]) == jc + last;
    assert "" + last == last;
  }

  /** Without trailing empty strings (`split` with limit 0). */
  function DropTrailingEmpty(parts: seq<string>): (r: seq<string>)
    ensures |r| <= |parts| && r == parts[..|r|]
    ensures |r| > 0 ==> r[|r| - 1] != ""
    ensures forall k :: |r| <= k < |parts| ==> parts[k] == ""
  {
    if |parts| == 0 || parts[|parts| - 1] != "" then parts
    else DropTrailingEmpty(parts[..|parts| - 1])
  }

  /** `String.split` with a one-character pattern that is no regular
      expression metacharacter (the tab of a dictionary line): the text
      itself when `c` does not occur, otherwise the pieces without the
      trailing empty ones. */
  function SplitChar(s: string, c: char): (r: seq<string>)
    ensures |r| <= |SplitOn(s, c)| && r == SplitOn(s, c)[..|r|]
    ensures forall k :: |r| <= k < |SplitOn(s, c)| ==> SplitOn(s, c)[k] == ""
  {
    var pieces := SplitOn(s, c);
    if |pieces| == 1 then pieces else DropTrailingEmpty(pieces)
  }

  /** The first piece is the text before the first `c`; it is all of the
      text when there is a single piece. */
  lemma {:induction false} SplitOnHead(s: string, c: char)
    ensures var r := SplitOn(s, c);
      |r[0]| <= |s| && r[0] == s[..|r[0]|] && Lacks(r[0], c)
      && (|r| == 1 ==> r[0] == s)
      && (|r| > 1 ==> |r[0]| < |s| && s[|r[0]|] == c)
  {
    if |s| > 0 {
      var s', x := s[..|s| - 1], s[|s| - 1];
      SplitOnHead(s', c);
      var q := SplitOn(s', c);
      var r := SplitOn(s, c);
      if x == c {
        assert r == q + [""];
      } else {
        assert r == q[..|q| - 1] + [q[|q| - 1] + [x]];
        if |q| == 1 {
          assert s' + [x] == s;
        }
      }
    }
  }

  /** Text without `c` comes back whole. */
  lemma SplitCharPlain(s: string, c: char)
    requires Lacks(s, c)
    ensures SplitChar(s, c) == [s]
  {
    SplitOnPlain("", s, c);
    assert "" + s == s;
  }

  /** Two pieces without `c`, the second not empty, joined by `c` come back
      apart. */
  lemma SplitCharPair(a: string, b: string, c: char)
    requires Lacks(a, c) && Lacks(b, c) && b != ""
    ensures SplitChar(a + [c] + b, c) == [a, b]
  {
    SplitOnJoin([a, b], c);
    assert Join([a, b], [c]) == a + [c] + b by {
      assert [a, b][..1] == [a];
    }
  }

  /** A trailing `c` yields no second piece: the empty piece after it is
      dropped. */
  lemma SplitCharTrailing(a: string, c: char)
    requires Lacks(a, c)
    ensures SplitChar(a + [c], c) == if a == "" then [] else [a]
  {
    SplitOnPlain("", a, c);
    assert "" + a == a;
    assert (a + [c])[..|a|] == a;
  }
}
