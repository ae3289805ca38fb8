/** `CountryContinentProcessor`: a dictionary from ISO 3166-1 alpha-2
    country codes to continent codes, read once from tab-separated lines
    and never changed afterwards, and the lookup built on it. */
module CountryContinent {
  import opened Wrappers
  import opened JavaText
  import opened Diagnostics
  import opened ErrorHandling

  /** The field separator of a dictionary line (`SEPARATOR`). */
  const Separator: char := '\t'

  /** The exceptions the constructor can throw. */
  datatype Failure =
    | IllegalArgument    // an error mode other than USE_NULL and USE_EMPTY
    | IndexOutOfBounds   // a line whose split has no second field

  /** `setErrorHandlingMode` (lines 164-172): the modes it accepts. */
  predicate AcceptedMode(mode: ErrorHandlingMode) {
    mode == UseNull || mode == UseEmpty
  }

  /** `currLine.split(SEPARATOR)` then `lineArr[0]` and `lineArr[1]`
      (lines 72-73): the key and the continent code, or nothing when the
      split has fewer than two fields. */
  function ParseLine(line: string): (r: Option<(string, string)>)
    ensures r.Some? <==> |SplitChar(line, Separator)| >= 2
  {
    var fields := SplitChar(line, Separator);
    if |fields| >= 2 then Some((fields[0], fields[1])) else None
  }

  /** The key is exactly the text before the line's first tab. */
  lemma ParseLineKey(line: string)
    requires ParseLine(line).Some?
    ensures var key := ParseLine(line).value.0;
      |key| < |line| && key == line[..|key|] && Lacks(key, Separator) && line[|key|] == Separator
  {
    SplitOnHead(line, Separator);
  }

  /** A code and a continent code without tabs, joined by one tab, are read
      back as that entry. */
  lemma ParseLineEntry(code: string, continentCode: string)
    requires Lacks(code, Separator) && Lacks(continentCode, Separator) && continentCode != ""
    ensures ParseLine(code + [Separator] + continentCode) == Some((code, continentCode))
  {
    SplitCharPair(code, continentCode, Separator);
  }

  /** A line without a tab, or with nothing after its only tab, has no
      second field. */
  lemma ParseLineMissingField(code: string, tail: string)
    requires Lacks(code, Separator)
    requires tail == "" || tail == [Separator]
    ensures ParseLine(code + tail).None?
  {
    if tail == "" {
      assert code + tail == code;
      SplitCharPlain(code, Separator);
    } else {
      SplitCharTrailing(code, Separator);
    }
  }

  /** `line` is an entry for `key`. */
  predicate EntryFor(line: string, key: string) {
    ParseLine(line).Some? && ParseLine(line).value.0 == key
  }

  /** The dictionary the loop of lines 71-74 builds: every line's key mapped
      to its continent code, a later line overwriting an earlier one with
      the same key; nothing when some line has no second field. */
  function TableOf(lines: seq<string>): Option<map<string, string>> {
    if |lines| == 0 then Some(map[])
    else
      match (TableOf(lines[..|lines| - 1]), ParseLine(lines[|lines| - 1]))
      case (Some(table), Some((key, continentCode))) => Some(table[key := continentCode])
      case _ => None
  }

  /** The dictionary exists exactly when every line has two fields. */
  lemma {:induction false} TableOfDefined(lines: seq<string>)
    ensures TableOf(lines).Some? <==> forall i :: 0 <= i < |lines| ==> ParseLine(lines[i]).Some?
  {
    if |lines| > 0 {
      var init := lines[..|lines| - 1];
      TableOfDefined(init);
      assert forall i :: 0 <= i < |init| ==> init[i] == lines[i];
    }
  }

  /** Each key of the dictionary comes from a line that maps it to its value. */
  lemma {:induction false} TableOfFromLines(lines: seq<string>)
    requires TableOf(lines).Some?
    ensures var table := TableOf(lines).value;
      forall key :: key in table ==>
        exists i :: 0 <= i < |lines| && ParseLine(lines[i]) == Some((key, table[key]))
  {
    if |lines| > 0 {
      var init := lines[..|lines| - 1];
      TableOfFromLines(init);
      var table := TableOf(lines).value;
      forall key | key in table
        ensures exists i :: 0 <= i < |lines| && ParseLine(lines[i]) == Some((key, table[key]))
      {
        if ParseLine(lines[|lines| - 1]).value.0 != key {
          var i :| 0 <= i < |init| && ParseLine(init[i]) == Some((key, table[key]));
          assert lines[i] == init[i];
        }
      }
    }
  }

  /** The keys of the dictionary are exactly the keys of the lines. */
  lemma {:induction false} TableOfKeys(lines: seq<string>, key: string)
    requires TableOf(lines).Some?
    ensures key in TableOf(lines).value <==> exists i :: 0 <= i < |lines| && EntryFor(lines[i], key)
  {
    if |lines| > 0 {
      var init := lines[..|lines| - 1];
      TableOfKeys(init, key);
      assert forall i :: 0 <= i < |init| ==> init[i] == lines[i];
      if EntryFor(lines[|lines| - 1], key) {
        assert key in TableOf(lines).value;
      } else if exists i :: 0 <= i < |lines| && EntryFor(lines[i], key) {
        var i :| 0 <= i < |lines| && EntryFor(lines[i], key);
        assert EntryFor(init[i], key);
      }
    }
  }

  /** The last line with a given key decides its value. */
  lemma {:induction false} TableOfLastWins(lines: seq<string>, i: nat, key: string, continentCode: string)
    requires TableOf(lines).Some? && i < |lines|
    requires ParseLine(lines[i]) == Some((key, continentCode))
    requires forall j :: i < j < |lines| ==> !EntryFor(lines[j], key)
    ensures key in TableOf(lines).value && TableOf(lines).value[key] == continentCode
  {
    var init := lines[..|lines| - 1];
    if i < |lines| - 1 {
      assert init[i] == lines[i];
      assert forall j :: i < j < |init| ==> init[j] == lines[j];
      TableOfLastWins(init, i, key, continentCode);
    }
  }

  /** The loop of lines 71-74, stopping where `lineArr[1]` throws. */
  method BuildTable(lines: seq<string>) returns (table: map<string, string>, failure: Option<Failure>)
    ensures failure.None? <==> TableOf(lines).Some?
    ensures failure.None? ==> TableOf(lines) == Some(table)
    ensures failure.Some? ==> failure.value == IndexOutOfBounds
  {
    table := map[];
    var i := 0;
    while i < |lines|
      invariant 0 <= i <= |lines|
      invariant TableOf(lines[..i]) == Some(table)
    {
      var lineArr := SplitChar(lines[i], Separator);
      assert lines[..i + 1][..i] == lines[..i];
      if |lineArr| < 2 {
        TableOfDefined(lines[..i + 1]);
        TableOfDefined(lines);
        assert lines[..i + 1][i] == lines[i];
        return table, Some(IndexOutOfBounds);
      }
      table := table[lineArr[0] := lineArr[1]];
      i := i + 1;
    }
    assert lines[..i] == lines;
    failure := None;
  }

  /** The processor after construction. Both fields are set once by the
      constructor and read-only afterwards (the map is wrapped
      unmodifiable at line 81). */
  class CountryContinentProcessor {
    const countryContinentMap: map<string, string>
    const errorHandlingMode: ErrorHandlingMode

    constructor(table: map<string, string>, mode: ErrorHandlingMode)
      requires AcceptedMode(mode)
      ensures countryContinentMap == table && errorHandlingMode == mode
    {
      countryContinentMap := table;
      errorHandlingMode := mode;
    }

    /** `process(countryISOLetterCode, result)` (lines 145-159): null for a
        blank code; the continent of the code's entry when there is one;
        otherwise null and one error. `fromCode` is `Continent.fromCode`,
        which may itself give null. */
    method Process<C>(code: string, result: ProcessingResult?, fromCode: string -> Option<C>)
      returns (continent: Option<C>)
      modifies Frame(result)
      ensures continent == Lookup(countryContinentMap, code, fromCode).continent
      ensures Errors(result) == old(Errors(result))
        + (if result == null then [] else Lookup(countryContinentMap, code, fromCode).errors)
    {
      if IsBlank(code) {
        return None;
      }
      if code in countryContinentMap {
        return fromCode(countryContinentMap[code]);
      }
      Report(result, [Diagnostic(NoMatchingContinent, code)]);
      continent := None;
    }
  }

  /** `new CountryContinentProcessor(..., input, errorHandlingMode)` (lines
      62-82) on the lines of `input`: the mode is checked first, then the
      dictionary is read. */
  method Create(lines: seq<string>, mode: ErrorHandlingMode)
    returns (p: CountryContinentProcessor?, failure: Option<Failure>)
    ensures p != null <==> failure.None?
    ensures failure == Some(IllegalArgument) <==> !AcceptedMode(mode)
    ensures failure == Some(IndexOutOfBounds) <==> AcceptedMode(mode) && TableOf(lines).None?
    ensures p != null ==> Some(p.countryContinentMap) == TableOf(lines) && p.errorHandlingMode == mode
  {
    if !AcceptedMode(mode) {
      return null, Some(IllegalArgument);
    }
    var table, tableFailure := BuildTable(lines);
    if tableFailure.Some? {
      return null, tableFailure;
    }
    p := new CountryContinentProcessor(table, mode);
    failure := None;
  }

  /** What `process` returns and the errors it appends. */
  datatype Found<C> = Found(continent: Option<C>, errors: seq<Diagnostic>)

  /** `process` as a function of the dictionary. */
  function Lookup<C>(table: map<string, string>, code: string, fromCode: string -> Option<C>): (r: Found<C>)
    ensures IsBlank(code) ==> r == Found(None, [])
    ensures !IsBlank(code) && code in table ==> r == Found(fromCode(table[code]), [])
    ensures !IsBlank(code) && code !in table ==> r == Found(None, [Diagnostic(NoMatchingContinent, code)])
  {
    if IsBlank(code) then Found(None, [])
    else if code in table then Found(fromCode(table[code]), [])
    else Found(None, [Diagnostic(NoMatchingContinent, code)])
  }

  /** An error is reported exactly for a code that is not blank and has no
      entry; a continent only ever comes from the code's own entry. */
  lemma LookupErrors<C>(table: map<string, string>, code: string, fromCode: string -> Option<C>)
    ensures Lookup(table, code, fromCode).errors != [] <==> !IsBlank(code) && code !in table
    ensures Lookup(table, code, fromCode).continent.Some? ==>
      code in table && Lookup(table, code, fromCode).continent == fromCode(table[code])
  {
  }

  /** On a dictionary read from lines, a code that is not blank is reported
      exactly when no line has it as its key (the match is exact, so case
      matters); otherwise the continent comes from the last such line. */
  lemma LookupFromLines<C>(lines: seq<string>, code: string, fromCode: string -> Option<C>, i: nat)
    requires TableOf(lines).Some? && !IsBlank(code)
    ensures var found := Lookup(TableOf(lines).value, code, fromCode);
      found.errors == [Diagnostic(NoMatchingContinent, code)] <==>
        forall j :: 0 <= j < |lines| ==> !EntryFor(lines[j], code)
    ensures i < |lines| && EntryFor(lines[i], code) && (forall j :: i < j < |lines| ==> !EntryFor(lines[j], code))
      ==> Lookup(TableOf(lines).value, code, fromCode) == Found(fromCode(ParseLine(lines[i]).value.1), [])
  {
    TableOfKeys(lines, code);
    if i < |lines| && EntryFor(lines[i], code) && (forall j :: i < j < |lines| ==> !EntryFor(lines[j], code)) {
      TableOfLastWins(lines, i, code, ParseLine(lines[i]).value.1);
    }
  }

  /** The fallback of `processBean` (lines 97-104): the continent's title,
      or null under `USE_NULL` and "" under `USE_EMPTY`. */
  function BeanValue<C>(table: map<string, string>, mode: ErrorHandlingMode, code: string,
                        fromCode: string -> Option<C>, title: C -> string): (r: Option<string>)
    requires AcceptedMode(mode)
    ensures Lookup(table, code, fromCode).continent.Some? ==>
      r == Some(title(Lookup(table, code, fromCode).continent.value))
    ensures Lookup(table, code, fromCode).continent.None? ==> r == (if mode == UseNull then None else Some(""))
  {
    match Lookup(table, code, fromCode).continent
    case Some(continent) => Some(title(continent))
    case None => ValueOnError(mode, None)
  }

  /** `validateBean` (lines 116-136): valid when a continent is found, or
      when the code is optional and blank. */
  function CodeIsValid<C>(table: map<string, string>, code: string, isMandatory: bool,
                          fromCode: string -> Option<C>): (valid: bool)
    ensures valid <==> (!IsBlank(code) && code in table && fromCode(table[code]).Some?)
                       || (!isMandatory && IsBlank(code))
    ensures valid && isMandatory ==> Lookup(table, code, fromCode).errors == []
    ensures !IsBlank(code) && code !in table ==> !valid
  {
    Lookup(table, code, fromCode).continent.Some? || (!isMandatory && IsBlank(code))
  }
}
