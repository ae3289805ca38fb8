/** The behaviour the processor's tests describe, on a small dictionary. */
module CountryContinentExamples {
  import opened Wrappers
  import opened JavaText
  import opened Diagnostics
  import opened ErrorHandling
  import opened CountryContinent

  /** A stand-in for the `Continent` enumeration: its codes and titles. */
  datatype Continent = Africa | Antarctica | Asia | Europe | NorthAmerica | Oceania | SouthAmerica

  function FromCode(code: string): Option<Continent> {
    if code == "AF" then Some(Africa)
    else if code == "AN" then Some(Antarctica)
    else if code == "AS" then Some(Asia)
    else if code == "EU" then Some(Europe)
    else if code == "NA" then Some(NorthAmerica)
    else if code == "OC" then Some(Oceania)
    else if code == "SA" then Some(SouthAmerica)
    else None
  }

  function Title(c: Continent): string {
    match c
    case Africa => "Africa"
    case Antarctica => "Antarctica"
    case Asia => "Asia"
    case Europe => "Europe"
    case NorthAmerica => "North America"
    case Oceania => "Oceania"
    case SouthAmerica => "South America"
  }

  const CanadaLine: string := "CA\tNA"

  lemma CanadaEntry()
    ensures ParseLine(CanadaLine) == Some(("CA", "NA"))
  {
    ParseLineEntry("CA", "NA");
    assert "CA" + [Separator] + "NA" == CanadaLine;
  }

  lemma CanadaTable()
    ensures TableOf([CanadaLine]) == Some(map["CA" := "NA"])
  {
    CanadaEntry();
    assert [CanadaLine][..0] == [];
  }

  /** "CA" is in North America, written as its title. */
  lemma CanadaInNorthAmerica()
    ensures BeanValue(map["CA" := "NA"], UseNull, "CA", FromCode, Title) == Some("North America")
  {
    assert !IsBlank("CA") by { assert "CA"[0] == 'C'; }
  }

  /** "test" has no continent: null or "" by the mode, one error, and
      invalid whether mandatory or not, since it is not blank. */
  lemma UnknownCode(isMandatory: bool)
    ensures Lookup(map["CA" := "NA"], "test", FromCode) ==
      Found(None, [Diagnostic(NoMatchingContinent, "test")])
    ensures BeanValue(map["CA" := "NA"], UseNull, "test", FromCode, Title) == None
    ensures BeanValue(map["CA" := "NA"], UseEmpty, "test", FromCode, Title) == Some("")
    ensures !CodeIsValid(map["CA" := "NA"], "test", isMandatory, FromCode)
  {
    assert !IsBlank("test") by { assert "test"[0] == 't'; }
  }

  /** Lookup is exact: the lower-case code is unknown. */
  lemma LowerCaseUnknown()
    ensures Lookup(map["CA" := "NA"], "ca", FromCode).errors == [Diagnostic(NoMatchingContinent, "ca")]
  {
    assert !IsBlank("ca") by { assert "ca"[0] == 'c'; }
  }

  /** A missing code is valid only when the value is optional. */
  lemma BlankCode(table: map<string, string>)
    ensures CodeIsValid(table, "", false, FromCode)
    ensures !CodeIsValid(table, "", true, FromCode)
    ensures Lookup(table, "", FromCode) == Found(None, [])
  {
  }

  /** A second line for the same code replaces the first. */
  lemma LaterLineWins()
    ensures TableOf([CanadaLine, "CA\tEU"]) == Some(map["CA" := "EU"])
  {
    CanadaTable();
    ParseLineEntry("CA", "EU");
    assert "CA" + [Separator] + "EU" == "CA\tEU";
    assert [CanadaLine, "CA\tEU"][..1] == [CanadaLine];
    assert map["CA" := "NA"]["CA" := "EU"] == map["CA" := "EU"];
  }

  /** A line without a continent code makes construction throw, and so
      does the mode `USE_ORIGINAL`. */
  method MissingContinentCode() returns (failure: Option<Failure>, modeFailure: Option<Failure>)
    ensures failure == Some(IndexOutOfBounds) && modeFailure == Some(IllegalArgument)
  {
    ParseLineMissingField("CA", "");
    assert "CA" + "" == "CA";
    TableOfDefined([CanadaLine, "CA"]);
    var p, q;
    p, failure := Create([CanadaLine, "CA"], UseNull);
    q, modeFailure := Create([CanadaLine], UseOriginal);
  }
}
