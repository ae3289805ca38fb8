/** The shared behaviour of the two numeric pair processors (the Darwin
    Core one in `dwc/` and the one in `numeric/`): each value is stripped
    of everything but digits, '.' and '-' unless blank, parsed to the
    requested number class, and reported when a non-blank value gives null.
    The parse to the requested class (`NumberUtils.parseNumber`) is the
    parameter `parse`; `Numbers.ParseDecimal` is its Double case. */
module NumericPairs {
  import opened Wrappers
  import opened JavaText
  import opened Diagnostics
  import opened Numbers

  datatype PairOutcome = PairOutcome(first: Option<real>, second: Option<real>, errors: seq<Diagnostic>)

  /** An error for a value that is not blank and could not be parsed. */
  function Unparsed(kind: ErrorKind, original: string, parsed: Option<real>): seq<Diagnostic> {
    if parsed.None? && !IsBlank(original) then [Diagnostic(kind, original)] else []
  }

  /** Both processors' `process`; `kind` is the message each one reports. */
  function ProcessPair(kind: ErrorKind, value1: string, value2: string, parse: string -> Option<real>): (r: PairOutcome)
    ensures r.first == parse(Cleaned(value1)) && r.second == parse(Cleaned(value2))
    ensures r.errors == [] <==> (r.first.Some? || IsBlank(value1)) && (r.second.Some? || IsBlank(value2))
    ensures |r.errors| <= 2
    ensures forall d :: d in r.errors ==> d == Diagnostic(kind, value1) || d == Diagnostic(kind, value2)
    ensures r.first.None? && !IsBlank(value1) ==> r.errors[0] == Diagnostic(kind, value1)
    ensures r.second.None? && !IsBlank(value2) ==> r.errors[|r.errors| - 1] == Diagnostic(kind, value2)
  {
    var first := parse(Cleaned(value1));
    var second := parse(Cleaned(value2));
    PairOutcome(first, second, Unparsed(kind, value1, first) + Unparsed(kind, value2, second))
  }

  /** `validateBean`: the pair is valid when both values were parsed, or
      when the pair is optional and both values are blank. */
  function PairIsValid(isMandatory: bool, value1: string, value2: string, parse: string -> Option<real>): (valid: bool)
    ensures valid <==> ((parse(Cleaned(value1)).Some? && parse(Cleaned(value2)).Some?)
      || (!isMandatory && IsBlank(value1) && IsBlank(value2)))
  {
    var r := ProcessPair(NumericPairUnprocessable, value1, value2, parse);
    (r.first.Some? && r.second.Some?) || (!isMandatory && IsBlank(value1) && IsBlank(value2))
  }

  /** An optional pair with both values missing is valid and reports nothing;
      a mandatory one is not valid when the parser rejects the missing text. */
  lemma MissingPair(kind: ErrorKind, parse: string -> Option<real>)
    requires parse("") == None
    ensures PairIsValid(false, "", "", parse)
    ensures !PairIsValid(true, "", "", parse)
    ensures ProcessPair(kind, "", "", parse) == PairOutcome(None, None, [])
  {
  }

  /** Numeric text followed by a unit: the unit is stripped. */
  lemma {:induction false} CleanedDropsUnit(a: string, b: string)
    requires |a| > 0 && !IsJavaWhitespace(a[0])
    requires forall i :: 0 <= i < |a| ==> IsNumericChar(a[i])
    requires forall i :: 0 <= i < |b| ==> !IsNumericChar(b[i])
    ensures Cleaned(a + b) == a
  {
    assert (a + b)[0] == a[0];
    FilterAppend(a, b, IsNumericChar);
    FilterKeepsAll(a, IsNumericChar);
    FilterDropsAll(b, IsNumericChar);
  }

  lemma Cleaned1() ensures Cleaned("125.8m") == "125.8" {
    CleanedDropsUnit("125.8", "m");
    assert "125.8" + "m" == "125.8m";
  }

  lemma Cleaned2() ensures Cleaned("1147 meters") == "1147" {
    CleanedDropsUnit("1147", " meters");
    assert "1147" + " meters" == "1147 meters";
  }

  lemma Cleaned3() ensures Cleaned("-125.8m") == "-125.8" {
    CleanedDropsUnit("-125.8", "m");
    assert "-125.8" + "m" == "-125.8m";
  }

  lemma Cleaned4() ensures Cleaned("-1147. meters") == "-1147." {
    CleanedDropsUnit("-1147.", " meters");
    assert "-1147." + " meters" == "-1147. meters";
  }

  lemma Cleaned5() ensures Cleaned("meters") == "" && !IsBlank("meters") {
    assert !IsJavaWhitespace("meters"[0]);
    FilterDropsAll("meters", IsNumericChar);
  }

  lemma Cleaned6() ensures Cleaned("125.8.1m") == "125.8.1" && !IsBlank("125.8.1m") {
    CleanedDropsUnit("125.8.1", "m");
    assert "125.8.1" + "m" == "125.8.1m";
  }

  lemma Cleaned7() ensures Cleaned("-1147..meters") == "-1147.." && !IsBlank("-1147..meters") {
    CleanedDropsUnit("-1147..", "meters");
    assert "-1147.." + "meters" == "-1147..meters";
  }

  lemma Value125() ensures DigitsValue("125") == 125 {
    assert "125"[..2] == "12";
    assert "12"[..1] == "1";
    assert "1"[..0] == "";
  }

  lemma Value1147() ensures DigitsValue("1147") == 1147 {
    assert "1147"[..3] == "114";
    assert "114"[..2] == "11";
    assert "11"[..1] == "1";
    assert "1"[..0] == "";
  }

  lemma Parsed1() ensures ParseDecimal("125.8") == Some(125.8) {
    assert FractionValue("125", "8") == 125.8 by {
      Value125();
      assert DigitsValue("8") == 8 by { assert "8"[..0] == ""; }
      assert Pow10(1) == 10;
    }
    FractionParse("125", "8");
    assert "125" + "." + "8" == "125.8";
  }

  lemma Parsed1Negative() ensures ParseDecimal("-125.8") == Some(-125.8) {
    Parsed1();
    NegativeParse("125.8");
    assert "-" + "125.8" == "-125.8";
  }

  lemma Parsed2() ensures ParseDecimal("1147") == Some(1147.0) {
    Value1147();
    DigitsParse("1147");
  }

  lemma Parsed3() ensures ParseDecimal("-1147.") == Some(-1147.0) {
    Value1147();
    FractionParse("1147", "");
    assert "1147" + "." + "" == "1147.";
    NegativeParse("1147.");
    assert "-" + "1147." == "-1147.";
  }

  lemma Parsed4() ensures ParseDecimal("125.8.1") == None {
    TwoDotsRejected("125", "8", "1");
    assert "125" + "." + "8" + "." + "1" == "125.8.1";
  }

  lemma Parsed5() ensures ParseDecimal("1147..") == None {
    TwoDotsRejected("1147", "", "");
    assert "1147" + "." + "" + "." + "" == "1147..";
  }

  lemma Parsed5Negative() ensures ParseDecimal("-1147..") == None {
    Parsed5();
    NegativeParse("1147..");
    assert "-" + "1147.." == "-1147..";
  }

  /** The outcomes the Darwin Core altitude tests expect for well-formed values. */
  lemma AltitudeExamples(kind: ErrorKind)
    ensures ProcessPair(kind, "125.8m", "1147 meters", ParseDecimal) == PairOutcome(Some(125.8), Some(1147.0), [])
    ensures ProcessPair(kind, "-125.8m", "-1147. meters", ParseDecimal) == PairOutcome(Some(-125.8), Some(-1147.0), [])
  {
    Cleaned1(); Cleaned2(); Cleaned3(); Cleaned4();
    Parsed1(); Parsed1Negative(); Parsed2(); Parsed3();
  }

  /** A value the parser rejects, after one it reads. */
  lemma SecondUnparsed(kind: ErrorKind, value1: string, value2: string, parse: string -> Option<real>, x: real)
    requires parse(Cleaned(value1)) == Some(x) && parse(Cleaned(value2)).None? && !IsBlank(value2)
    ensures ProcessPair(kind, value1, value2, parse) == PairOutcome(Some(x), None, [Diagnostic(kind, value2)])
  {
  }

  /** Two values the parser rejects: one error each, in order. */
  lemma BothUnparsed(kind: ErrorKind, value1: string, value2: string, parse: string -> Option<real>)
    requires parse(Cleaned(value1)).None? && !IsBlank(value1) && parse(Cleaned(value2)).None? && !IsBlank(value2)
    ensures ProcessPair(kind, value1, value2, parse)
         == PairOutcome(None, None, [Diagnostic(kind, value1), Diagnostic(kind, value2)])
  {
  }

  /** The outcomes the Darwin Core altitude tests expect for malformed values:
      null, and one error per non-blank value. */
  lemma MalformedAltitudeExamples(kind: ErrorKind)
    ensures ProcessPair(kind, "125.8m", "meters", ParseDecimal)
         == PairOutcome(Some(125.8), None, [Diagnostic(kind, "meters")])
    ensures ProcessPair(kind, "125.8.1m", "-1147..meters", ParseDecimal)
         == PairOutcome(None, None, [Diagnostic(kind, "125.8.1m"), Diagnostic(kind, "-1147..meters")])
  {
    Cleaned1(); Cleaned5(); Parsed1();
    assert ParseDecimal("") == None;
    SecondUnparsed(kind, "125.8m", "meters", ParseDecimal, 125.8);
    Cleaned6(); Parsed4();
    Cleaned7(); Parsed5Negative();
    BothUnparsed(kind, "125.8.1m", "-1147..meters", ParseDecimal);
  }
}

/** `dwc.NumericPairDataProcessor`: fills a caller's array. */
module DwcNumericPair {
  import opened Wrappers
  import opened Diagnostics
  import opened NumericPairs

  /** `process(value1, value2, output, clazz, result)`: writes slots 0 and 1
      and reports each unparseable non-blank value with its literal message. */
  method Process(value1: string, value2: string, output: array<Option<real>>,
                 parse: string -> Option<real>, result: ProcessingResult?)
    requires output.Length >= 2
    modifies output, Frame(result)
    ensures var r := ProcessPair(ValueNotProcessed, value1, value2, parse);
      output[0] == r.first && output[1] == r.second
      && Errors(result) == old(Errors(result)) + (if result == null then [] else r.errors)
    ensures forall i :: 2 <= i < output.Length ==> output[i] == old(output[i])
  {
    var original1 := value1;
    var original2 := value2;
    var v1 := Numbers.Cleaned(value1);
    var v2 := Numbers.Cleaned(value2);
    output[0] := parse(v1);
    output[1] := parse(v2);
    if result != null {
      if output[0].None? && !JavaText.IsBlank(original1) {
        result.AddError(Diagnostic(ValueNotProcessed, original1));
      }
      if output[1].None? && !JavaText.IsBlank(original2) {
        result.AddError(Diagnostic(ValueNotProcessed, original2));
      }
    }
  }
}

/** `dwc.MinMaxDataProcessor`: the same parse, with no error reporting. */
module DwcMinMax {
  import opened Wrappers
  import opened Diagnostics
  import opened NumericPairs

  method Process(min: string, max: string, minMaxOutput: array<Option<real>>, parse: string -> Option<real>)
    requires minMaxOutput.Length >= 2
    modifies minMaxOutput
    ensures var r := ProcessPair(ValueNotProcessed, min, max, parse);
      minMaxOutput[0] == r.first && minMaxOutput[1] == r.second
    ensures forall i :: 2 <= i < minMaxOutput.Length ==> minMaxOutput[i] == old(minMaxOutput[i])
  {
    minMaxOutput[0] := parse(Numbers.Cleaned(min));
    minMaxOutput[1] := parse(Numbers.Cleaned(max));
  }
}

/** `numeric.NumericPairDataProcessor`: returns a fresh array and reports
    with the `numericPair.error.unprocessable` message. */
module NumericPairProcessor {
  import opened Wrappers
  import opened Diagnostics
  import opened NumericPairs

  method Process(value1: string, value2: string, parse: string -> Option<real>, result: ProcessingResult?)
    returns (output: array<Option<real>>)
    modifies Frame(result)
    ensures fresh(output) && output.Length == 2
    ensures var r := ProcessPair(NumericPairUnprocessable, value1, value2, parse);
      output[..] == [r.first, r.second]
      && Errors(result) == old(Errors(result)) + (if result == null then [] else r.errors)
  {
    var v1 := Numbers.Cleaned(value1);
    var v2 := Numbers.Cleaned(value2);
    output := new Option<real>[2](_ => None);
    output[0] := parse(v1);
    output[1] := parse(v2);
    if result != null {
      if output[0].None? && !JavaText.IsBlank(value1) {
        result.AddError(Diagnostic(NumericPairUnprocessable, value1));
      }
      if output[1].None? && !JavaText.IsBlank(value2) {
        result.AddError(Diagnostic(NumericPairUnprocessable, value2));
      }
    }
  }

  /** `validateBean`: runs `process` (so errors are reported) and decides. */
  method ValidateBean(value1: string, value2: string, isMandatory: bool,
                      parse: string -> Option<real>, result: ProcessingResult?)
    returns (valid: bool)
    modifies Frame(result)
    ensures valid == PairIsValid(isMandatory, value1, value2, parse)
    ensures Errors(result) == old(Errors(result))
      + (if result == null then [] else ProcessPair(NumericPairUnprocessable, value1, value2, parse).errors)
  {
    var output := Process(value1, value2, parse, result);
    if output[0].Some? && output[1].Some? {
      return true;
    }
    if !isMandatory && JavaText.IsBlank(value1) && JavaText.IsBlank(value2) {
      return true;
    }
    return false;
  }
}
