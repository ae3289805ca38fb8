/** The error collector handed to every processor (`ProcessingResult`) and
    the diagnostics the processors append to it. A diagnostic is a tag for
    the localized message the source builds, plus the text it is about. */
module Diagnostics {
  import opened JavaText

  datatype ErrorKind =
    | DateVague | DateUnprocessable | DateRomanNumeralUnprocessable
    | DmsNoCardinalDirection | DmsPatternDoesntMatch | DmsDecimalMinute | DmsUnprocessable
    | PairNoCardinalDirection | PairNoLatitude | PairNoValidCoordinate
    | LatLongOutOfBounds | ValueOutOfBound | ValueNotProcessed | NumericPairUnprocessable
    | IntervalNonSymmetric | DateNonSymmetric
    | NoMatchingContinent

  /** An error about a piece of text, one about a number (the messages
      that print a value truncated to an int), or one about a value outside
      its bounds (the message prints the value and both bounds). */
  datatype Diagnostic =
    | Diagnostic(kind: ErrorKind, subject: string)
    | ValueDiagnostic(kind: ErrorKind, value: int)
    | BoundsDiagnostic(kind: ErrorKind, number: real, min: real, max: real)

  /** How a processor call ends: normally, or with a NullPointerException
      escaping it. */
  datatype Completion = Returned | NullPointerThrown

  /** The message key (or, for messages the source writes literally, a
      short name for it). */
  function Key(k: ErrorKind): string {
    match k
    case DateVague => "date.error.vagueDate"
    case DateUnprocessable => "date.error.unprocessable"
    case DateRomanNumeralUnprocessable => "date.error.romanNumeralUnprocessable"
    case DmsNoCardinalDirection => "dms.error.noCardinalDirection"
    case DmsPatternDoesntMatch => "dms.error.patternDoesntMatch"
    case DmsDecimalMinute => "dms.error.decimalMinuteError"
    case DmsUnprocessable => "dms.error.unprocessable"
    case PairNoCardinalDirection => "coordinatePair.error.noCardinalDirection"
    case PairNoLatitude => "coordinatePair.error.noLatitude"
    case PairNoValidCoordinate => "coordinatePair.error.noValidCoordinate"
    case LatLongOutOfBounds => "decimalLatLong.error.outOfBounds"
    case ValueOutOfBound => "value.outOfBound"
    case ValueNotProcessed => "value.notProcessed"
    case NumericPairUnprocessable => "numericPair.error.unprocessable"
    case IntervalNonSymmetric => "dateInterval.error.nonSymmetric"
    case DateNonSymmetric => "date.error.nonSymmetric"
    case NoMatchingContinent => "continent.noMatch"
  }

  function Render(d: Diagnostic): string {
    match d
    case Diagnostic(k, subject) => Key(k) + " [" + subject + "]"
    case ValueDiagnostic(k, v) => Key(k) + " [" + IntToString(v) + "]"
    case BoundsDiagnostic(k, _, _, _) => Key(k)
  }

  function Rendered(ds: seq<Diagnostic>): (r: seq<string>)
    ensures |r| == |ds| && forall i :: 0 <= i < |ds| ==> r[i] == Render(ds[i])
  {
    if |ds| == 0 then []
    else
      var init := Rendered(ds[..|ds| - 1]);
      RenderedLast(ds, init);
      init + [Render(ds[|ds| - 1])]
  }

  lemma RenderedLast(ds: seq<Diagnostic>, init: seq<string>)
    requires |ds| > 0 && |init| == |ds| - 1
    requires forall i :: 0 <= i < |init| ==> init[i] == Render(ds[..|ds| - 1][i])
    ensures forall i :: 0 <= i < |ds| ==> (init + [Render(ds[|ds| - 1])])[i] == Render(ds[i])
  {
    forall i | 0 <= i < |ds| ensures (init + [Render(ds[|ds| - 1])])[i] == Render(ds[i]) {
      if i < |init| {
        assert ds[..|ds| - 1][i] == ds[i];
      }
    }
  }

  /** `getErrorString`: the messages joined by ",". */
  function ErrorString(ds: seq<Diagnostic>): string {
    Join(Rendered(ds), ",")
  }

  /** Appending an error appends its message after a comma. */
  lemma {:induction false} ErrorStringAppend(ds: seq<Diagnostic>, d: Diagnostic)
    ensures ErrorString(ds + [d]) == if ds == [] then Render(d) else ErrorString(ds) + "," + Render(d)
  {
    assert Rendered(ds + [d])[..|ds|] == Rendered(ds);
  }

  /** The mutable list behind a `ProcessingResult`. */
  class ErrorList {
    var items: seq<Diagnostic>

    constructor()
      ensures items == []
    {
      items := [];
    }
  }

  /** `ProcessingResult`: collects the errors of one or more processing
      calls. The list object is created once and never replaced. */
  class ProcessingResult {
    const synchronizedList: bool
    const errorList: ErrorList

    /** `new ProcessingResult(synchronizedList)`; the no-argument constructor
        is this one with `true`. */
    constructor(synchronizedList: bool)
      ensures this.synchronizedList == synchronizedList
      ensures fresh(errorList) && errorList.items == []
    {
      this.synchronizedList := synchronizedList;
      errorList := new ErrorList();
    }

    method AddError(d: Diagnostic)
      modifies errorList
      ensures errorList.items == old(errorList.items) + [d]
    {
      errorList.items := errorList.items + [d];
    }

    /** Returns the live list itself, not a copy. */
    method GetErrorList() returns (l: ErrorList)
      ensures l == errorList
    {
      l := errorList;
    }

    method GetErrorString() returns (s: string)
      ensures s == ErrorString(errorList.items)
    {
      s := Join(Rendered(errorList.items), ",");
    }

    method Clear()
      modifies errorList
      ensures errorList.items == []
    {
      errorList.items := [];
    }
  }

  /** What a processor may change when it is given `result` (possibly null). */
  function Frame(result: ProcessingResult?): set<object> {
    if result == null then {} else {result.errorList}
  }

  /** The errors collected so far; none without a collector. */
  function Errors(result: ProcessingResult?): seq<Diagnostic>
    reads Frame(result)
  {
    if result == null then [] else result.errorList.items
  }

  /** Appends `ds`, in order, when there is a collector; the processors'
      `if (result != null) result.addError(...)`. */
  method Report(result: ProcessingResult?, ds: seq<Diagnostic>)
    modifies Frame(result)
    ensures Errors(result) == old(Errors(result)) + (if result == null then [] else ds)
  {
    if result != null {
      var i := 0;
      while i < |ds|
        invariant 0 <= i <= |ds|
        invariant result.errorList.items == old(result.errorList.items) + ds[..i]
      {
        result.AddError(ds[i]);
        i := i + 1;
      }
      assert ds[..i] == ds;
    }
  }

  /** A caller holding the list returned by `GetErrorList` sees the errors
      added afterwards, and sees them gone after `clear`: the list is
      shared, not copied. */
  method SharedListExample(d: Diagnostic) returns (seen: seq<Diagnostic>, afterClear: seq<Diagnostic>)
    ensures seen == [d] && afterClear == []
  {
    var r := new ProcessingResult(true);
    var l := r.GetErrorList();
    r.AddError(d);
    seen := l.items;
    r.Clear();
    afterClear := l.items;
  }
}
