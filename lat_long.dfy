/** `LatLongProcessorHelper.ensureLatLongBoundaries`: decimal latitude must
    lie in [-90, 90] and longitude in [-180, 180], inclusive, compared as
    doubles; a coordinate is kept only when both halves survive. */
module LatLongBounds {
  import opened Wrappers
  import opened Diagnostics

  const MinLatitude: real := -90.0
  const MaxLatitude: real := 90.0
  const MinLongitude: real := -180.0
  const MaxLongitude: real := 180.0

  datatype BoundedPair = BoundedPair(latitude: Option<real>, longitude: Option<real>, errors: seq<Diagnostic>)

  predicate OutOfRange(v: Option<real>, min: real, max: real) {
    v.Some? && (v.value > max || v.value < min)
  }

  function CountIf(b: bool): nat { if b then 1 else 0 }

  /** The message names the value and the bounds it missed. */
  function LatitudeOutOfBounds(v: real): Diagnostic {
    BoundsDiagnostic(LatLongOutOfBounds, v, MinLatitude, MaxLatitude)
  }

  function LongitudeOutOfBounds(v: real): Diagnostic {
    BoundsDiagnostic(LatLongOutOfBounds, v, MinLongitude, MaxLongitude)
  }

  /** The checked pair: both halves or neither, each surviving half within its
      inclusive bounds and unchanged, one error per half that was out of range. */
  function Bounded(latitude: Option<real>, longitude: Option<real>): (r: BoundedPair)
    ensures r.latitude.Some? <==> r.longitude.Some?
    ensures r.latitude.Some? <==> (latitude.Some? && longitude.Some?
                                   && MinLatitude <= latitude.value <= MaxLatitude
                                   && MinLongitude <= longitude.value <= MaxLongitude)
    ensures r.latitude.Some? ==> r.latitude == latitude && r.longitude == longitude
    ensures |r.errors| == CountIf(OutOfRange(latitude, MinLatitude, MaxLatitude))
                        + CountIf(OutOfRange(longitude, MinLongitude, MaxLongitude))
    ensures forall d :: d in r.errors ==> d.kind == LatLongOutOfBounds
    ensures r.errors ==
      (if OutOfRange(latitude, MinLatitude, MaxLatitude) then [LatitudeOutOfBounds(latitude.value)] else [])
      + (if OutOfRange(longitude, MinLongitude, MaxLongitude) then [LongitudeOutOfBounds(longitude.value)] else [])
  {
    var latOut := OutOfRange(latitude, MinLatitude, MaxLatitude);
    var lonOut := OutOfRange(longitude, MinLongitude, MaxLongitude);
    var errors := (if latOut then [LatitudeOutOfBounds(latitude.value)] else [])
                + (if lonOut then [LongitudeOutOfBounds(longitude.value)] else []);
    var lat := if latOut then None else latitude;
    var lon := if lonOut then None else longitude;
    if lat.None? || lon.None? then BoundedPair(None, None, errors) else BoundedPair(lat, lon, errors)
  }

  /** Checking a checked pair again changes nothing and reports nothing. */
  lemma BoundedIdempotent(latitude: Option<real>, longitude: Option<real>)
    ensures var r := Bounded(latitude, longitude);
      Bounded(r.latitude, r.longitude) == BoundedPair(r.latitude, r.longitude, [])
  {
  }

  /** `ensureLatLongBoundaries(output, result)`: works on slots 0 and 1 only. */
  method EnsureLatLongBoundaries(output: array<Option<real>>, result: ProcessingResult?)
    requires output.Length >= 2
    modifies output, Frame(result)
    ensures var r := Bounded(old(output[0]), old(output[1]));
      output[0] == r.latitude && output[1] == r.longitude
      && Errors(result) == old(Errors(result)) + (if result == null then [] else r.errors)
    ensures forall i :: 2 <= i < output.Length ==> output[i] == old(output[i])
  {
    if output[0].Some? {
      if output[0].value > MaxLatitude || output[0].value < MinLatitude {
        if result != null {
          result.AddError(LatitudeOutOfBounds(output[0].value));
        }
        output[0] := None;
      }
    }
    if output[1].Some? {
      if output[1].value > MaxLongitude || output[1].value < MinLongitude {
        if result != null {
          result.AddError(LongitudeOutOfBounds(output[1].value));
        }
        output[1] := None;
      }
    }
    if output[0].None? || output[1].None? {
      output[0] := None;
      output[1] := None;
    }
  }
}

/** `geography.DecimalLatLongProcessor`: the Darwin Core numeric pair parse,
    then bounds checked on the value truncated to an int, then the joint
    rule that a lone half is dropped. */
module DecimalLatLong {
  import opened Wrappers
  import opened JavaText
  import opened Diagnostics
  import opened Numbers
  import opened NumericPairs
  import LatLongBounds
  import DwcNumericPair

  const MaxLatitude: int := 90
  const MaxLongitude: int := 180

  /** The message names the truncated value. */
  function OutOfBound(v: real): Diagnostic {
    ValueDiagnostic(ValueOutOfBound, IntValue(v))
  }

  /** The bounds step alone, on parsed values. Because the check is made on
      the truncated value, anything strictly between -91 and 91 passes as a
      latitude (and strictly between -181 and 181 as a longitude). */
  function TruncBounded(latitude: Option<real>, longitude: Option<real>): (r: LatLongBounds.BoundedPair)
    ensures r.latitude.Some? <==> r.longitude.Some?
    ensures r.latitude.Some? <==> (latitude.Some? && longitude.Some?
                                   && -91.0 < latitude.value < 91.0 && -181.0 < longitude.value < 181.0)
    ensures r.latitude.Some? ==> r.latitude == latitude && r.longitude == longitude
    ensures r.errors == (if latitude.Some? && OutsideTruncated(latitude.value, MaxLatitude) then [OutOfBound(latitude.value)] else [])
                      + (if longitude.Some? && OutsideTruncated(longitude.value, MaxLongitude) then [OutOfBound(longitude.value)] else [])
  {
    var latOut := latitude.Some? && (IntValue(latitude.value) > MaxLatitude || IntValue(latitude.value) < -MaxLatitude);
    var lonOut := longitude.Some? && (IntValue(longitude.value) > MaxLongitude || IntValue(longitude.value) < -MaxLongitude);
    var errors := (if latOut then [OutOfBound(latitude.value)] else [])
                + (if lonOut then [OutOfBound(longitude.value)] else []);
    var lat := if latOut then None else latitude;
    var lon := if lonOut then None else longitude;
    if lat.None? || lon.None? then LatLongBounds.BoundedPair(None, None, errors)
    else LatLongBounds.BoundedPair(lat, lon, errors)
  }

  /** The truncating check is looser than the helper's: a latitude of 90.5 is
      kept here and dropped by `ensureLatLongBoundaries`. */
  lemma TruncationIsLooser()
    ensures TruncBounded(Some(90.5), Some(0.0)).latitude == Some(90.5)
    ensures LatLongBounds.Bounded(Some(90.5), Some(0.0)).latitude == None
  {
  }

  /** Whatever the helper keeps, this processor keeps too. */
  lemma HelperKeepsLess(latitude: Option<real>, longitude: Option<real>)
    ensures LatLongBounds.Bounded(latitude, longitude).latitude.Some?
        ==> TruncBounded(latitude, longitude) == LatLongBounds.BoundedPair(latitude, longitude, [])
  {
  }

  /** `process(value1, value2, output, clazz, result)`. */
  method Process(value1: string, value2: string, output: array<Option<real>>,
                 parse: string -> Option<real>, result: ProcessingResult?)
    requires output.Length >= 2
    modifies output, Frame(result)
    ensures var p := ProcessPair(ValueNotProcessed, value1, value2, parse);
      var r := TruncBounded(p.first, p.second);
      output[0] == r.latitude && output[1] == r.longitude
      && Errors(result) == old(Errors(result)) + (if result == null then [] else p.errors + r.errors)
    ensures forall i :: 2 <= i < output.Length ==> output[i] == old(output[i])
  {
    ghost var before := Errors(result);
    DwcNumericPair.Process(value1, value2, output, parse, result);
    ghost var p := ProcessPair(ValueNotProcessed, value1, value2, parse);
    assert output[0] == p.first && output[1] == p.second;
    assert Errors(result) == before + (if result == null then [] else p.errors);
    CheckBounds(output, result);
  }

  /** Lines 46-70 of `process`: the checks after the parse. */
  method CheckBounds(output: array<Option<real>>, result: ProcessingResult?)
    requires output.Length >= 2
    modifies output, Frame(result)
    ensures var r := TruncBounded(old(output[0]), old(output[1]));
      output[0] == r.latitude && output[1] == r.longitude
      && Errors(result) == old(Errors(result)) + (if result == null then [] else r.errors)
    ensures forall i :: 2 <= i < output.Length ==> output[i] == old(output[i])
  {
    if output[0].Some? {
      if IntValue(output[0].value) > MaxLatitude || IntValue(output[0].value) < -MaxLatitude {
        if result != null {
          result.AddError(OutOfBound(output[0].value));
        }
        output[0] := None;
      }
    }
    if output[1].Some? {
      if IntValue(output[1].value) > MaxLongitude || IntValue(output[1].value) < -MaxLongitude {
        if result != null {
          result.AddError(OutOfBound(output[1].value));
        }
        output[1] := None;
      }
    }
    if output[0].None? || output[1].None? {
      output[0] := None;
      output[1] := None;
    }
  }
}

/** `dwc.LatLongDataProcessor`: the Darwin Core numeric pair parse, then a
    truncated bounds check on each half separately (no joint rule). */
module DwcLatLongData {
  import opened Wrappers
  import opened JavaText
  import opened Diagnostics
  import opened Numbers
  import opened NumericPairs
  import DwcNumericPair

  const MaxLatitude: int := 90
  const MaxLongitude: int := 180

  datatype CheckedPair = CheckedPair(latitude: Option<real>, longitude: Option<real>,
                                     errors: seq<Diagnostic>, completion: Completion)

  function OutOfBound(v: real): Diagnostic {
    ValueDiagnostic(ValueOutOfBound, IntValue(v))
  }

  predicate Outside(v: Option<real>, bound: int)
    requires 0 <= bound < IntMax
  {
    v.Some? && OutsideTruncated(v.value, bound)
  }

  /** The bounds step as written: the latitude slot is set to null before its
      message is built from it, and the longitude message is built from the
      latitude slot. With a collector, an out-of-range latitude therefore
      ends in a NullPointerException, and so does an out-of-range longitude
      when the latitude slot is null. */
  function AsWritten(latitude: Option<real>, longitude: Option<real>, collecting: bool): CheckedPair {
    var latOut := Outside(latitude, MaxLatitude);
    var lat := if latOut then None else latitude;
    if latOut && collecting then CheckedPair(lat, longitude, [], NullPointerThrown)
    else
      var lonOut := Outside(longitude, MaxLongitude);
      var lon := if lonOut then None else longitude;
      if lonOut && collecting then
        if lat.None? then CheckedPair(lat, lon, [], NullPointerThrown)
        else CheckedPair(lat, lon, [OutOfBound(lat.value)], Returned)
      else CheckedPair(lat, lon, [], Returned)
  }

  /** With a collector, any out-of-range latitude makes the processor throw. */
  lemma AsWrittenThrowsOnLatitude(latitude: real, longitude: Option<real>)
    requires latitude >= 91.0 || latitude <= -91.0
    ensures AsWritten(Some(latitude), longitude, true).completion == NullPointerThrown
  {
  }

  /** With a collector, an out-of-range longitude beside a valid latitude is
      reported under the latitude's value. */
  lemma AsWrittenReportsWrongValue()
    ensures AsWritten(Some(45.0), Some(200.0), true).errors == [OutOfBound(45.0)]
    ensures AsWritten(Some(45.0), Some(200.0), true).errors != [OutOfBound(200.0)]
  {
    assert IntValue(45.0) == 45 && IntValue(200.0) == 200;
  }

  /** The bounds step as evidently intended: each half out of range is set to
      null and reported with its own value; nothing throws. */
  function Checked(latitude: Option<real>, longitude: Option<real>): (r: CheckedPair)
    ensures r.completion == Returned
    ensures r.latitude.Some? <==> latitude.Some? && -91.0 < latitude.value < 91.0
    ensures r.longitude.Some? <==> longitude.Some? && -181.0 < longitude.value < 181.0
    ensures r.latitude.Some? ==> r.latitude == latitude
    ensures r.longitude.Some? ==> r.longitude == longitude
    ensures r.errors == (if r.latitude.None? && latitude.Some? then [OutOfBound(latitude.value)] else [])
                      + (if r.longitude.None? && longitude.Some? then [OutOfBound(longitude.value)] else [])
  {
    var latOut := Outside(latitude, MaxLatitude);
    var lonOut := Outside(longitude, MaxLongitude);
    CheckedPair(if latOut then None else latitude, if lonOut then None else longitude,
                (if latOut then [OutOfBound(latitude.value)] else [])
                + (if lonOut then [OutOfBound(longitude.value)] else []),
                Returned)
  }

  /** Wherever the code as written returns normally, it agrees with the
      corrected step on the values it leaves; it differs only in messages. */
  lemma AsWrittenAgreesOnValues(latitude: Option<real>, longitude: Option<real>, collecting: bool)
    ensures var a := AsWritten(latitude, longitude, collecting);
      a.completion == Returned ==> (a.latitude == Checked(latitude, longitude).latitude
                                    && a.longitude == Checked(latitude, longitude).longitude)
    ensures !collecting ==> (AsWritten(latitude, longitude, false)
                             == Checked(latitude, longitude).(errors := []))
  {
  }

  /** `process` as written; `NullPointerThrown` is the exception escaping. */
  method ProcessAsWritten(value1: string, value2: string, output: array<Option<real>>,
                          parse: string -> Option<real>, result: ProcessingResult?)
    returns (c: Completion)
    requires output.Length >= 2
    modifies output, Frame(result)
    ensures var p := ProcessPair(ValueNotProcessed, value1, value2, parse);
      var r := AsWritten(p.first, p.second, result != null);
      c == r.completion && output[0] == r.latitude && output[1] == r.longitude
      && Errors(result) == old(Errors(result)) + (if result == null then [] else p.errors + r.errors)
    ensures forall i :: 2 <= i < output.Length ==> output[i] == old(output[i])
  {
    DwcNumericPair.Process(value1, value2, output, parse, result);
    if output[0].Some? {
      if IntValue(output[0].value) > MaxLatitude || IntValue(output[0].value) < -MaxLatitude {
        output[0] := None;
        if result != null {
          // output[0].intValue() on the slot just set to null
          return NullPointerThrown;
        }
      }
    }
    if output[1].Some? {
      if IntValue(output[1].value) > MaxLongitude || IntValue(output[1].value) < -MaxLongitude {
        output[1] := None;
        if result != null {
          if output[0].None? {
            return NullPointerThrown;
          }
          result.AddError(OutOfBound(output[0].value));
        }
      }
    }
    return Returned;
  }

  /** `process` as evidently intended. */
  method Process(value1: string, value2: string, output: array<Option<real>>,
                 parse: string -> Option<real>, result: ProcessingResult?)
    requires output.Length >= 2
    modifies output, Frame(result)
    ensures var p := ProcessPair(ValueNotProcessed, value1, value2, parse);
      var r := Checked(p.first, p.second);
      output[0] == r.latitude && output[1] == r.longitude
      && Errors(result) == old(Errors(result)) + (if result == null then [] else p.errors + r.errors)
    ensures forall i :: 2 <= i < output.Length ==> output[i] == old(output[i])
  {
    DwcNumericPair.Process(value1, value2, output, parse, result);
    CheckBounds(output, result);
  }

  /** The checks after the parse, as evidently intended. */
  method CheckBounds(output: array<Option<real>>, result: ProcessingResult?)
    requires output.Length >= 2
    modifies output, Frame(result)
    ensures var r := Checked(old(output[0]), old(output[1]));
      output[0] == r.latitude && output[1] == r.longitude
      && Errors(result) == old(Errors(result)) + (if result == null then [] else r.errors)
    ensures forall i :: 2 <= i < output.Length ==> output[i] == old(output[i])
  {
    if output[0].Some? {
      var v := output[0].value;
      if IntValue(v) > MaxLatitude || IntValue(v) < -MaxLatitude {
        output[0] := None;
        if result != null {
          result.AddError(OutOfBound(v));
        }
      }
    }
    if output[1].Some? {
      var v := output[1].value;
      if IntValue(v) > MaxLongitude || IntValue(v) < -MaxLongitude {
        output[1] := None;
        if result != null {
          result.AddError(OutOfBound(v));
        }
      }
    }
  }
}
