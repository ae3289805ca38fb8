/** `AbstractDataProcessor`: what a processor writes in place of a value it
    could not process. */
module ErrorHandling {
  import opened Wrappers

  datatype ErrorHandlingMode = UseNull | UseEmpty | UseOriginal

  /** `getValueOnError`: the original value, null or "" according to the
      mode; it never produces any other text. */
  function ValueOnError(mode: ErrorHandlingMode, original: Option<string>): (r: Option<string>)
    ensures r == original || r == None || r == Some("")
    ensures r.Some? && r != Some("") ==> mode == UseOriginal && r == original
    ensures mode != UseOriginal ==> r != original || original == None || original == Some("")
    ensures mode == UseOriginal ==> r == original
    ensures mode == UseNull ==> r == None
    ensures mode == UseEmpty ==> r == Some("")
  {
    match mode
    case UseOriginal => original
    case UseNull => None
    case UseEmpty => Some("")
  }

  /** On a value that is neither null nor empty, the three modes give three
      different results, so the result tells which mode was in force. */
  lemma ModeRecoverable(original: string, m1: ErrorHandlingMode, m2: ErrorHandlingMode)
    requires original != ""
    ensures ValueOnError(m1, Some(original)) == ValueOnError(m2, Some(original)) <==> m1 == m2
  {
  }
}
