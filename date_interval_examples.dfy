/** The intervals of `DateIntervalProcessorTest`, worked through the model. */
module DateIntervalExamples {
  import opened Wrappers
  import opened JavaText
  import opened Diagnostics
  import opened DateInterval

  /** A date written `y-m-d` with separator-free fields has two dashes as
      its punctuation. */
  lemma DashedDate(y: string, m: string, d: string)
    requires forall i :: 0 <= i < |y| ==> !IsIntervalSeparator(y[i])
    requires forall i :: 0 <= i < |m| ==> !IsIntervalSeparator(m[i])
    requires forall i :: 0 <= i < |d| ==> !IsIntervalSeparator(d[i])
    ensures Separators(y + "-" + m + "-" + d) == "--"
  {
    var dash := Filter("-", IsIntervalSeparator);
    assert dash == "-";
    assert Filter(y + "-", IsIntervalSeparator) == "-" by {
      FilterAppend(y, "-", IsIntervalSeparator);
      FilterDropsAll(y, IsIntervalSeparator);
    }
    assert Filter(y + "-" + m, IsIntervalSeparator) == "-" by {
      FilterAppend(y + "-", m, IsIntervalSeparator);
      FilterDropsAll(m, IsIntervalSeparator);
    }
    assert Filter(y + "-" + m + "-", IsIntervalSeparator) == "--" by {
      FilterAppend(y + "-" + m, "-", IsIntervalSeparator);
    }
    FilterAppend(y + "-" + m + "-", d, IsIntervalSeparator);
    FilterDropsAll(d, IsIntervalSeparator);
  }

  /** "1977-08-16/1977-08-20" is cut at the slash into its two dates. */
  lemma SlashInterval()
    ensures SplitInterval("1977-08-16/1977-08-20") == Interval(Some("1977-08-16"), Some("1977-08-20"), [])
  {
    DashedDate("1977", "08", "16");
    DashedDate("1977", "08", "20");
    assert "1977" + "-" + "08" + "-" + "16" == "1977-08-16";
    assert "1977" + "-" + "08" + "-" + "20" == "1977-08-20";
    assert "1977-08-16/1977-08-20" == "1977-08-16" + ['/'] + "1977-08-20";
    JoinSplits("1977-08-16", '/', "1977-08-20");
    TrimFixedEnds("1977-08-16");
    TrimFixedEnds("1977-08-20");
  }

  /** It is valid whether the field is mandatory or not. */
  lemma SlashIntervalValid(isMandatory: bool)
    ensures IntervalIsValid("1977-08-16/1977-08-20", isMandatory)
  {
    SlashInterval();
  }

  /** "1977-08-16,20" has two dashes and no middle separator: no dates, and
      the date-level error. */
  lemma CommaInterval()
    ensures SplitInterval("1977-08-16,20") == Interval(None, None, [Diagnostic(DateNonSymmetric, "1977-08-16,20")])
  {
    var s := "1977-08-16,20";
    DashedDate("1977", "08", "16,20");
    assert "1977" + "-" + "08" + "-" + "16,20" == s;
    assert !IsBlank(s) by { assert s[0] == '1'; }
    TrimFixedEnds(s);
  }

  /** ... so it is invalid even when optional. */
  lemma CommaIntervalInvalid(isMandatory: bool)
    ensures !IntervalIsValid("1977-08-16,20", isMandatory)
  {
    CommaInterval();
  }

  /** As written, with a collector, "1977-08-16,20" makes `process` throw,
      so the test's `validateBean` call ends in a NullPointerException
      instead of returning false; without a collector it returns two
      nulls. */
  lemma CommaIntervalThrowsAsWritten()
    ensures AsWritten("1977-08-16,20", true).completion == NullPointerThrown
    ensures AsWritten("1977-08-16,20", false) == Attempt(Interval(None, None, []), Returned)
  {
    CommaInterval();
    AsWrittenAgreesOnDates("1977-08-16,20", false);
  }
}
