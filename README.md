# narwhal-processor core, in Dafny

A model of the data processors of narwhal-processor (package
`net.canadensys.processor`), which turn free-text biodiversity occurrence
fields into structured values: event dates and date intervals, decimal and
degree-minute-second coordinates, coordinate pairs, numeric pairs such as
altitude ranges, person names and a country's continent. Every processor
returns its result and appends human-readable errors to an optional
`ProcessingResult`; the `processBean`/`validateBean` entry points decide what
to write and whether a value is valid from what `process` returns.

The project is organised by the Java classes it models:

- `wrappers.dfy` (`Wrappers`): `Option`.
- `java_text.dfy` (`JavaText`): the Java and commons-lang text operations the
  processors rely on (`\d`, `\s`, `Character.isWhitespace`,
  `StringUtils.isBlank`, `String.trim`, `split`, `replace`, `Integer.toString`).
- `diagnostics.dfy` (`Diagnostics`): errors as tags with their subject, and
  `ProcessingResult` as a class over a shared, append-only error list.
- `error_handling.dfy` (`ErrorHandling`): `AbstractDataProcessor.getValueOnError`.
- `numbers.dfy` (`Numbers`): the "keep digits, `.` and `-`" cleaning, a
  decimal parser (`ParseDecimal`) for the text `NumberUtils.parseNumber`
  reads, and `intValue()`.
- `numeric_pairs.dfy`: `NumericPairDataProcessor` (numeric and dwc),
  `MinMaxDataProcessor`.
- `lat_long.dfy`: `LatLongProcessorHelper`, `DecimalLatLongProcessor` and
  `dwc.LatLongDataProcessor`.
- `coordinate_pair.dfy`: `CoordinatePairProcessor`, with its two regular
  expressions written as deterministic scanners that make Java's backtracking
  choices.
- `dms.dfy` (`DegreeMinute`): `DegreeMinuteToDecimalProcessor`.
- `date_interval.dfy`: `DateIntervalProcessor`.
- `date_formats.dfy`: the date patterns `DateProcessor` builds (`d-M-yyyy`,
  `yyyy[-M[-d]]`, `MMM-yyyy`, ...) as field-by-field parsers with the date
  library's default (smart) resolution.
- `date_processor.dfy` (`DateProcessing`): `DateProcessor`, its cascade of
  attempts, the ambiguity rule and the Roman-numeral month.
- `name_patterns.dfy`, `person_name.dfy`: `PersonNameProcessor` and the two
  regular expressions it uses.
- `country_continent.dfy`: `CountryContinentProcessor`.
- the `*_examples.dfy` files: the behaviour the project's tests describe, on
  concrete values.

Objects the source updates in place are classes (`ProcessingResult`,
`DateProcessor`, `CountryContinentProcessor`); their methods are proved
against the functions that specify them, and the properties are lemmas about
those functions. Foreign code is passed in as function parameters:
`NumberUtils.parseNumber` in the numeric-pair processors, `RomanNumeral.toInt`,
`Continent.fromCode` and `getTitle`, and the locales' month names; in
`DegreeMinuteToDecimalProcessor` `parseNumber` is `ParseDecimal`.

## Model

| member | source | states |
|---|---|---|
| JavaText.TrimStart | src/main/java/net/canadensys/processor/person/PersonNameProcessor.java:162 | `trim` drops a leading run of characters up to U+0020 and keeps the rest, which does not start with one |
| JavaText.TrimEnd | src/main/java/net/canadensys/processor/person/PersonNameProcessor.java:162 | `trim` drops a trailing run of characters up to U+0020 and keeps the rest, which does not end with one |
| JavaText.TrimSlice | src/main/java/net/canadensys/processor/datetime/DateIntervalProcessor.java:135 | the trimmed text is a slice of the text with only such characters cut at either end |
| JavaText.TrimEnds | src/main/java/net/canadensys/processor/person/PersonNameProcessor.java:162-163 | the trimmed text neither starts nor ends with a character up to U+0020 |
| JavaText.TrimIdempotent | src/main/java/net/canadensys/processor/datetime/DateIntervalProcessor.java:135 | trimming twice is trimming once |
| JavaText.Filter | src/main/java/net/canadensys/processor/person/PersonNameProcessor.java:86 | deleting a character class keeps only the characters outside it, and never lengthens the text |
| JavaText.FilterIdempotent | src/main/java/net/canadensys/processor/person/PersonNameProcessor.java:86 | deleting a character class twice is deleting it once |
| JavaText.ReplaceAllOnce | src/main/java/net/canadensys/processor/datetime/DateProcessor.java:367 | `replace` of one occurrence with none of the target's first character around it changes nothing else |
| JavaText.IntToString | src/main/java/net/canadensys/processor/datetime/DateProcessor.java:367 | `Integer.toString` writes the value's decimal digits, with a '-' in front for a negative value |
| JavaText.SplitOnJoin | src/main/java/net/canadensys/processor/person/PersonNameProcessor.java:101-102 | names without the separator, joined by it, split back into the same names |
| JavaText.DropTrailingEmpty | src/main/java/net/canadensys/processor/geography/CountryContinentProcessor.java:73 | `split` drops only the trailing empty strings, and the last string kept is not empty |
| JavaText.SplitChar | src/main/java/net/canadensys/processor/geography/CountryContinentProcessor.java:73 | `split` at a character gives the pieces between its occurrences, with only trailing empty pieces dropped |
| JavaText.SplitCharPlain | src/main/java/net/canadensys/processor/geography/CountryContinentProcessor.java:73 | a text without the separator comes back whole |
| JavaText.SplitCharPair | src/main/java/net/canadensys/processor/geography/CountryContinentProcessor.java:73 | two pieces joined by the separator, the second not empty, come back apart |
| JavaText.SplitCharTrailing | src/main/java/net/canadensys/processor/geography/CountryContinentProcessor.java:73 | a trailing separator yields no second piece |
| Diagnostics.Rendered | src/main/java/net/canadensys/processor/ProcessingResult.java:54-65 | one rendered message per collected error, in collection order |
| Diagnostics.ErrorStringAppend | src/main/java/net/canadensys/processor/ProcessingResult.java:54-65 | adding an error extends the joined string by "," and its message; a first error stands alone |
| Diagnostics.ProcessingResult.constructor | src/main/java/net/canadensys/processor/ProcessingResult.java:20-38 | a new collector keeps its synchronisation flag and holds a fresh, empty list |
| Diagnostics.ProcessingResult.AddError | src/main/java/net/canadensys/processor/ProcessingResult.java:40-42 | the error goes at the end of the list; earlier errors are kept in order |
| Diagnostics.ProcessingResult.GetErrorList | src/main/java/net/canadensys/processor/ProcessingResult.java:50-52 | the live list object itself is returned, so later additions show through it |
| Diagnostics.SharedListExample | src/main/java/net/canadensys/processor/ProcessingResult.java:40-72 | a list obtained from `getErrorList` before an `addError` holds that error afterwards, and is empty after `clear` |
| Diagnostics.ProcessingResult.GetErrorString | src/main/java/net/canadensys/processor/ProcessingResult.java:54-65 | the messages of all errors joined by "," |
| Diagnostics.ProcessingResult.Clear | src/main/java/net/canadensys/processor/ProcessingResult.java:70-72 | the list is emptied |
| Diagnostics.Report | src/main/java/net/canadensys/processor/numeric/NumericPairDataProcessor.java:194-202 | with a collector the errors are appended in order; with none nothing changes |
| ErrorHandling.ValueOnError | src/main/java/net/canadensys/processor/AbstractDataProcessor.java:35-46 | `USE_ORIGINAL` gives back the original text, `USE_NULL` gives null and `USE_EMPTY` gives the empty string; only `USE_ORIGINAL` yields the original |
| ErrorHandling.ModeRecoverable | src/main/java/net/canadensys/processor/AbstractDataProcessor.java:35-46 | on a non-empty original, two modes give the same fallback iff they are the same mode |
| Numbers.CleanedIsNumeric | src/main/java/net/canadensys/processor/dwc/NumericPairDataProcessor.java:76-81 | a stripped non-blank value holds only digits, '.' and '-', and a value already made of them is untouched |
| Numbers.CleanedIdempotent | src/main/java/net/canadensys/processor/dwc/NumericPairDataProcessor.java:76-81 | stripping twice is stripping once |
| Numbers.ParseDecimal | src/test/java/net/canadensys/processor/dwc/NumericPairDataProcessorTest.java:22-60 | the double parse accepts exactly an optional '-' and unsigned decimal text, and the value's sign follows the '-' |
| Numbers.DigitsParse | src/test/java/net/canadensys/processor/dwc/NumericPairDataProcessorTest.java:22-29 | digits alone parse to their decimal value |
| Numbers.FractionParse | src/test/java/net/canadensys/processor/dwc/NumericPairDataProcessorTest.java:22-37 | digits, one '.', digits parse to the integer part plus the scaled fraction; a trailing '.' is accepted |
| Numbers.NegativeParse | src/test/java/net/canadensys/processor/dwc/NumericPairDataProcessorTest.java:31-37 | a leading '-' negates a parse and keeps a failure a failure |
| Numbers.TwoDotsRejected | src/test/java/net/canadensys/processor/dwc/NumericPairDataProcessorTest.java:54-60 | a second '.' makes the text unparseable |
| Numbers.IntValue | src/main/java/net/canadensys/processor/geography/DecimalLatLongProcessor.java:47 | `intValue()` lies within Java int bounds; inside them it is the value rounded toward zero (the integer at or below a non-negative value, at or above a negative one); beyond them it saturates at the nearer bound |
| Numbers.OutsideTruncated | src/main/java/net/canadensys/processor/geography/DecimalLatLongProcessor.java:47 | the truncated comparison against a bound b fails exactly when the value is at least b + 1 away from zero |
| NumericPairs.ProcessPair | src/main/java/net/canadensys/processor/numeric/NumericPairDataProcessor.java:180-204 | each slot is the parse of the stripped value; no error iff every slot is parsed or its input blank; at most two errors, value1's first |
| NumericPairs.SecondUnparsed | src/main/java/net/canadensys/processor/numeric/NumericPairDataProcessor.java:190-201 | a read first value and a rejected, non-blank second value give the first number, null, and one error naming the second value |
| NumericPairs.BothUnparsed | src/main/java/net/canadensys/processor/numeric/NumericPairDataProcessor.java:190-201 | two rejected, non-blank values give two nulls and one error per value, first value first |
| NumericPairs.PairIsValid | src/main/java/net/canadensys/processor/numeric/NumericPairDataProcessor.java:143-166 | valid iff both cleaned values parse, or the pair is optional and both values are blank |
| NumericPairs.MissingPair | src/main/java/net/canadensys/processor/numeric/NumericPairDataProcessor.java:162-166 | two missing values: valid when optional, invalid when mandatory, and no error either way |
| NumericPairs.CleanedDropsUnit | src/main/java/net/canadensys/processor/dwc/NumericPairDataProcessor.java:76-81 | numeric text followed by a unit keeps only the numeric text |
| NumericPairs.AltitudeExamples | src/test/java/net/canadensys/processor/dwc/NumericPairDataProcessorTest.java:18-38 | "125.8m"/"1147 meters" and "-125.8m"/"-1147. meters" give the pairs the test expects, with no error |
| NumericPairs.MalformedAltitudeExamples | src/test/java/net/canadensys/processor/dwc/NumericPairDataProcessorTest.java:40-61 | "meters", "125.8.1m" and "-1147..meters" give null and one error each |
| DwcNumericPair.Process | src/main/java/net/canadensys/processor/dwc/NumericPairDataProcessor.java:73-95 | slots 0 and 1 get the pair's parses, the errors are appended when there is a collector, other slots are untouched |
| DwcMinMax.Process | src/main/java/net/canadensys/processor/dwc/MinMaxDataProcessor.java:75-84 | slots 0 and 1 get the parses of the stripped min and max, failures are silent nulls, other slots untouched |
| NumericPairProcessor.Process | src/main/java/net/canadensys/processor/numeric/NumericPairDataProcessor.java:180-204 | a fresh two-slot array holding the pair's parses; its errors appended when there is a collector |
| NumericPairProcessor.ValidateBean | src/main/java/net/canadensys/processor/numeric/NumericPairDataProcessor.java:132-167 | the verdict is `PairIsValid`, and the errors of `process` are reported on the way |
| LatLongBounds.Bounded | src/main/java/net/canadensys/processor/geography/LatLongProcessorHelper.java:40-67 | both halves or neither survive; they survive iff both are present and inside the inclusive bounds, and then unchanged; the errors are exactly one per half out of range, in order, each naming the value and the bounds it broke |
| LatLongBounds.BoundedIdempotent | src/main/java/net/canadensys/processor/geography/LatLongProcessorHelper.java:40-67 | checking a checked pair again changes nothing and reports nothing |
| LatLongBounds.EnsureLatLongBoundaries | src/main/java/net/canadensys/processor/geography/LatLongProcessorHelper.java:40-67 | slots 0 and 1 become the checked pair and its errors are appended; no other slot changes |
| DecimalLatLong.TruncBounded | src/main/java/net/canadensys/processor/geography/DecimalLatLongProcessor.java:46-70 | both halves or neither; they survive iff the latitude is strictly inside ±91 and the longitude strictly inside ±181; errors name the truncated values |
| DecimalLatLong.TruncationIsLooser | src/main/java/net/canadensys/processor/geography/DecimalLatLongProcessor.java:47 | 90.5 passes this truncated check but not the helper's inclusive one |
| DecimalLatLong.HelperKeepsLess | src/main/java/net/canadensys/processor/geography/DecimalLatLongProcessor.java:46-70 | every pair the helper keeps is kept here too, unchanged and without error |
| DecimalLatLong.Process | src/main/java/net/canadensys/processor/geography/DecimalLatLongProcessor.java:41-71 | the numeric pair parse, then the truncated bounds with joint invalidation; parse errors before bound errors |
| DecimalLatLong.CheckBounds | src/main/java/net/canadensys/processor/geography/DecimalLatLongProcessor.java:46-70 | slots 0 and 1 become the truncated-bounds pair, its errors appended, other slots untouched |
| DwcLatLongData.AsWrittenThrowsOnLatitude | src/main/java/net/canadensys/processor/dwc/LatLongDataProcessor.java:42-50 | with a collector, every out-of-range latitude throws a null-pointer exception |
| DwcLatLongData.AsWrittenReportsWrongValue | src/main/java/net/canadensys/processor/dwc/LatLongDataProcessor.java:52-60 | with a collector, a bad longitude beside a valid latitude is reported under the latitude's value |
| DwcLatLongData.Checked | src/main/java/net/canadensys/processor/dwc/LatLongDataProcessor.java:41-60 | each half survives on its own iff it is strictly inside its truncated bound, and unchanged; each dropped half is reported with its own value |
| DwcLatLongData.AsWrittenAgreesOnValues | src/main/java/net/canadensys/processor/dwc/LatLongDataProcessor.java:41-60 | whenever the code as written returns, its slots match the corrected check; without a collector it is the corrected check |
| DwcLatLongData.ProcessAsWritten | src/main/java/net/canadensys/processor/dwc/LatLongDataProcessor.java:36-61 | the parse then the per-slot check as written, including the exception and the wrong value in the message |
| DwcLatLongData.Process | src/main/java/net/canadensys/processor/dwc/LatLongDataProcessor.java:36-61 | the parse then the per-slot check as intended; no joint invalidation |
| DwcLatLongData.CheckBounds | src/main/java/net/canadensys/processor/dwc/LatLongDataProcessor.java:41-60 | slots 0 and 1 become `Checked` of the old slots, its errors appended, other slots untouched |
| CoordinatePair.DecimalPair | src/main/java/net/canadensys/processor/geography/CoordinatePairProcessor.java:39 | group 1 of the decimal pattern is a prefix of the text; each group has at least two characters and ends in a digit |
| CoordinatePair.LastInnerSeparatorIsLast | src/main/java/net/canadensys/processor/geography/CoordinatePairProcessor.java:40 | the greedy first group ends at the last separator of the line that still leaves text after it |
| CoordinatePair.DmsSplit | src/main/java/net/canadensys/processor/geography/CoordinatePairProcessor.java:40 | the split is at a separator on one line, with text on both sides and no separator later except the line's last character |
| CoordinatePair.DmsPair | src/main/java/net/canadensys/processor/geography/CoordinatePairProcessor.java:135-137 | the degree-minute-second pattern matches iff a split exists; its groups are the two non-empty sides of it |
| CoordinatePair.SplitPair | src/main/java/net/canadensys/processor/geography/CoordinatePairProcessor.java:114-175 | blank gives null with no error; a decimal match is returned as is; otherwise the degree-minute-second groups decide; a pair has two non-empty halves and no error, a null ends with the no-valid-coordinate error |
| CoordinatePair.FromDmsGroups | src/main/java/net/canadensys/processor/geography/CoordinatePairProcessor.java:138-174 | a kept pair is the two groups, possibly swapped, with the latitude ending in N/S and the longitude in E/W; the second group is preferred as longitude; otherwise the cardinal or latitude error and then the no-valid-coordinate error |
| CoordinatePair.NoInnerDmsSplit | src/main/java/net/canadensys/processor/geography/CoordinatePairProcessor.java:40 | with no separator inside the text, the degree-minute-second pattern finds no split on any line |
| CoordinatePair.NoInnerDecimalPair | src/main/java/net/canadensys/processor/geography/CoordinatePairProcessor.java:39 | with no separator inside the text, the decimal pattern does not match |
| CoordinatePair.LoneCoordinate | src/main/java/net/canadensys/processor/geography/CoordinatePairProcessor.java:114-137 | a non-blank text whose only separators are its first or last character gives no pair and the no-valid-coordinate error naming the text |
| CoordinatePair.PairIsValid | src/main/java/net/canadensys/processor/geography/CoordinatePairProcessor.java:177-204 | valid iff processing reports no error and a mandatory value is not blank |
| CoordinatePair.Process | src/main/java/net/canadensys/processor/geography/CoordinatePairProcessor.java:114-175 | returns `SplitPair`'s pair and appends its errors to the collector |
| CoordinatePairExamples.DecimalExample | src/test/java/net/canadensys/processor/geography/CoordinatePairProcessorTest.java:24-26 | "-71.87°;35.98 °" gives ("-71.87", "35.98") |
| CoordinatePairExamples.InvertedHalves | src/test/java/net/canadensys/processor/geography/CoordinatePairProcessorTest.java:39 | the inverted pair splits at its '/' into the longitude and latitude texts |
| CoordinatePairExamples.InvertedCardinals | src/main/java/net/canadensys/processor/geography/CoordinatePairProcessor.java:42-43 | the first half ends in W, the second ends in N and not in E/W |
| CoordinatePairExamples.InvertedExample | src/test/java/net/canadensys/processor/geography/CoordinatePairProcessorTest.java:39-40 | the inverted pair is swapped back to latitude first |
| CoordinatePairExamples.LoneLatitude | src/main/java/net/canadensys/processor/geography/CoordinatePairProcessor.java:114-137 | "45.5N," (a lone latitude, its separator last) gives no pair and the no-valid-coordinate error |
| DegreeMinute.SignPrefixEnd | src/main/java/net/canadensys/processor/geography/DegreeMinuteToDecimalProcessor.java:46 | the `^\s?-\s?` alternative matches iff the text starts with '-' or a space and '-', and covers at most three sign and space characters |
| DegreeMinute.CardinalStart | src/main/java/net/canadensys/processor/geography/DegreeMinuteToDecimalProcessor.java:46 | the `\s?[NSEW]\s*$` alternative matches iff the text ends in a cardinal letter, and removes no digit |
| DegreeMinute.RemoveSignAndCardinal | src/main/java/net/canadensys/processor/geography/DegreeMinuteToDecimalProcessor.java:163 | removing the sign and the cardinal letter keeps every digit, shortens any text that ends in a cardinal, and otherwise drops only the sign prefix |
| DegreeMinute.TokenEnd | src/main/java/net/canadensys/processor/geography/DegreeMinuteToDecimalProcessor.java:57 | `\d*\.?\d+` matches unsigned decimal text made of digits and '.', and fails only where neither a digit nor '.' then a digit follows |
| DegreeMinute.LastToken | src/main/java/net/canadensys/processor/geography/DegreeMinuteToDecimalProcessor.java:57 | the repeated group reports its last iteration, which is unsigned decimal text; it is absent iff no first token matches |
| DegreeMinute.MatchAt | src/main/java/net/canadensys/processor/geography/DegreeMinuteToDecimalProcessor.java:57 | a match at a position has a 1-3 digit degree taken from the text there and followed by a degree separator, and decimal minute and second texts |
| DegreeMinute.SecondGroup | src/main/java/net/canadensys/processor/geography/DegreeMinuteToDecimalProcessor.java:57 | group 3, when present, is unsigned decimal text |
| DegreeMinute.FirstMatch | src/main/java/net/canadensys/processor/geography/DegreeMinuteToDecimalProcessor.java:168-170 | find() returns the leftmost matching position, and none exactly when no position matches |
| DegreeMinute.SplitDmsParts | src/main/java/net/canadensys/processor/geography/DegreeMinuteToDecimalProcessor.java:168-176 | the groups are well formed and come from some match; no groups iff no position matches |
| DegreeMinute.NonBlank | src/main/java/net/canadensys/processor/geography/DegreeMinuteToDecimalProcessor.java:180-189 | the kept parts are the non-blank groups, no more of them than there were groups |
| DegreeMinute.CompactParts | src/main/java/net/canadensys/processor/geography/DegreeMinuteToDecimalProcessor.java:180-189 | a fresh 3-slot array holds the non-blank groups in order at the front and null after them |
| DegreeMinute.CompactedGroups | src/main/java/net/canadensys/processor/geography/DegreeMinuteToDecimalProcessor.java:183-189 | matched groups are never blank, so degree, minute and second keep their slots |
| DegreeMinute.PartValue | src/main/java/net/canadensys/processor/geography/DegreeMinuteToDecimalProcessor.java:190-192 | a missing part counts as 0, and a decimal part as its non-negative value |
| DegreeMinute.Magnitude | src/main/java/net/canadensys/processor/geography/DegreeMinuteToDecimalProcessor.java:228 | degrees plus minutes/60 plus seconds/3600 is never negative |
| DegreeMinute.SignedProduct | src/main/java/net/canadensys/processor/geography/DegreeMinuteToDecimalProcessor.java:228 | multiplying by `negation` is the magnitude itself, negated when the text ends in S or W |
| DegreeMinute.Convert | src/main/java/net/canadensys/processor/geography/DegreeMinuteToDecimalProcessor.java:143-230 | blank gives null and no error; a null has exactly one error about the input; no cardinal, then no match, are rejected in that order; a value has all digits captured, no decimal minute beside seconds, is sign times magnitude, and is negative only for S/W |
| DegreeMinute.CheckGroups | src/main/java/net/canadensys/processor/geography/DegreeMinuteToDecimalProcessor.java:195-229 | accepted iff all three checks pass; each check's failure gives its own error in the source's order; success is sign times magnitude |
| DegreeMinute.EndsWithShift | src/main/java/net/canadensys/processor/geography/DegreeMinuteToDecimalProcessor.java:42-43 | a leading '-' never changes which letter ends the text |
| DegreeMinute.RemoveShift | src/main/java/net/canadensys/processor/geography/DegreeMinuteToDecimalProcessor.java:163 | the stripped text is the same with or without a leading '-' |
| DegreeMinute.LeadingMinusIgnored | src/main/java/net/canadensys/processor/geography/DegreeMinuteToDecimalProcessor.java:158-163 | a leading '-' never changes the value; only the cardinal letter gives the sign |
| DegreeMinute.DmsIsValid | src/main/java/net/canadensys/processor/geography/DegreeMinuteToDecimalProcessor.java:110-135 | valid iff the conversion reports no error and a mandatory value is not blank |
| DegreeMinute.Process | src/main/java/net/canadensys/processor/geography/DegreeMinuteToDecimalProcessor.java:143-230 | returns `Convert`'s value and appends its errors to the collector |
| DegreeMinute.ConvertGroups | src/main/java/net/canadensys/processor/geography/DegreeMinuteToDecimalProcessor.java:180-229 | after a match: the compaction loop, the three checks and the arithmetic give `CheckGroups`' value and errors |
| DegreeMinuteExamples.ColonsExample | src/test/java/net/canadensys/processor/geography/DegreeMinuteToDecimalProcessorTest.java:18 | "40:26:47N" is 40 + 26/60 + 47/3600 |
| DegreeMinuteExamples.DecimalDegreeExample | src/test/java/net/canadensys/processor/geography/DegreeMinuteToDecimalProcessorTest.java:42-43 | "40.1:26:47N" is rejected because the digits captured differ from the input's |
| DegreeMinuteExamples.MarkerOnlyExample | src/test/java/net/canadensys/processor/geography/DegreeMinuteToDecimalProcessorTest.java:48-49 | "40d8.29sN" is rejected as unprocessable: an 's' marks seconds that are not there |
| DegreeMinuteExamples.NoCardinalExample | src/test/java/net/canadensys/processor/geography/DegreeMinuteToDecimalProcessorTest.java:39-40 | "40°26'47\"" is rejected for its missing cardinal letter |
| DateInterval.SeparatorPositions | src/main/java/net/canadensys/processor/datetime/DateIntervalProcessor.java:136-142 | one position per separator, pointing at that separator, with exactly k separators before the k-th |
| DateInterval.PositionRank | src/main/java/net/canadensys/processor/datetime/DateIntervalProcessor.java:139-142 | a separator with k separators before it is the k-th one listed |
| DateInterval.MiddleSeparator | src/main/java/net/canadensys/processor/datetime/DateIntervalProcessor.java:144-148 | a middle separator exists iff the punctuation is symmetric, and then the separators on its left equal those on its right |
| DateInterval.SplitSeparators | src/main/java/net/canadensys/processor/datetime/DateIntervalProcessor.java:139-148 | cutting at a separator splits the separator string around it |
| DateInterval.MiddleSeparatorUnique | src/main/java/net/canadensys/processor/datetime/DateIntervalProcessor.java:144-151 | any separator with the same punctuation on both sides is the one the processor cuts at |
| DateInterval.SplitInterval | src/main/java/net/canadensys/processor/datetime/DateIntervalProcessor.java:130-165 | blank gives two nulls and no error; otherwise the trimmed text is cut |
| DateInterval.Cut | src/main/java/net/canadensys/processor/datetime/DateIntervalProcessor.java:136-163 | both dates or neither; both iff the punctuation is symmetric, and then they are the trimmed texts around the middle separator; otherwise one error, interval-level for an odd separator count and date-level for an even one |
| DateInterval.JoinSplits | src/main/java/net/canadensys/processor/datetime/DateIntervalProcessor.java:130-165 | two dates with the same punctuation, joined by a separator, come back apart (trimmed) with no error |
| DateInterval.IntervalIsValid | src/main/java/net/canadensys/processor/datetime/DateIntervalProcessor.java:95-122 | valid iff processing reports no error and a mandatory value is not blank |
| DateInterval.Process | src/main/java/net/canadensys/processor/datetime/DateIntervalProcessor.java:130-165 | a fresh two-slot array holding `SplitInterval`'s dates; its errors appended to the collector |
| DateInterval.CutAt | src/main/java/net/canadensys/processor/datetime/DateIntervalProcessor.java:136-163 | the scan and the symmetry test give exactly `Cut` |
| DateInterval.SymmetricCut | src/main/java/net/canadensys/processor/datetime/DateIntervalProcessor.java:145-151 | with symmetric punctuation the cut is at the separator of middle rank |
| DateInterval.AsymmetricCut | src/main/java/net/canadensys/processor/datetime/DateIntervalProcessor.java:152-163 | without symmetric punctuation there are no dates and one error chosen by the parity of the count |
| DateInterval.ScanSeparators | src/main/java/net/canadensys/processor/datetime/DateIntervalProcessor.java:136-142 | the `find()` loop collects exactly the separators and their positions |
| DateInterval.AsWritten | src/main/java/net/canadensys/processor/datetime/DateIntervalProcessor.java:130-165 | as written, `process` throws a NullPointerException iff there is a collector and the trimmed text is not blank and its punctuation is not symmetric; it never adds an error |
| DateInterval.CutAsWritten | src/main/java/net/canadensys/processor/datetime/DateIntervalProcessor.java:136-163 | on the trimmed text, it throws iff there is a collector and the punctuation is not symmetric; no error is added |
| DateInterval.ThrowsWhereReported | src/main/java/net/canadensys/processor/datetime/DateIntervalProcessor.java:152-163 | with a collector, the code as written throws exactly where the corrected processor reports an error |
| DateInterval.AsWrittenAgreesOnDates | src/main/java/net/canadensys/processor/datetime/DateIntervalProcessor.java:130-165 | wherever the code as written returns, it leaves the same dates as the corrected processor |
| DateInterval.CutAsWrittenAgrees | src/main/java/net/canadensys/processor/datetime/DateIntervalProcessor.java:136-163 | on the trimmed text, the cut as written and the corrected cut give the same dates wherever the former returns |
| DateInterval.SymmetricAgrees | src/main/java/net/canadensys/processor/datetime/DateIntervalProcessor.java:144-151 | with symmetric punctuation both cut at the same separator |
| DateInterval.ProcessAsWritten | src/main/java/net/canadensys/processor/datetime/DateIntervalProcessor.java:130-165 | ends as `AsWritten` says; when it returns, the two slots hold its dates; it adds no error |
| DateInterval.CutAtAsWritten | src/main/java/net/canadensys/processor/datetime/DateIntervalProcessor.java:136-163 | the scan and the symmetry test give exactly `CutAsWritten` |
| DateIntervalExamples.SlashInterval | src/test/java/net/canadensys/processor/datetime/DateIntervalProcessorTest.java:68 | "1977-08-16/1977-08-20" is cut at the slash into its two dates |
| DateIntervalExamples.SlashIntervalValid | src/test/java/net/canadensys/processor/datetime/DateIntervalProcessorTest.java:68-70 | that interval is valid whether mandatory or not |
| DateIntervalExamples.CommaInterval | src/test/java/net/canadensys/processor/datetime/DateIntervalProcessorTest.java:82-86 | "1977-08-16,20" gives no dates and the date-level error |
| DateIntervalExamples.CommaIntervalInvalid | src/test/java/net/canadensys/processor/datetime/DateIntervalProcessorTest.java:82-85 | that interval is invalid even when optional |
| DateIntervalExamples.CommaIntervalThrowsAsWritten | src/test/java/net/canadensys/processor/datetime/DateIntervalProcessorTest.java:82-86 | as written, "1977-08-16,20" with a collector throws a NullPointerException; without one it gives two nulls |
| NamePatterns.StemEnd | src/main/java/net/canadensys/processor/person/PersonNameProcessor.java:33-63 | a keyword stem that matches ends inside the text, after its start whenever its first step must consume a character |
| NamePatterns.StemLitPrefix | src/main/java/net/canadensys/processor/person/PersonNameProcessor.java:50-63 | a keyword the text spells at a position, up to ASCII case under `(?i:)`, is passed over |
| NamePatterns.StemLitMismatch | src/main/java/net/canadensys/processor/person/PersonNameProcessor.java:50-63 | a keyword that the text leaves at one of its characters does not match |
| NamePatterns.BranchEnd | src/main/java/net/canadensys/processor/person/PersonNameProcessor.java:51-63 | a branch matches only after its stem, and ends no earlier than the stem |
| NamePatterns.BranchesEnd | src/main/java/net/canadensys/processor/person/PersonNameProcessor.java:52-63 | the branches of one group are tried in order: none matches iff every branch fails, otherwise the first that matches decides |
| NamePatterns.MatchAlt | src/main/java/net/canadensys/processor/person/PersonNameProcessor.java:48 | a character class matches exactly the one character it holds |
| NamePatterns.MatchAltConsumes | src/main/java/net/canadensys/processor/person/PersonNameProcessor.java:33-63 | no alternative of the patterns matches the empty string |
| NamePatterns.FirstMatch | src/main/java/net/canadensys/processor/person/PersonNameProcessor.java:158 | the alternatives are tried in order: no match iff none matches, otherwise the first one that matches decides where the match ends |
| NamePatterns.StemBlocked | src/main/java/net/canadensys/processor/person/PersonNameProcessor.java:50-63 | a stem whose first step cannot take the character does not match |
| NamePatterns.AltBlocked | src/main/java/net/canadensys/processor/person/PersonNameProcessor.java:33-63 | an alternative that the character or a missing `\b` blocks does not match |
| NamePatterns.NoMatchWhereBlocked | src/main/java/net/canadensys/processor/person/PersonNameProcessor.java:158 | where every alternative is blocked, nothing matches |
| NamePatterns.NoMatchOffInitials | src/main/java/net/canadensys/processor/person/PersonNameProcessor.java:158 | nothing matches at a character no match can start with |
| NamePatterns.DeleteMatches | src/main/java/net/canadensys/processor/person/PersonNameProcessor.java:158 | `replaceAll("")` never lengthens the text |
| NamePatterns.DeletedClass | src/main/java/net/canadensys/processor/person/PersonNameProcessor.java:42 | no character of a class in the pattern survives `replaceAll("")` |
| NamePatterns.DeleteNothing | src/main/java/net/canadensys/processor/person/PersonNameProcessor.java:158 | text in which nothing matches is left as it is |
| NamePatterns.Pieces | src/main/java/net/canadensys/processor/person/PersonNameProcessor.java:158 | the scan of `split` yields at least one piece |
| NamePatterns.PiecesRejoin | src/main/java/net/canadensys/processor/person/PersonNameProcessor.java:158 | splitting loses nothing: the pieces interleaved with the matched separators give back the text |
| NamePatterns.PiecesAvoidClass | src/main/java/net/canadensys/processor/person/PersonNameProcessor.java:48 | no piece holds a character of a class in the pattern |
| NamePatterns.Split | src/main/java/net/canadensys/processor/person/PersonNameProcessor.java:158 | `split` returns the pieces of the scan with only trailing empty pieces dropped |
| NamePatterns.PiecesSkip | src/main/java/net/canadensys/processor/person/PersonNameProcessor.java:158 | positions where nothing matches leave the current piece open |
| NamePatterns.SplitNoMatch | src/main/java/net/canadensys/processor/person/PersonNameProcessor.java:158 | a text the pattern never matches is split into itself alone |
| NamePatterns.SplitOneMatch | src/main/java/net/canadensys/processor/person/PersonNameProcessor.java:158 | a text with one match and a non-empty rest is split into what precedes and what follows the match |
| PersonName.Unbracket | src/main/java/net/canadensys/processor/person/PersonNameProcessor.java:85 | the same length, each bracket replaced by a space and every other character kept |
| PersonName.Normalize | src/main/java/net/canadensys/processor/person/PersonNameProcessor.java:84-88 | the result is no longer than the input and holds no bracket and none of `?`, `!`, `=` |
| PersonName.NormalizeIdempotent | src/main/java/net/canadensys/processor/person/PersonNameProcessor.java:84-88 | normalising twice is normalising once |
| PersonName.NormalizeKeepsClean | src/main/java/net/canadensys/processor/person/PersonNameProcessor.java:84-88 | a text with no bracket and none of `?!=` is already normal |
| PersonName.NormalizePatternConsumes | src/main/java/net/canadensys/processor/person/PersonNameProcessor.java:33-42 | no alternative of NORMALIZE matches the empty string |
| PersonName.SplitNamesConsume | src/main/java/net/canadensys/processor/person/PersonNameProcessor.java:48-63 | no alternative of SPLIT_NAMES matches the empty string, whatever its first class and its "annotated" ending |
| PersonName.KeepNamesAppend | src/main/java/net/canadensys/processor/person/PersonNameProcessor.java:160-166 | names keep the order of the parts they come from |
| PersonName.KeptTrimmed | src/main/java/net/canadensys/processor/person/PersonNameProcessor.java:162-165 | a kept part is trimmed and not blank |
| PersonName.KeepNamesFromParts | src/main/java/net/canadensys/processor/person/PersonNameProcessor.java:160-166 | every name is the trimmed, non-blank text of one of the parts |
| PersonName.Process | src/main/java/net/canadensys/processor/person/PersonNameProcessor.java:156-168 | the list is `Names` of the raw value, which splits with the corrected SPLIT_NAMES (the en dash and a word boundary, see Findings), not the pattern as written |
| PersonName.CollectNames | src/main/java/net/canadensys/processor/person/PersonNameProcessor.java:157-166 | the loop trims each entry in place and collects the non-blank ones, in order |
| PersonName.TrimClean | src/main/java/net/canadensys/processor/person/PersonNameProcessor.java:162 | trimming clean text leaves clean text |
| PersonName.ScrubbedChars | src/main/java/net/canadensys/processor/person/PersonNameProcessor.java:158 | the text that is split holds no bracket, none of `?!=` and none of `":+` or the digits |
| PersonName.PartsAreClean | src/main/java/net/canadensys/processor/person/PersonNameProcessor.java:158 | every part `split` returns holds only clean characters |
| PersonName.NamesAreClean | src/main/java/net/canadensys/processor/person/PersonNameProcessor.java:156-168 | every name is trimmed, not blank, and holds no separator, bracket, `?!=`, `":+` or digit |
| PersonName.BeanValue | src/main/java/net/canadensys/processor/person/PersonNameProcessor.java:96-106 | with names (of the corrected SPLIT_NAMES), the written value splits at "\|" back into exactly those names; with none, it is the error-mode value of the raw text |
| PersonName.NameIsValid | src/main/java/net/canadensys/processor/person/PersonNameProcessor.java:120-147 | valid iff a name was found by the corrected SPLIT_NAMES, or the value is optional and blank; a valid mandatory value writes a value |
| PersonNameExamples.NormalizeMidWord | src/main/java/net/canadensys/processor/person/PersonNameProcessor.java:33-42 | inside a word NORMALIZE matches nothing but its class |
| PersonNameExamples.SplitMidWord | src/main/java/net/canadensys/processor/person/PersonNameProcessor.java:48-63 | inside a word SPLIT_NAMES matches nothing but its class |
| PersonNameExamples.GateauScrubbed | src/main/java/net/canadensys/processor/person/PersonNameProcessor.java:158 | NORMALIZE leaves "Gâteau" as it is |
| PersonNameExamples.SplitClassMatch | src/main/java/net/canadensys/processor/person/PersonNameProcessor.java:48 | a character of the first class matches where it stands |
| PersonNameExamples.GateauSplitAsWritten | src/main/java/net/canadensys/processor/person/PersonNameProcessor.java:48 | with the class as written, `split` cuts "Gâteau" at the 'â' |
| PersonNameExamples.TwoNames | src/main/java/net/canadensys/processor/person/PersonNameProcessor.java:156-168 | a text split into two trimmed, non-blank parts gives those two names |
| PersonNameExamples.AccentedNameCutAsWritten | src/main/java/net/canadensys/processor/person/PersonNameProcessor.java:48 | as written, "Gâteau" comes back as the two names "G" and "teau" |
| PersonNameExamples.GateauSplitNone | src/main/java/net/canadensys/processor/person/PersonNameProcessor.java:48-63 | SPLIT_NAMES with the en dash matches nowhere in "Gâteau" |
| PersonNameExamples.AccentedNameKept | src/main/java/net/canadensys/processor/person/PersonNameProcessor.java:156-168 | with the en dash in the class, "Gâteau" is one name |
| PersonNameExamples.AnnotatedLine | src/main/java/net/canadensys/processor/person/PersonNameProcessor.java:51 | the "annotated" line takes "annotated by " when it ends in `\b`, and nothing when it ends in U+0008 |
| PersonNameExamples.AnnotatedByFound | src/main/java/net/canadensys/processor/person/PersonNameProcessor.java:48-63 | with `\b`, the whole pattern matches "annotated by " before a name |
| PersonNameExamples.AnnotatedByMissed | src/main/java/net/canadensys/processor/person/PersonNameProcessor.java:48-63 | with U+0008, no line of SPLIT_NAMES matches at "annotated by " before a name |
| PersonNameExamples.AnnotatedSeparates | src/main/java/net/canadensys/processor/person/PersonNameProcessor.java:51 | in "Smith annotated by Jones" the corrected pattern matches "annotated by " between the two names |
| PersonNameExamples.AnnotatedMissedAsWritten | src/main/java/net/canadensys/processor/person/PersonNameProcessor.java:51 | in "Smith annotated by Jones" the pattern as written matches nothing at "annotated" |
| CountryContinent.ParseLine | src/main/java/net/canadensys/processor/geography/CountryContinentProcessor.java:73-74 | a line has an entry iff splitting it at the tab gives at least two fields |
| CountryContinent.ParseLineKey | src/main/java/net/canadensys/processor/geography/CountryContinentProcessor.java:73-74 | the key is the text before the line's first tab |
| CountryContinent.ParseLineEntry | src/main/java/net/canadensys/processor/geography/CountryContinentProcessor.java:73-74 | a code and a non-empty continent code joined by one tab read back as that pair |
| CountryContinent.ParseLineMissingField | src/main/java/net/canadensys/processor/geography/CountryContinentProcessor.java:73-74 | a line with no tab, or with nothing after its tab, has no second field |
| CountryContinent.TableOfDefined | src/main/java/net/canadensys/processor/geography/CountryContinentProcessor.java:71-75 | the dictionary exists iff every line has two fields |
| CountryContinent.TableOfFromLines | src/main/java/net/canadensys/processor/geography/CountryContinentProcessor.java:71-75 | every key of the dictionary comes from a line that maps it to its value |
| CountryContinent.TableOfKeys | src/main/java/net/canadensys/processor/geography/CountryContinentProcessor.java:71-75 | a code is a key iff some line has it as its key |
| CountryContinent.TableOfLastWins | src/main/java/net/canadensys/processor/geography/CountryContinentProcessor.java:74 | the last line with a given key decides its value |
| CountryContinent.BuildTable | src/main/java/net/canadensys/processor/geography/CountryContinentProcessor.java:67-75 | the loop builds the dictionary of the lines, or stops with an index-out-of-bounds failure exactly when some line lacks a second field |
| CountryContinent.CountryContinentProcessor.constructor | src/main/java/net/canadensys/processor/geography/CountryContinentProcessor.java:62-82 | an accepted mode and the dictionary are kept unchanged |
| CountryContinent.CountryContinentProcessor.Process | src/main/java/net/canadensys/processor/geography/CountryContinentProcessor.java:145-159 | returns the lookup's continent and appends its errors to the result when there is one, and nothing else |
| CountryContinent.Create | src/main/java/net/canadensys/processor/geography/CountryContinentProcessor.java:62-82 | a mode other than USE_NULL or USE_EMPTY throws first; then a line without a second field throws; otherwise the processor holds the dictionary of the lines |
| CountryContinent.Lookup | src/main/java/net/canadensys/processor/geography/CountryContinentProcessor.java:145-159 | blank: no continent and no error; a key: fromCode of its continent code; otherwise no continent and one "no matching continent" error |
| CountryContinent.LookupErrors | src/main/java/net/canadensys/processor/geography/CountryContinentProcessor.java:145-159 | an error is reported iff the code is not blank and has no entry; a continent only comes from the code's own entry |
| CountryContinent.LookupFromLines | src/main/java/net/canadensys/processor/geography/CountryContinentProcessor.java:71-75 | on a dictionary read from lines, a non-blank code is reported iff no line has it as its key, and otherwise takes the continent of the last such line |
| CountryContinent.BeanValue | src/main/java/net/canadensys/processor/geography/CountryContinentProcessor.java:92-113 | the found continent's title, else null under USE_NULL and "" under USE_EMPTY |
| CountryContinent.CodeIsValid | src/main/java/net/canadensys/processor/geography/CountryContinentProcessor.java:116-136 | valid iff the non-blank code has an entry that names a continent, or the code is optional and blank; a valid mandatory code reports no error |
| CountryContinentExamples.CanadaEntry | src/main/java/net/canadensys/processor/geography/CountryContinentProcessor.java:73-74 | the line "CA\tNA" is the entry CA to NA |
| CountryContinentExamples.CanadaTable | src/main/java/net/canadensys/processor/geography/CountryContinentProcessor.java:71-75 | the one-line file gives the dictionary {CA: NA} |
| CountryContinentExamples.CanadaInNorthAmerica | src/test/java/net/canadensys/processor/geography/CountryContinentProcessorTest.java:20-31 | "CA" is written as "North America" |
| CountryContinentExamples.UnknownCode | src/test/java/net/canadensys/processor/geography/CountryContinentProcessorTest.java:46-57 | "test" has no continent, one error, null or "" by the mode, and is invalid |
| CountryContinentExamples.LowerCaseUnknown | src/main/java/net/canadensys/processor/geography/CountryContinentProcessor.java:149 | the lookup is exact: "ca" is unknown |
| CountryContinentExamples.BlankCode | src/test/java/net/canadensys/processor/geography/CountryContinentProcessorTest.java:40-43 | a missing code is valid only when optional, and reports no error |
| CountryContinentExamples.LaterLineWins | src/main/java/net/canadensys/processor/geography/CountryContinentProcessor.java:74 | a second line for CA replaces the first |
| CountryContinentExamples.MissingContinentCode | src/main/java/net/canadensys/processor/geography/CountryContinentProcessor.java:62-82 | a line without a continent code, and the mode USE_ORIGINAL, each make construction throw |
| DateFormats.DigitSlice | src/main/java/net/canadensys/processor/datetime/DateProcessor.java:67 | a slice of a digit run holds only digits |
| DateFormats.NumberAt | src/main/java/net/canadensys/processor/datetime/DateProcessor.java:67 | a `d` or `M` field matches iff a digit stands there, or a minus sign followed by a digit run whose value is not zero; it reads the longest digit run, at most 19 digits, negated after a minus sign, except that a 19-digit value beyond the `long` range (above 2^63 - 1, or 2^63 after a minus sign) gives back its last digit; a plus sign is refused |
| DateFormats.DigitsAt | src/main/java/net/canadensys/processor/datetime/DateProcessor.java:67 | matches iff a digit stands there; reads the longest digit run, cut at 19 digits, and gives back the last digit exactly when the cut run has 19 digits and a value above the limit |
| DateFormats.YearAt | src/main/java/net/canadensys/processor/datetime/DateProcessor.java:72 | a `yyyy` field takes an optional '+' and at least four digits ('+' iff more than four), and reads them as the year; a run of 19 or more digits beyond the `long` range passes the sign check and then gives back its last digit |
| DateFormats.TwoDigitsAt | src/main/java/net/canadensys/processor/datetime/DateProcessor.java:71 | a two-digit field of `yyyyMMdd` matches iff two digits stand there, and reads them |
| DateFormats.FoldCase | src/main/java/net/canadensys/processor/datetime/DateProcessor.java:62 | case-insensitive parsing leaves lower-case letters and digits as they are, and never folds anything into a digit |
| DateFormats.LongestFrom | src/main/java/net/canadensys/processor/datetime/DateProcessor.java:62 | the longest month name the text starts with, the first of equally long ones, and none only when no name matches |
| DateFormats.NameAt | src/main/java/net/canadensys/processor/datetime/DateProcessor.java:62 | a `MMM`/`MMMM` field matches iff some name of the locale matches, and then gives that month's number, 1 to 12 |
| DateFormats.Step | src/main/java/net/canadensys/processor/datetime/DateProcessor.java:62-100 | one field never moves backwards and never ends past the text |
| DateFormats.Run | src/main/java/net/canadensys/processor/datetime/DateProcessor.java:62-100 | a pattern's fields in turn never move backwards and never end past the text |
| DateFormats.Parse | src/main/java/net/canadensys/processor/datetime/DateProcessor.java:62-100 | a parse succeeds only when the pattern accounts for the whole text |
| DateFormats.MonthLength | src/main/java/net/canadensys/processor/datetime/DateProcessor.java:412 | every month has 28 to 31 days |
| DateFormats.Answer | src/main/java/net/canadensys/processor/datetime/DateProcessor.java:232 | on resolved fields a query answers exactly when its fields are present and, for the year-month and month queries, the month is within 1 to 12; a date's day is moved back to its month's last day |
| DateFormats.ParseBest | src/main/java/net/canadensys/processor/datetime/DateProcessor.java:232 | `parseBest` succeeds only when the whole text parses and resolution accepts the year, and the month and day of a full date |
| DateFormats.FirstAnswerAt | src/main/java/net/canadensys/processor/datetime/DateProcessor.java:232 | the answer is that of the first query, in the order given, that the resolved fields answer |
| DateFormats.NoFirstAnswer | src/main/java/net/canadensys/processor/datetime/DateProcessor.java:232 | there is no answer exactly when no query is answered |
| DateFormats.ParseBestFirst | src/main/java/net/canadensys/processor/datetime/DateProcessor.java:232 | `parseBest(text, LocalDate.FROM, YearMonth.FROM, Year.FROM)` gives the first query in order that answers the resolved fields |
| DateFormats.ParseBestNone | src/main/java/net/canadensys/processor/datetime/DateProcessor.java:232-236 | `parseBest` throws exactly when the text does not parse, resolution refuses a value, or no query answers |
| DateFormats.ParseAs | src/main/java/net/canadensys/processor/datetime/DateProcessor.java:248-274 | `parse(text, query)` gives, when it succeeds, the query's answer on the resolved fields of the whole text |
| DateFormats.ParseAsAnswers | src/main/java/net/canadensys/processor/datetime/DateProcessor.java:248-274 | `parse(text, query)` succeeds exactly when the text parses, resolves and answers the query |
| DateFormats.DigitRunEndAt | src/main/java/net/canadensys/processor/datetime/DateProcessor.java:67 | the digit run ends at the first character that is not a digit |
| DateFormats.NumberAtRun | src/main/java/net/canadensys/processor/datetime/DateProcessor.java:67 | a run of at most 19 digits that fits a `long` is read whole by `d` and `M` |
| DateFormats.NumberAtOverflow | src/main/java/net/canadensys/processor/datetime/DateProcessor.java:67 | a 19-digit run beyond `Long.MAX_VALUE` is read by `d` and `M` as its first 18 digits, leaving the last one unread |
| DateFormats.DigitRunAtLeast | src/main/java/net/canadensys/processor/datetime/DateProcessor.java:67 | a digit run stretches at least as far as the digits known to be there |
| DateFormats.YearAtFour | src/main/java/net/canadensys/processor/datetime/DateProcessor.java:72 | four digits, then no digit, are read as the year |
| DateFormats.YearAtOverflow | src/main/java/net/canadensys/processor/datetime/DateProcessor.java:72 | '+' and 19 digits beyond `Long.MAX_VALUE` are read as the year of their first 18 digits |
| DateFormats.YearAtShort | src/main/java/net/canadensys/processor/datetime/DateProcessor.java:72 | fewer than four digits and no sign are no year |
| DateFormats.NameAtDigit | src/main/java/net/canadensys/processor/datetime/DateProcessor.java:62 | no month-name field matches at a digit |
| DateFormats.DayMonthYearRun | src/main/java/net/canadensys/processor/datetime/DateProcessor.java:67 | `d-M-yyyy` reads a-b-c as day a, month b, year c, for a and b that fit a `long` |
| DateFormats.MonthDayYearRun | src/main/java/net/canadensys/processor/datetime/DateProcessor.java:87 | `M-d-yyyy` reads a-b-c as month a, day b, year c, for a and b that fit a `long` |
| DateFormats.IsoYearOnly | src/main/java/net/canadensys/processor/datetime/DateProcessor.java:72 | `yyyy[-M[-d]]` reads four digits alone as that year |
| DateFormats.IsoYearMonth | src/main/java/net/canadensys/processor/datetime/DateProcessor.java:72 | `yyyy[-M[-d]]` reads year-month, the optional day section skipped, for a month that fits a `long` |
| DateFormats.IsoDate | src/main/java/net/canadensys/processor/datetime/DateProcessor.java:72 | `yyyy[-M[-d]]` reads year-month-day, for a month and a day that fit a `long` |
| DateFormats.IsoDateOverflow | src/main/java/net/canadensys/processor/datetime/DateProcessor.java:72 | a 19-digit month or day beyond `Long.MAX_VALUE` leaves a digit unread, so `yyyy[-M[-d]]` fails |
| DateFormats.YearFirstFails | src/main/java/net/canadensys/processor/datetime/DateProcessor.java:71-77 | a text whose leading digit run is shorter than four fails every pattern that starts with a year |
| DateFormats.NameFirstFails | src/main/java/net/canadensys/processor/datetime/DateProcessor.java:81-100 | a text starting with a digit fails every pattern that starts with a month name |
| DateFormats.DayNameFails | src/main/java/net/canadensys/processor/datetime/DateProcessor.java:62-65 | `d-MMM-yyyy` and `d-MMMM-yyyy` fail where a digit follows the first dash, and also where the first number overflows a `long` |
| DateFormats.OverflowBeforeDash | src/main/java/net/canadensys/processor/datetime/DateProcessor.java:62-67 | a 19-digit first number beyond `Long.MAX_VALUE` fails every `d-…` and `M-…` pattern |
| DateFormats.FourDigitsValue | src/main/java/net/canadensys/processor/datetime/DateProcessor.java:72 | four digits never exceed 9999 |
| DateFormats.DayNameUnmatched | src/main/java/net/canadensys/processor/datetime/DateProcessor.java:62-65 | `d-MMM-yyyy` fails where no month name follows the first dash |
| DateFormats.SecondNotNumber | src/main/java/net/canadensys/processor/datetime/DateProcessor.java:67 | `d-M-yyyy` and `M-d-yyyy` fail where neither a digit nor a minus sign follows the first dash |
| DateFormats.IsoYearNegativeMonth | src/main/java/net/canadensys/processor/datetime/DateProcessor.java:72 | `yyyy--n` parses as the year and the negated month number, the optional day section skipped, for a magnitude of at most 2^63 |
| DateFormats.IsoMonthOverflow | src/main/java/net/canadensys/processor/datetime/DateProcessor.java:72 | a year and a 19-digit month beyond `Long.MAX_VALUE` fail `yyyy[-M[-d]]` |
| DateFormats.IsoNegativeMonthOverflow | src/main/java/net/canadensys/processor/datetime/DateProcessor.java:72 | a year and a negative 19-digit month beyond 2^63 fail `yyyy[-M[-d]]` |
| DateFormats.NameAtUnlike | src/main/java/net/canadensys/processor/datetime/DateProcessor.java:62 | no name field matches where no name starts with the text's character, case aside |
| DateProcessing.SetPartial | src/main/java/net/canadensys/processor/datetime/DateProcessor.java:319-340 | a date fills all three slots, a year-month the year and month, a year the year, a month the month; the other slots keep their values |
| DateProcessing.SetPartialFills | src/main/java/net/canadensys/processor/datetime/DateProcessor.java:319-340 | whatever was parsed, at least one slot is filled |
| DateProcessing.Standardize | src/main/java/net/canadensys/processor/datetime/DateProcessor.java:348-350 | no punctuation of `[.\|/ ,]` is left, and the text never grows |
| DateProcessing.StandardizePrefix | src/main/java/net/canadensys/processor/datetime/DateProcessor.java:348-350 | text without punctuation in front passes through unchanged |
| DateProcessing.StandardizeUnpunctuated | src/main/java/net/canadensys/processor/datetime/DateProcessor.java:348-350 | text without punctuation is left as it is |
| DateProcessing.StandardizeIdempotent | src/main/java/net/canadensys/processor/datetime/DateProcessor.java:348-350 | standardizing twice is standardizing once |
| DateProcessing.RunEndAt | src/main/java/net/canadensys/processor/datetime/DateProcessor.java:102 | a run of separators ends at the first character that is not one |
| DateProcessing.StandardizeRun | src/main/java/net/canadensys/processor/datetime/DateProcessor.java:102 | a maximal run of punctuation between other text becomes a single dash |
| DateProcessing.FirstComplete | src/main/java/net/canadensys/processor/datetime/DateProcessor.java:408-419 | the result is a date, and there is one iff some pattern of the list reads the text as a date |
| DateProcessing.InLocales | src/main/java/net/canadensys/processor/datetime/DateProcessor.java:432-439 | the result is a date, and there is one iff the pattern reads the text in some supported locale |
| DateProcessing.WithLocales | src/main/java/net/canadensys/processor/datetime/DateProcessor.java:429-442 | the result is a date, and there is one iff some pattern reads the text in some supported locale |
| DateProcessing.RomanAt | src/main/java/net/canadensys/processor/datetime/DateProcessor.java:103 | a match of `\d[.\-/ ]([XVI]+)[.\-/ ]\d` leaves room for a digit, a separator and a numeral before its end and a separator and a digit after |
| DateProcessing.FindRoman | src/main/java/net/canadensys/processor/datetime/DateProcessor.java:362-364 | `find()` gives the leftmost match, whose group lies inside the text; none iff no position matches |
| DateProcessing.RomanDateShape | src/main/java/net/canadensys/processor/datetime/DateProcessor.java:361-393 | a date comes with no error; otherwise at most the one Roman-numeral error, raised exactly when a numeral is found that `toInt` refuses |
| DateProcessing.DateOf | src/main/java/net/canadensys/processor/datetime/DateProcessor.java:222-226 | a blank value gives no date and no error |
| DateProcessing.FuzzyReported | src/main/java/net/canadensys/processor/datetime/DateProcessor.java:262-309 | the fuzzy stage gives a date with at most the Roman-numeral error, or nothing and a last error saying vague or unprocessable |
| DateProcessing.CascadeReported | src/main/java/net/canadensys/processor/datetime/DateProcessor.java:230-309 | on standardized text, every stage either fills a slot with at most the Roman-numeral error, or gives nothing and a last error saying vague or unprocessable |
| DateProcessing.OutcomeReported | src/main/java/net/canadensys/processor/datetime/DateProcessor.java:222-310 | a value that is not blank gives a date with at most the Roman-numeral error, or gives nothing and ends with an error saying vague or unprocessable |
| DateProcessing.DateIsValid | src/main/java/net/canadensys/processor/datetime/DateProcessor.java:181-211 | valid iff processing fills a slot, or the value is optional and blank |
| DateProcessing.ValidUnlessReported | src/main/java/net/canadensys/processor/datetime/DateProcessor.java:181-211 | valid iff the value is optional and blank, or not blank and processing reported it neither vague nor unprocessable |
| DateProcessing.Slots | src/main/java/net/canadensys/processor/datetime/DateProcessor.java:223 | the three-slot array reads back as the partial date |
| DateProcessing.DateProcessor.constructor | src/main/java/net/canadensys/processor/datetime/DateProcessor.java:131-141 | the month-name data and the Roman-numeral reader are kept, with the English default and French and Spanish as the other locales |
| DateProcessing.DateProcessor.Process | src/main/java/net/canadensys/processor/datetime/DateProcessor.java:222-310 | a new three-slot array holding DateOf's date, and DateOf's errors appended to the result, if there is one |
| DateProcessing.DateProcessor.ProcessFuzzy | src/main/java/net/canadensys/processor/datetime/DateProcessor.java:262-309 | on an empty array the slots become the fuzzy stage's date and its errors are appended |
| DateProcessing.DateProcessor.ProcessUnread | src/main/java/net/canadensys/processor/datetime/DateProcessor.java:293-309 | on an empty array, after the numeric readings: the Roman numeral, the other locales or the unprocessable error, slots and errors as `Unread` gives them |
| DateProcessing.DateProcessor.ValidateBean | src/main/java/net/canadensys/processor/datetime/DateProcessor.java:181-211 | returns DateIsValid and appends the errors processing reports |
| DateProcessing.DateProcessor.SetPartialDate | src/main/java/net/canadensys/processor/datetime/DateProcessor.java:319-340 | the array becomes SetPartial of its old slots |
| DateProcessing.DateProcessor.ProcessRomanNumeralDate | src/main/java/net/canadensys/processor/datetime/DateProcessor.java:361-393 | true iff the Roman reading gives a date; then the slots are set from it, otherwise left as they were; its errors are appended |
| DateProcessing.DateProcessor.TryParseCompleteDate | src/main/java/net/canadensys/processor/datetime/DateProcessor.java:408-419 | the loop returns FirstComplete of the patterns, in the English locale |
| DateProcessing.DateProcessor.TryParseWithSupportedLocale | src/main/java/net/canadensys/processor/datetime/DateProcessor.java:429-442 | the nested loops return WithLocales over the supported locales |
| DateProcessing.NumericReadings | src/main/java/net/canadensys/processor/datetime/DateProcessor.java:266-272 | `d-M-yyyy` reads a-b-y as day a of month b, `M-d-yyyy` as day b of month a |
| DateProcessing.NumericChars | src/main/java/net/canadensys/processor/datetime/DateProcessor.java:102 | a numeric a-b-yyyy is digits and dashes, not blank and free of punctuation |
| DateProcessing.NoRomanNumeral | src/main/java/net/canadensys/processor/datetime/DateProcessor.java:103 | text of digits and dashes holds no Roman numeral |
| DateProcessing.NoNamedReading | src/main/java/net/canadensys/processor/datetime/DateProcessor.java:62-100 | with a first number shorter than four digits, no pattern that starts with a year or holds a month name reads a-b-yyyy |
| DateProcessing.NumericCascade | src/main/java/net/canadensys/processor/datetime/DateProcessor.java:230-292 | a numeric a-b-yyyy with a short first number reaches the fuzzy stage, which finds no numeral and no other-locale reading |
| DateProcessing.NumericNotComplete | src/main/java/net/canadensys/processor/datetime/DateProcessor.java:230-260 | no step before the fuzzy one reads a numeric a-b-yyyy |
| DateProcessing.NumericNotNamed | src/main/java/net/canadensys/processor/datetime/DateProcessor.java:299-304 | no other locale reads a numeric a-b-yyyy |
| DateProcessing.AmbiguousDate | src/main/java/net/canadensys/processor/datetime/DateProcessor.java:277-284 | two different numbers that both fit a month make the date vague: no date and the one vague error |
| DateProcessing.SameDayAndMonth | src/main/java/net/canadensys/processor/datetime/DateProcessor.java:277-288 | the same number twice reads the same either way and is accepted with no error |
| DateProcessing.DayFirstOnly | src/main/java/net/canadensys/processor/datetime/DateProcessor.java:285-288 | a first number past 12 is the day; a day past the month's end is cut to its last day |
| DateProcessing.MonthFirstOnly | src/main/java/net/canadensys/processor/datetime/DateProcessor.java:289-292 | a second number past 12 is the day, the first the month |
| DateProcessing.NumericUnprocessable | src/main/java/net/canadensys/processor/datetime/DateProcessor.java:306-309 | a numeric date is unprocessable iff year 0, a number outside 1..31, or both numbers past 12 |
| DateProcessing.DashedText | src/main/java/net/canadensys/processor/datetime/DateProcessor.java:348-350 | digits and dashes are left alone by the punctuation step |
| DateProcessing.IsoFirst | src/main/java/net/canadensys/processor/datetime/DateProcessor.java:230-233 | what the ISO step reads is the answer, with no error |
| DateProcessing.IsoYearText | src/main/java/net/canadensys/processor/datetime/DateProcessor.java:230-233 | four digits alone give that year and nothing else |
| DateProcessing.IsoYearMonthText | src/main/java/net/canadensys/processor/datetime/DateProcessor.java:230-233 | year-month gives the year and the month |
| DateProcessing.IsoMonthUnchecked | src/main/java/net/canadensys/processor/datetime/DateProcessor.java:230-233 | a year and a month number outside 1 to 12 that fits a `long` gives the year alone, with no error |
| DateProcessing.IsoNegativeMonth | src/main/java/net/canadensys/processor/datetime/DateProcessor.java:230-233 | `yyyy--n` with a nonzero month number of magnitude at most 2^63 (what `yyyy/-n` becomes) gives the year alone, with no error |
| DateProcessing.IsoMonthOverflowRefused | src/main/java/net/canadensys/processor/datetime/DateProcessor.java:230-233 | a year and a 19-digit month beyond `Long.MAX_VALUE` fail the whole ISO attempt, year included |
| DateProcessing.IsoDateRefused | src/main/java/net/canadensys/processor/datetime/DateProcessor.java:232 | a full ISO date whose month or day is out of range, or overflows a `long`, fails the whole ISO attempt, year included |
| DateProcessing.IsoDateText | src/main/java/net/canadensys/processor/datetime/DateProcessor.java:230-233 | year-month-day gives the date, the day cut to the month's last day |
| DateProcessing.FindRomanFrom | src/main/java/net/canadensys/processor/datetime/DateProcessor.java:363 | where no earlier position matches, `find()` returns the first match |
| DateProcessing.RomanAtNumeral | src/main/java/net/canadensys/processor/datetime/DateProcessor.java:103 | in d·r·y the pattern matches at the last digit of the day |
| DateProcessing.RomanNumeralFound | src/main/java/net/canadensys/processor/datetime/DateProcessor.java:363-364 | the numeral found is exactly the run of Roman letters between the separators |
| DateProcessing.SeparatorDash | src/main/java/net/canadensys/processor/datetime/DateProcessor.java:102 | a Roman separator followed by text becomes a dash |
| DateProcessing.DigitsUnpunctuated | src/main/java/net/canadensys/processor/datetime/DateProcessor.java:102 | digits are not punctuation |
| DateProcessing.SmallNumberText | src/main/java/net/canadensys/processor/datetime/DateProcessor.java:367 | a value below 100 is written with at most two digits |
| DateProcessing.RomanDateRead | src/main/java/net/canadensys/processor/datetime/DateProcessor.java:363-374 | a numeral `toInt` reads, in a text that then reads as `d-M-yyyy`, gives that date and no error |
| DateProcessing.RomanReplaceAll | src/main/java/net/canadensys/processor/datetime/DateProcessor.java:367 | replacing the numeral touches nothing but the numeral |
| DateProcessing.SeparatorsDashed | src/main/java/net/canadensys/processor/datetime/DateProcessor.java:369 | three numbers between Roman separators become dash-separated |
| DateProcessing.RomanMonthDate | src/main/java/net/canadensys/processor/datetime/DateProcessor.java:361-374 | a day, a Roman month and a year read as that date, the day cut to the month's last day |
| DateProcessing.RomanStandardized | src/main/java/net/canadensys/processor/datetime/DateProcessor.java:228 | a value with a Roman month is not blank, and only its two separators become dashes |
| DateProcessing.RomanNotEarlier | src/main/java/net/canadensys/processor/datetime/DateProcessor.java:230-275 | no step before the Roman one reads d-xi-yyyy |
| DateProcessing.RomanDateText | src/main/java/net/canadensys/processor/datetime/DateProcessor.java:222-297 | a whole value with a Roman month gives the date and no error |
| DateProcessing.NoLocaleReading | src/main/java/net/canadensys/processor/datetime/DateProcessor.java:429-442 | with no named-month reading in French or Spanish, the other locales give nothing |
| DateProcessing.RomanNotNamed | src/main/java/net/canadensys/processor/datetime/DateProcessor.java:109-110 | no pattern with a month name reads d-xi-yyyy in a locale whose names do not start with the numeral's letter |
| DateProcessing.RomanRefused | src/main/java/net/canadensys/processor/datetime/DateProcessor.java:386-389 | a numeral `toInt` refuses gives no date, its error, and then the unprocessable error |
| DateProcessing.RefusedFuzzy | src/main/java/net/canadensys/processor/datetime/DateProcessor.java:294-309 | on d-xi-yyyy with a refused numeral the fuzzy stage ends with the Roman-numeral and unprocessable errors |
| DateProcessing.ReachesFuzzy | src/main/java/net/canadensys/processor/datetime/DateProcessor.java:230-260 | when no earlier pattern reads the text, the fuzzy stage decides |
| DateProcessing.FuzzyUnread | src/main/java/net/canadensys/processor/datetime/DateProcessor.java:294-309 | when nothing reads the text, the Roman errors are followed by the unprocessable error |
| DateProcessing.FirstSuccessDecides | src/main/java/net/canadensys/processor/datetime/DateProcessor.java:228-260 | for a value that is not blank, the first of the ISO, complete, month-year and month attempts that succeeds decides the output with no error; when none does, the fuzzy stage decides |
| DateProcessing.CascadeOrder | src/main/java/net/canadensys/processor/datetime/DateProcessor.java:230-260 | on the standardized text, the first successful attempt in the order ISO, complete, month-year, month decides; none leads to the fuzzy stage |
| DateProcessorExamples.EnglishWords | src/main/java/net/canadensys/processor/datetime/DateProcessor.java:62-63 | no English month name starts with a digit |
| DateProcessorExamples.FrenchWords | src/main/java/net/canadensys/processor/datetime/DateProcessor.java:139 | no French month name starts with a digit |
| DateProcessorExamples.SpanishWords | src/main/java/net/canadensys/processor/datetime/DateProcessor.java:140 | no Spanish month name starts with a digit |
| DateProcessorExamples.NamesAreWords | src/main/java/net/canadensys/processor/datetime/DateProcessor.java:136-140 | no month name of any locale starts with a digit |
| DateProcessorExamples.ThreeFields | src/main/java/net/canadensys/processor/datetime/DateProcessor.java:348-350 | three fields separated by punctuation runs become dash-separated |
| DateProcessorExamples.Slashes | src/test/java/net/canadensys/processor/datetime/DateProcessorTest.java:66 | "8/11/2003" becomes "8-11-2003" |
| DateProcessorExamples.DotAndSpace | src/test/java/net/canadensys/processor/datetime/DateProcessorTest.java:69 | "08.11 2003" becomes "08-11-2003", the space included |
| DateProcessorExamples.NamedMonth | src/test/java/net/canadensys/processor/datetime/DateProcessorTest.java:72 | "10/Oct/2000" becomes "10-Oct-2000" |
| DateProcessorExamples.YearDigits | src/main/java/net/canadensys/processor/datetime/DateProcessor.java:72 | four digit characters read as their value |
| DateProcessorExamples.PairDigits | src/main/java/net/canadensys/processor/datetime/DateProcessor.java:67 | two digit characters read as their value |
| DateProcessorExamples.YearAlone | src/main/java/net/canadensys/processor/datetime/DateProcessor.java:230-233 | "1987" is the year 1987 alone |
| DateProcessorExamples.YearAndMonth | src/main/java/net/canadensys/processor/datetime/DateProcessor.java:230-233 | "1987-07" is July 1987 |
| DateProcessorExamples.MonthZeroYearKept | src/main/java/net/canadensys/processor/datetime/DateProcessor.java:230-233 | "1987-00" is the year 1987, with no month and no error |
| DateProcessorExamples.NegativeMonthYearKept | src/main/java/net/canadensys/processor/datetime/DateProcessor.java:230-233 | "1987--5" is the year 1987, with no month and no error |
| DateProcessorExamples.NinesValue | src/main/java/net/canadensys/processor/datetime/DateProcessor.java:67 | a run of nines is one less than a power of ten |
| DateProcessorExamples.NineteenNines | src/main/java/net/canadensys/processor/datetime/DateProcessor.java:67 | nineteen nines do not fit a `long` |
| DateProcessorExamples.HugeMonthRefused | src/main/java/net/canadensys/processor/datetime/DateProcessor.java:230-233 | "2000-9999999999999999999" fails the ISO attempt as a whole |
| DateProcessorExamples.MonthThirteenRefused | src/main/java/net/canadensys/processor/datetime/DateProcessor.java:232 | "2010-13-01" fails the ISO attempt as a whole |
| DateProcessorExamples.IsoDay | src/main/java/net/canadensys/processor/datetime/DateProcessor.java:230-233 | "1987-06-03" is 3 June 1987 |
| DateProcessorExamples.SameNumberTwice | src/main/java/net/canadensys/processor/datetime/DateProcessor.java:277-288 | "8-8-2010" is 8 August 2010 |
| DateProcessorExamples.VagueDate | src/main/java/net/canadensys/processor/datetime/DateProcessor.java:277-284 | "8-11-2003" is vague |
| DateProcessorExamples.DayFirst | src/main/java/net/canadensys/processor/datetime/DateProcessor.java:285-288 | "13-10-2012" is 13 October 2012 |
| DateProcessorExamples.DayClamped | src/main/java/net/canadensys/processor/datetime/DateProcessor.java:285-288 | "31-4-2010" is 30 April 2010 |
| DateProcessorExamples.NoReading | src/main/java/net/canadensys/processor/datetime/DateProcessor.java:306-309 | "32-13-2010" is unprocessable |
| DateProcessorExamples.NoNameStartsWithX | src/main/java/net/canadensys/processor/datetime/DateProcessor.java:299-304 | no month name of any locale starts with 'x' |
| DateProcessorExamples.RomanMonth | src/main/java/net/canadensys/processor/datetime/DateProcessor.java:352-374 | "8.xi.2003" is 8 November 2003 |
| DateProcessorExamples.RomanOctober | src/main/java/net/canadensys/processor/datetime/DateProcessor.java:352-374 | "8-x-2003" is 8 October 2003 |
| DateProcessorExamples.RomanNotRead | src/main/java/net/canadensys/processor/datetime/DateProcessor.java:386-389 | "8-x-2003" with a numeral `toInt` refuses gives no date, the Roman-numeral error, then the unprocessable error |

## Left out

- Bean plumbing: the reflective property reads and writes of every `processBean` and `validateBean` are not modelled; the decisions they make on `process`'s result are.
- Message text: `ResourceBundle`, `MessageFormat` and `setLocale` are not modelled; an error is a tag and the text it is about (a coordinate out of bounds carries its value and the bounds instead), and the numbers are not formatted into a message.
- Java `null` strings are modelled as the empty string, which `StringUtils.isBlank` treats alike; `PersonNameProcessor.process` throws on `null` and that path is not modelled.
- Floating point: coordinates and numeric values are reals; IEEE rounding and the `floatValue()` comparisons of the tests are not modelled.
- Integer width: `intValue()` of a `Double` is modelled as Java's narrowing of a `double` to an `int` (section 5.1.3 of the Java Language Specification): truncation toward zero, with values beyond the `int` range saturating at `Integer.MAX_VALUE` or `Integer.MIN_VALUE` (`Numbers.IntValue`); NaN is not modelled, since values are reals.
- `NumberUtils.parseNumber` is a parameter of the numeric-pair processors; the concrete parser of their examples, and the parser `DegreeMinute.PartValue` uses, is `Numbers.ParseDecimal`, which reads an optional leading '-' and unsigned decimal text, so a sign anywhere else is a failure.
- `RomanNumeral.toInt`, `Continent.fromCode`, `Continent.getTitle` and the locales' month names are parameters; the examples pin them with stand-ins that cover only the values the tests use.
- Case-insensitive parsing folds ASCII and Latin-1 letters only.
- `\b` is modelled for the Latin letters and digits of the names in question, not for every Unicode word character.
- Concurrency: the synchronised list of `ProcessingResult` and its locking are not modelled.
- File I/O: `IOUtils.readLines` and the clear-on-`IOException` path of `CountryContinentProcessor` are not modelled; the constructor takes the lines.
- A `null` or unknown error-handling mode is not modelled; only the enumeration's values are.
- The `MMMM-yyyy` and `MMMM` formatters of `DateProcessor` are declared but never used, and are not modelled.
- `CoordinatesToWGS84Processor`, `WKTOperationFactory`, `CountryProcessor`, `StateProvinceProcessor` and the dictionary-backed parsers wrap foreign libraries and are not part of this model.
- Tests whose assertions contradict the code are not followed: `DateProcessorTest.java` lines 69 and 72-76 expect spaces, dots and slashes to survive `standardizeDatePunctuation`, but its pattern replaces them (`DateProcessorExamples.DotAndSpace`, `NamedMonth`); `CoordinatePairProcessorTest.java` lines 31-36 expect degree-minute pairs to be split, but the decimal pattern matches them first.
- A day past the end of its month (`31-4-2010`, `2010-02-30`) is moved back to the month's last day by the date library's smart resolution instead of failing (`DateProcessing.DayFirstOnly`, `IsoDateText`). A month outside 1 to 12 with no day after it is not checked by that resolution, so `yyyy[-M[-d]]` reads `1987-00` as the year 1987 (`DateProcessing.IsoMonthUnchecked`).
- `DecimalLatLongProcessor` and `LatLongDataProcessor` compare the value truncated to an `int`, so a latitude of 90.5 passes (`DecimalLatLong.TruncationIsLooser`); `LatLongDataProcessor` checks each half on its own, with no joint rule.
- PersonName.Process, PersonName.BeanValue and PersonName.NameIsValid: split with the corrected SPLIT_NAMES of the Findings (`PersonName.SplitPattern`), not with the pattern as written at `PersonNameProcessor.java` lines 48-51 (`PersonName.SplitPatternAsWritten`). As written, "Gâteau" gives the names "G" and "teau", "Smith annotated by Jones" is not cut at "annotated by", and "â" alone gives no name and is invalid when mandatory; `PersonName.NamesWith` over the as-written pattern models those results.
- DateInterval.Process, DateInterval.SplitInterval, DateInterval.Cut and DateInterval.IntervalIsValid: model the processor as evidently intended, reporting its non-symmetric errors; as written it throws instead wherever a collector is given (`DateInterval.AsWritten`, see Findings).
- NumberAtRun, DayMonthYearRun, MonthDayYearRun, IsoYearMonth, IsoDate and IsoMonthUnchecked: stated for numbers that fit a `long`; a 19-digit number beyond `Long.MAX_VALUE` is read one digit short (`DateFormats.NumberAtOverflow`), and the parse then fails (`DateFormats.IsoMonthOverflow`, `IsoDateOverflow`, `OverflowBeforeDash`, `DateProcessing.IsoMonthOverflowRefused`). What `DateOf` reports for such a text after the ISO attempt fails is not stated.
- IsoYearNegativeMonth and IsoNegativeMonth: stated for a month of magnitude at most 2^63; a larger one fails the parse (`DateFormats.IsoNegativeMonthOverflow`).
- DateProcessing.RomanRefused: stated for a numeral whose first letter begins no month name of the supported locales, the case the examples need; other numerals follow from `DateOf`'s definition but are not stated as a lemma.
- DateProcessing.RomanDateText: stated for the same numerals as `RomanRefused`, with a day of at most three digits and a four-digit year.
- The lemmas about numeric dates (`NumericUnprocessable`, `AmbiguousDate`, `SameDayAndMonth`, `DayFirstOnly`, `MonthFirstOnly`) are stated for a text `a-b-yyyy` whose first number has at most three digits, where no earlier pattern can read it.

## Findings

| source | as written | input that shows it | evidently intended | confidence | as-written member | corrected member |
|---|---|---|---|---|---|---|
| src/main/java/net/canadensys/processor/dwc/LatLongDataProcessor.java:43-59 | the slot is set to null before the message reads `output[0].intValue()`, and the longitude message reads `output[0]` too | latitude "95", longitude "10" with a collector: NullPointerException; latitude "45", longitude "200": the message names 45 | each bad half is set to null and reported with its own value | high, not executed | DwcLatLongData.AsWrittenThrowsOnLatitude | DwcLatLongData.Checked |
| src/main/java/net/canadensys/processor/person/PersonNameProcessor.java:48 | the class `[â€“;\|&\\/]` holds the three characters of the en dash's UTF-8 bytes read as Windows-1252 | "Gâteau" is split into the names "G" and "teau" | the class holds the en dash U+2013 | high, not executed | PersonNameExamples.AccentedNameCutAsWritten | PersonNameExamples.AccentedNameKept |
| src/main/java/net/canadensys/processor/person/PersonNameProcessor.java:51 | the alternative ends in `"\b"` inside a Java string literal, which is the backspace U+0008, not a word boundary | "Smith annotated by Jones": no separator is found at "annotated" | a word boundary, `"\\b"` | high, not executed | PersonNameExamples.AnnotatedMissedAsWritten | PersonNameExamples.AnnotatedSeparates |
| src/main/java/net/canadensys/processor/datetime/DateIntervalProcessor.java:155-161 | both error messages read `resourceBundle`, which is null because `DateIntervalProcessor` never calls `setLocale` (`AbstractDataProcessor.java` line 22 leaves it unset) | "1977-08-16,20" with a collector, as in `DateIntervalProcessorTest.java` lines 82-86: NullPointerException, which `validateBean` does not catch | the non-symmetric error is added and `validateBean` returns false | high, not executed | DateIntervalExamples.CommaIntervalThrowsAsWritten | DateInterval.Cut |
