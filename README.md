# TLE text layer of go-satellite-v2, in Dafny

This project models the `pkg/tle` package of go-satellite-v2. The package reads
NORAD Two-Line Element sets (TLEs): a name line followed by two 69-column lines
of orbital elements. The model covers these parts:

- **Column extraction** (`ReadTLELine1`, `ReadTLELine2`). Each line is sliced by
  a table of columns and every value is trimmed. The model is a method that
  visits the keys of the column map in an arbitrary order. It is proved equal to
  a function (`Tle.Line1Of`, `Tle.Line2Of`), so the result does not depend on
  Go's map iteration order.
- **The normaliser** (`ParseScientificNotation`). It rewrites the
  implicit-decimal fields of line 1: the first derivative, the second derivative
  and Bstar.
- **Whole records.** `ParseTLE` and `TLE.String` are modelled.
- **The file loop** (`ReadTLEFile`). The model runs over a sequence of lines
  that are already split. It is a method with a loop whose invariant ties it to
  a left fold (`TleFile.Fold`).
- **The epoch** (`TLE.Time`). The model splits the epoch text, applies the
  century pivot and checks the day range. It reads the fraction of the day
  exactly and rounds it to nanoseconds. The instant is an integer count of
  nanoseconds since 1970-01-01T00:00:00 UTC, built on Gregorian day-number
  arithmetic (`CivilTime`).
- **Checks and calendar.** `VerifyChecksum` is a method with a loop.
  `ValidateTLE` is a function. `DayOfYearToMonthDay` is a method that patches a
  month-length array and then scans it. The leap-year test of `Days2mdhms` is
  modelled too.

The modules follow the package:

| module | file | role |
|---|---|---|
| `Wrappers` | wrappers.dfy | `Option` and `Result` |
| `GoStrings` | gostrings.dfy | the Go library calls the code relies on: `strings.TrimSpace`, `strings.Fields`, `strings.HasPrefix`, `strings.Index`, `strings.Split` and `strconv.Atoi` |
| `Utils` | utils.dfy | `pkg/tle/utils.go` |
| `CivilTime` | civil.dfy | integer replacement for `time.Date` and `AddDate` |
| `Tle` | tle.dfy | the record types, `ReadTLELine1`, `ReadTLELine2`, `ParseTLE`, `TLE.String` |
| `TleFile` | tle_file.dfy | the loop of `ReadTLEFile` |
| `Epoch` | epoch.dfy | `TLE.Time` |

Two Go panics become error values in the model:

- `ParseScientificNotation` panics on a value of one or two characters. The
  model returns `None`, and line 1 then reads as `Err(SliceOutOfRange)`.
- In `ReadTLEFile`, `components[1]` panics on a `"2 "` line with a single field.
  The model returns `Err(IndexOutOfRange)`.

A third panic is excluded by a precondition instead. `VerifyChecksum` indexes
`line[68]`, which panics on a line of fewer than 69 characters. The model's
`Utils.VerifyChecksum` requires at least 69 characters. The only caller in the
package, `ValidateTLE`, calls it after its own length check
(pkg/tle/utils.go:30), so every call the source makes meets that requirement.

The model follows the code, including these behaviours that a reader of the TLE
format might not expect:

- The normaliser puts the point after the first character, even when that
  character is a sign: `"-11606-4"` becomes `"-.11606e-4"`, not `-1.1606e-4`.
- A first derivative that already has a point is still split before its last
  two characters: `"-.00002182"` becomes `"-.000021e82"`.
- The normaliser is not idempotent: `"0.0"` becomes `"0.e.0"`.
- `LineNumber` is never filled in.
- `ParseTLE` leaves `NoradID` empty.
- A length check is the only error `ReadTLELine1`/`ReadTLELine2` report.
- Day 366 is accepted in every year. In a common year it is January 1 of the
  next year.
- The example record's epoch `08264.51782528` is 2008-09-20T12:25:40.104192Z.
- `strconv.Atoi` accepts a sign, so year texts such as `"-5"` and `"+7"` pass.
  They go through the pivot: `-5` gives 1995 and `+7` gives 2007.
- `strconv.ParseFloat` accepts an exponent and underscores between digits. The
  model reads these too, so a fraction text such as `"5e1"` is rejected as out
  of range, not as malformed.

## Model

| member | source | states |
|---|---|---|
| `GoStrings.TrimSpaceShape` | pkg/tle/tle.go:88 | `TrimSpace`: the trimmed value is a slice of the input with no white space at either end, and everything dropped is white space |
| `GoStrings.TrimSpaceOfPadded` | pkg/tle/tle.go:221 | trimming white-space padding around a trimmed text gives that text back |
| `GoStrings.TrimSpaceOfTrimmed` | pkg/tle/tle.go:88 | trimming leaves a text with no white space at either end unchanged |
| `GoStrings.Fields` | pkg/tle/tle.go:211 | every field is non-empty and holds no white space |
| `GoStrings.FieldsAfterToken` | pkg/tle/tle.go:211 | a leading run of non-space characters ended by white space or the end is the first field, and the rest is split on its own |
| `GoStrings.FieldsSkipSpace` | pkg/tle/tle.go:211 | leading white space does not change the fields |
| `GoStrings.IndexOf` | pkg/tle/tle.go:236 | no position exactly when the character is absent; otherwise the position holds it and no earlier one does |
| `GoStrings.SplitThree` | pkg/tle/tle.go:57 | splitting three newline-free texts, joined by newlines, at newlines gives the three back |
| `GoStrings.Atoi` | pkg/tle/tle.go:253 | succeeds exactly on an optional sign followed by at least one digit; on plain digits the value is their decimal value, and after a sign it is that value with the sign applied |
| `Utils.ParseScientificNotation` | pkg/tle/utils.go:11-26 | panics (`None`) exactly on inputs of one or two characters; `""` gives `"0.0"` |
| `Utils.ScientificNotationShape` | pkg/tle/utils.go:17-25 | on 3 or more characters the result is the input plus an 'e', plus a point when the mantissa had none; the last two characters are kept after the 'e'; a point precedes the 'e' |
| `Utils.ScientificNotationInsertsOnly` | pkg/tle/utils.go:17-25 | deleting the inserted 'e', and the inserted point when there is one, gives the input back |
| `Utils.ScientificNotationAfterSign` | pkg/tle/utils.go:20-22 | on a sign, digits and a two-character exponent, the point goes right after the sign |
| `Utils.ScientificNotationExamples` | pkg/tle/utils.go:11-26 | `"-11606-4"` gives `"-.11606e-4"`, `"00000-0"` gives `"0.0000e-0"`, `"-.00002182"` gives `"-.000021e82"`, `""` gives `"0.0"` |
| `Utils.ScientificNotationNotIdempotent` | pkg/tle/utils.go:12-25 | `"0.0"` gives `"0.e.0"`, so normalising the normaliser's own output for `""` changes it |
| `Utils.VerifyChecksum` | pkg/tle/utils.go:53-69 | true exactly when `ChecksumValid` holds, that is when column 68 is a decimal digit equal to the sum of the column weights 0..67 ('-' counts 1, a digit its value, anything else 0) modulo 10 |
| `Utils.WeightSumUpdate` | pkg/tle/utils.go:55-61 | replacing one character changes the weight sum by the difference of the two weights |
| `Utils.ChecksumIgnoresSameWeight` | pkg/tle/utils.go:55-61 | replacing a character of columns 0..67 by one of the same weight, such as one non-digit other than '-' by another, never changes the verdict |
| `Utils.ChecksumDetectsDigitChange` | pkg/tle/utils.go:55-68 | changing one digit of columns 0..67 to a different digit turns a valid line into an invalid one |
| `Utils.ValidateTLE` | pkg/tle/utils.go:29-50 | nil exactly when both lines have 69 characters, start with '1' and '2', share columns 2..6 and pass the checksum; the length, line-number and ID errors each hold exactly when the earlier checks pass and that check fails, so a checksum error comes last |
| `Utils.ValidateDetectsDigitChange` | pkg/tle/utils.go:29-50 | one changed digit of line 1 in a valid pair is always reported: a line-number error for column 0, an ID mismatch for columns 2..6, otherwise a checksum failure |
| `Utils.PrefixSumIsCumulative` | pkg/tle/utils.go:85-88 | the partial sums of the patched month table are the cumulative day counts 0, 31, 59(+1), ..., 365(+1) |
| `Utils.YearLengthIsMonthTotal` | pkg/tle/utils.go:85-88 | the twelve month lengths add up to 366 in a leap year and 365 otherwise |
| `Utils.MonthDayFrom` | pkg/tle/utils.go:93-100 | the scan from any table entry reports a month of 1..12 |
| `Utils.DayOfYearToMonthDay` | pkg/tle/utils.go:83-103 | the array scan with early break returns the pair the scan function gives |
| `Utils.MonthDayFromInRange` | pkg/tle/utils.go:93-100 | a day count within the remaining months lands in a month at or after the start entry, on a day of that month, with the month-length sums adding up |
| `Utils.MonthDayInRange` | pkg/tle/utils.go:83-103 | for 1 <= d <= year length: month in 1..12, 1 <= day <= that month's length, and the preceding months' lengths plus day equal d |
| `Utils.MonthDayFromPastEnd` | pkg/tle/utils.go:93-102 | a day count past the remaining months falls off the table and leaves (1, 0) |
| `Utils.MonthDay` | pkg/tle/utils.go:83-103 | the (month, day) pair the scan gives always has a month of 1..12 |
| `Utils.MonthDayOutOfRange` | pkg/tle/utils.go:90-102 | d <= 0 gives (1, d), d beyond the year gives (1, 0), and the month is never 13, so the month-13 branch of `Days2mdhms` is dead |
| `Utils.LeapFlagMattersFromDay60` | pkg/tle/utils.go:86-88 | the leap flag leaves the answer unchanged below day 60 and changes it for every day 60..366 |
| `Utils.PrefixLeapShift` | pkg/tle/utils.go:86-88 | past January, every partial sum of the leap table is one more than the common table's |
| `CivilTime.YearLengthMatchesLeapTest` | pkg/tle/utils.go:129 | the leap test `IsLeap` holds exactly for the years whose Gregorian length is 366 days, a length measured as the gap between two `DaysBeforeYear` values |
| `CivilTime.YearsApart` | pkg/tle/tle.go:289-292 | New Year's Days of two years lie at least 365 days apart per year between them |
| `CivilTime.DateOfYearDay` | pkg/tle/tle.go:289-292 | January 1 of the year plus (day − 1) days is a valid calendar date whose day number (`DaysFromCivil`) is `DaysBeforeYear` of the year plus day − 1 |
| `CivilTime.DayNumberAnchors` | pkg/tle/tle.go:289 | the day numbers of 1970-01-01, 2000-01-01 and 2008-09-20 are 0, 10957 and 14142 |
| `Tle.Line1Column` | pkg/tle/tle.go:69-84 | every line-1 column range lies within 69 characters |
| `Tle.Line2Column` | pkg/tle/tle.go:132-143 | every line-2 column range lies within 69 characters |
| `Tle.Line1Of` | pkg/tle/tle.go:59-62 | the too-short error exactly when the line has fewer than 69 characters; otherwise either a record or the normaliser's panic; a record keeps the line verbatim and an empty line number |
| `Tle.Mask1Step` | pkg/tle/tle.go:89-116 | each switch case writes its own field and no other |
| `Tle.Visit1Step` | pkg/tle/tle.go:87-117 | one loop turn stores one more field of the final record, or meets the normaliser's panic |
| `Tle.Line1Get` | pkg/tle/tle.go:88-116 | `Line1Values`, the record read from a long enough line, in which every line-1 field is its trimmed column; the three notation fields go through the normaliser; the line number is `""` |
| `Tle.ReadTleLine1` | pkg/tle/tle.go:59-120 | the loop over the column map, in any order, returns what `Line1Of` gives |
| `Tle.Line2Of` | pkg/tle/tle.go:122-125 | an error exactly when the line has fewer than 69 characters, and then the too-short error; a record keeps the line verbatim and an empty line number |
| `Tle.Mask2Step` | pkg/tle/tle.go:148-167 | each switch case writes its own field and no other |
| `Tle.Line2Get` | pkg/tle/tle.go:147-167 | `Line2Values`, the record read from a long enough line, in which every line-2 field is its trimmed column; the eccentricity gets `"0."` in front; the line number is `""` |
| `Tle.ReadTleLine2` | pkg/tle/tle.go:122-171 | the loop over the column map, in any order, returns what `Line2Of` gives |
| `Tle.ParseTle` | pkg/tle/tle.go:172-189 | succeeds exactly when both line readers succeed; a line-1 error is passed through unchanged, and a readable line 1 with a line 2 of fewer than 69 characters gives the line-2 too-short error, so line 1 is checked first; on success the name is kept verbatim, the catalog number is empty and both lines are what the line readers give |
| `Tle.Line1OfLayout` | pkg/tle/tle.go:64-117 | a line 1 assembled from its columns reads back as each column trimmed, the notation fields normalised, or the normaliser's panic |
| `Tle.Line2OfLayout` | pkg/tle/tle.go:127-168 | a line 2 assembled from its columns reads back as each column trimmed, with `"0."` before the eccentricity |
| `Tle.IssLine1Fields` | pkg/tle/tle.go:46 | the example line 1 gives Bstar `"-.11606e-4"`, second derivative `"0.0000e-0"`, first derivative `"-.000021e82"`, epoch "08" / "264.51782528", and the other fields as written |
| `Tle.IssLine2Fields` | pkg/tle/tle.go:47 | the example line 2 gives eccentricity `"0.0006703"` and the other fields as written |
| `Tle.TleString` | pkg/tle/tle.go:56-58 | when no part holds a newline, splitting the text at newlines gives name, line 1 and line 2 |
| `TleFile.Step` | pkg/tle/tle.go:205-222 | one loop turn fails exactly on an unreadable `"1 "` line (`HasPrefix` on `"1 "` first), or on a `"2 "` line with fewer than two fields or fewer than 69 characters; a `"2 "` line appends the record being built, numbered by the second field and holding the line-2 record, and starts an empty one; every other line appends nothing and keeps the catalog number and line 2 |
| `TleFile.Fold` | pkg/tle/tle.go:202-224 | the loop run over the lines only appends to the records it started with, at most one per line |
| `TleFile.ReadTleFile` | pkg/tle/tle.go:202-224 | the loop returns `TlesOf`, what the fold of the loop body over the lines gives, which holds at most one record per line |
| `TleFile.FoldAppend` | pkg/tle/tle.go:202-224 | running over two blocks of lines is running over the first and then the second, unless the first fails |
| `TleFile.AbortIsFinal` | pkg/tle/tle.go:205-216 | once a line fails, the read fails with that error, whatever follows |
| `TleFile.OneRecordPerSecondLine` | pkg/tle/tle.go:210-219 | a successful read returns one record per `"2 "` line, in file order, holding that line |
| `TleFile.ShortLineAborts` | pkg/tle/tle.go:205-216 | a short `"1 "` or `"2 "` line fails the whole read: the line-1 error, the line-2 error, or the index panic when the `"2 "` line has one field |
| `TleFile.FoldOpenLines` | pkg/tle/tle.go:205-222 | lines before a `"2 "` line only set the name (the last other line, trimmed) and line 1 (the last `"1 "` line) |
| `TleFile.AssembleRecord` | pkg/tle/tle.go:210-219 | a `"2 "` line appends the record built since the previous one, numbered by its second field, and starts an empty record |
| `TleFile.BlankLineClearsName` | pkg/tle/tle.go:220-222 | an all-white-space line sets the name to `""` |
| `TleFile.TrailingLinesDropped` | pkg/tle/tle.go:202-230 | a name or line 1 with no `"2 "` line after it adds no record |
| `TleFile.NoradIdIsCatalogColumn` | pkg/tle/tle.go:211-212 | when columns 2..6 hold a token ended by white space, the catalog number is that token |
| `TleFile.ThreeLineFile` | pkg/tle/tle.go:202-224 | a name line, a readable line 1 and a line 2 give exactly one record made of the trimmed name, the second field and the two lines |
| `TleFile.StringThenRead` | pkg/tle/tle.go:56-58 | the text of a parsed record, split at newlines and read by the loop, gives that record back with its catalog number filled in |
| `TleFile.NoradIdOfLayout2` | pkg/tle/tle.go:211-212 | the catalog number of a line 2 assembled from its columns is its satellite column |
| `TleFile.IssFile` | pkg/tle/tle.go:45-47 | the example as a file reads as one record named "ISS (ZARYA)" with catalog number "25544" |
| `TleFile.IssLine2Catalog` | pkg/tle/tle.go:211-212 | the second field of the example line 2 is "25544" |
| `TleFile.Line1OfLayoutPrefix` | pkg/tle/tle.go:205 | a line 1 assembled from its columns is taken as a line 1 |
| `Epoch.FullYearWindow` | pkg/tle/tle.go:259-264 | `FullYear`, the century pivot: a two-digit year names the one year of 1957..2056 ending in those digits |
| `Epoch.TwoCharacterInteger` | pkg/tle/tle.go:253 | a two-character year text that `Atoi` accepts is -9..99 |
| `Epoch.FractionNanos` | pkg/tle/tle.go:296-297 | the offset is within one day and is the integer nearest to fraction × 86400·10⁹, ties rounded up |
| `Epoch.NearestRounding` | pkg/tle/tle.go:297 | the quotient taken is the nearest integer and at most one day |
| `Epoch.FractionValue` | pkg/tle/tle.go:278-280 | a fraction of plain digits reads as its digits' decimal value over 10 to the number of digits; a fraction that reads at all has underscores only between digits |
| `Epoch.ShortDigitFractionsInRange` | pkg/tle/tle.go:278-286 | a fraction of at most 16 plain digits always parses, is its digits' decimal value, and passes the below-1.0 check (`RoundsToOne` is false) |
| `Epoch.ParseEpoch` | pkg/tle/tle.go:235-286 | succeeds exactly when the first '.' is at position 5, both the year and day texts are integers, the day is in 1..366 and the fraction reads; the result is then the pivoted year, the day and the fraction's offset, so the year is in 1957..2056 and the offset within one day; a fraction error found after the earlier checks pass is passed through |
| `Epoch.ReadEpoch` | pkg/tle/tle.go:240-286 | the same success condition, result and fraction-error passthrough for the part before the point and the part after it |
| `Epoch.ReadFraction` | pkg/tle/tle.go:278-286 | succeeds exactly when the fraction reads and does not round to 1.0 (`RoundsToOne`), and then gives the rounded offset of that value, within one day; it is the malformed error exactly when the fraction does not read, and otherwise the only error is a fraction not below 1.0 |
| `Epoch.DigitEpoch` | pkg/tle/tle.go:235-297 | an epoch of two year digits, three day digits in 1..366, a point and at most 16 fraction digits always parses, to the pivoted year, the day and the rounded offset of the fraction's decimal value |
| `Epoch.Instant` | pkg/tle/tle.go:289-300 | the instant is the day number of the calendar date of the day of the year, times the nanoseconds of a day, plus the offset |
| `Epoch.InstantWindow` | pkg/tle/tle.go:289-300 | the instant of an accepted epoch lies between midnight of 1957-01-01 and midnight of 2057-01-01 |
| `Epoch.Time` | pkg/tle/tle.go:234-304 | on `EpochText`, the epoch year and day fields joined: succeeds exactly when the epoch parses, with the same error otherwise; the result is that epoch's instant, within 1957-01-01 to 2057-01-01 |
| `Epoch.SplitAtFirstPoint` | pkg/tle/tle.go:236-241 | the epoch text is split at its first '.' |
| `Epoch.EpochErrorOrder` | pkg/tle/tle.go:235-275 | each error holds exactly when the earlier checks pass and its own fails: no point, part before the point not 5 characters, year not an integer, day not an integer, day outside 1..366 |
| `Epoch.TimeLandsOnDate` | pkg/tle/tle.go:288-303 | the instant is midnight UTC of a valid calendar date (January 1 plus day − 1 days), plus an offset of at most one day |
| `Epoch.Day366` | pkg/tle/tle.go:273-292 | day 366 is January 1 of the next year in a common year and December 31 in a leap year |
| `Epoch.FractionWithExponent` | pkg/tle/tle.go:278-286 | the fraction text `"5e1"` is read as 5 and rejected as out of range |
| `Epoch.ExponentFractionRejected` | pkg/tle/tle.go:278-286 | the epoch `"08264.5e1"` fails with the out-of-range error |
| `Epoch.IssFraction` | pkg/tle/tle.go:278-297 | fraction "51782528" gives 44740104192000 ns, that is 12:25:40.104192 |
| `Epoch.LeapDay264` | pkg/tle/utils.go:83-103 | day 264 of a leap year is September 20 by the month scan |
| `Epoch.IssDate` | pkg/tle/tle.go:289-292 | day 264 of 2008 is 2008-09-20 |
| `Epoch.IssEpoch` | pkg/tle/tle.go:235-303 | "08" + "264.51782528" is day 264 of 2008 plus 44740104192000 ns, on 2008-09-20 |
| `Epoch.IssTime` | pkg/tle/tle.go:233-303 | the example record's epoch is 2008-09-20T12:25:40.104192Z |
| `Epoch.SignedYearExamples` | pkg/tle/tle.go:253-264 | `"-5"` reads as -5 and pivots to 1995; `"+7"` reads as 7 and pivots to 2007 |
| `Epoch.PivotExamples` | pkg/tle/tle.go:259-264 | "57" gives 1957, "99" gives 1999, "00" gives 2000 and "56" gives 2056 |

## Left out

- The file and scanner plumbing of `ReadTLEFile` (`os.Open`, `bufio.Scanner`, `scanner.Err`, pkg/tle/tle.go:192-198,226-228) is I/O. The loop runs over a given sequence of lines, and a scanner error cannot arise.
- `Epoch.FractionNanos`: the float64 rounding is not modelled. The model does not round the parsed fraction, and does not round its product by 86400e9. It takes the exact real value instead. The offset can therefore differ from the Go result by one nanosecond when the exact product lies very close to a half nanosecond.
- `Epoch.ReadFraction`: a fraction whose exponent is so large that `strconv.ParseFloat` overflows to infinity gives a parse error in Go. The model reports it as FractionOutOfRange.
- `Epoch.ReadFraction`: `strconv.ParseFloat` stops reading the exponent at 10000. The model reads the exponent exactly, which gives a different value only for mantissas with about ten thousand digits.
- Hexadecimal, `inf` and `nan` forms of `strconv.ParseFloat` are left out. The prefix "0." excludes all three.
- `NormalizeAngle` (pkg/tle/utils.go:72-80) is float `math.Mod` arithmetic, so it is left out.
- The whole/fraction split and the hour/minute/second part of `Days2mdhms` (pkg/tle/utils.go:124-126,140-154) are float arithmetic, so they are left out. Its leap test is modelled. Its month-13 branch is not modelled; `Utils.MonthDayOutOfRange` proves that branch unreachable.
- `ParseFloat` and `ParseInt` (pkg/tle/utils.go:105-120) are thin `strconv` wrappers that panic, so they are left out.
- The Go `time` library (`time.Date`, `AddDate`, `Duration`, `.UTC()`) is replaced by integer day-number arithmetic. The result is that arithmetic's nanosecond count, not a `time.Time`.
- `GoStrings.Atoi` covers strings shorter than 19 bytes, where `strconv.Atoi` cannot overflow. Its range error on longer strings is left out; the epoch year and day are 2 and 3 characters.
- Strings are sequences of characters and white space is ASCII white space. Unicode white space and UTF-8 decoding are left out.
- Error messages are not modelled. Each error is a datatype constructor.
- Panics are error values. `ParseScientificNotation` gives `None` and the line reader gives `SliceOutOfRange`. The `components[1]` panic gives `IndexOutOfRange`. Go would unwind the stack instead.
- `GoStrings.Split`: the general piece-by-piece property of `strings.Split` is not stated. Only the three-piece case needed for `TLE.String` is proved.
- The demo programs examples/tle/main.go and examples/positioning/main.go do file reads and printing, so they are left out. The propagator they call is not part of this model.
