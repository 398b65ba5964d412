# Timestamp normaliser of `DateUtils.parseDateJdk`

`DateUtils.parseDateJdk` (elasticsearch-hadoop, `mr` module) turns an ISO 8601
date-time string into a `java.util.Calendar`. It delegates the parse to
`javax.xml.bind.DatatypeConverter.parseDateTime`, which only accepts the
`xsd:dateTime` lexical form (XML Schema Part 2, section 3.2.7). Before that
call it rewrites two ISO 8601 notations that `xsd:dateTime` lacks:

1. **Offset normalisation.** A UTC offset `±hh` or `±hhmm` (ISO 8601:2004,
   section 4.2.5.1) becomes `±hh:mm`. The sign is the first `+` at or after
   the time separator `T`. Only when there is no such `+` is it the first `-`
   at or after `T`. The character three places after the sign decides the case:
   - past the end of the string: `":00"` is appended;
   - not a `:`: a `:` is inserted there;
   - a `:`: nothing changes.
2. **Ordinal-date conversion.** An ordinal date `YYYY-DDD` (section 4.1.3)
   becomes the calendar date `YYYY-MM-DD` (section 4.1.2). This happens when
   the string has a `T` after index 0 and exactly one `-` in the whole string,
   after index 0. The year and the day of the year are read with
   `Integer.parseInt` and resolved with a `Calendar`. The result is the
   formatted date followed by the offset-normalised string from `T` on.

The project models this rewrite as pure Dafny functions and proves what it
guarantees. The modules are:

- `Wrappers`: `Option` and `Result`. Java exceptions become `Failure` values.
- `JavaString`: `String.indexOf(c, from)`, and how searches behave on
  concatenated and spliced strings.
- `Decimal`: `Integer.parseInt` for radix 10, and the zero-padded decimal
  rendering of the `%tY`, `%tm` and `%td` conversions.
- `Gregorian`: leap years, month lengths, and the conversion between day of
  year and month/day that `Calendar.set(DAY_OF_YEAR, …)` performs.
- `DateUtils`: the routine itself, split into named steps. These are
  `OffsetSign`, `NormalizeOffset`, `OrdinalFields`, `ConvertOrdinal` and
  `FormatDate`. `Normalize` combines them (source lines 40-76), and
  `ParseDateJdk` adds the final parse.
- `DateUtilsProperties`: the lemmas about the routine.
- `DateUtilsExamples`: worked inputs derived from those lemmas.

Indices are the 0-based `int`s of the Java code, and -1 means "not found".

Notes on behaviour a reader might not expect:
- The two dash indices are looked up in the whole original string, not only
  before `T`. A negative offset is therefore a second dash, and it turns the
  ordinal conversion off (`NegativeOffsetBlocksOrdinal`,
  `NegativeOffsetExample`). If the only dash lies after `T`, the "year"
  substring contains the `T` and `parseInt` throws (`DashAfterTimeFails`).
- All three index guards are strict `> 0` tests.
- The day of the year is not range-checked by the routine. The
  `DateUtils.Normalize` entry under "## Left out" gives the range the model
  covers.

## Model

| member | source | states |
|---|---|---|
| `JavaString.IndexOf` | mr/src/main/java/org/elasticsearch/hadoop/util/DateUtils.java:41-43 | the result is -1 or an index at or after `from` (negative `from` meaning 0) that holds the character |
| `JavaString.IndexOfFirst` | mr/src/main/java/org/elasticsearch/hadoop/util/DateUtils.java:41-43 | no index between `from` and the result (or the end, when -1) holds the character: `indexOf` finds the first occurrence |
| `JavaString.IndexOfUnique` | mr/src/main/java/org/elasticsearch/hadoop/util/DateUtils.java:41-43 | any index with the first-occurrence property is the one `indexOf` returns |
| `JavaString.IndexOfConcat` | mr/src/main/java/org/elasticsearch/hadoop/util/DateUtils.java:41-48 | a search in `p + q` finds the left part's occurrence first, otherwise the right part's, shifted by the length of `p` |
| `JavaString.IndexOfInsert` | mr/src/main/java/org/elasticsearch/hadoop/util/DateUtils.java:57-60 | splicing in text without the character keeps a search that starts at or before the splice finding the same occurrence, moved past the inserted text when it lies after the splice |
| `Decimal.ParseInt` | mr/src/main/java/org/elasticsearch/hadoop/util/DateUtils.java:70-71 | `Integer.parseInt`: a result exists only for an optional leading sign followed by at least one ASCII digit, and lies in the 32-bit `int` range |
| `Decimal.ParseUnsigned` | mr/src/main/java/org/elasticsearch/hadoop/util/DateUtils.java:70-71 | a digit string parses to its value when that is at most 2147483647, and is rejected otherwise |
| `Decimal.ParseSigned` | mr/src/main/java/org/elasticsearch/hadoop/util/DateUtils.java:70-71 | a `+` or `-` followed by digits parses to the value or its negation when that lies in the `int` range, and is rejected otherwise |
| `Decimal.ParseNoDigits` | mr/src/main/java/org/elasticsearch/hadoop/util/DateUtils.java:70-71 | the empty string and a lone `+` or `-` are rejected |
| `Decimal.ParseIntRejects` | mr/src/main/java/org/elasticsearch/hadoop/util/DateUtils.java:70-71 | a character that is neither a digit nor a leading sign makes `parseInt` fail |
| `Decimal.ParseDigits` | mr/src/main/java/org/elasticsearch/hadoop/util/DateUtils.java:70-71 | a digit string whose value fits in an `int` parses to that value, leading zeros included |
| `Decimal.NatToDigits` | mr/src/main/java/org/elasticsearch/hadoop/util/DateUtils.java:74 | the rendering is a non-empty digit string denoting exactly `n`, with no leading zero unless `n` is 0 |
| `Decimal.ZeroPad` | mr/src/main/java/org/elasticsearch/hadoop/util/DateUtils.java:74 | the padded rendering has length max(width, digit count), is all digits and still denotes `n` |
| `Decimal.LeadingZerosValue` | mr/src/main/java/org/elasticsearch/hadoop/util/DateUtils.java:74 | prefixing zeros does not change the value of a digit string |
| `Decimal.ParseZeroPad` | mr/src/main/java/org/elasticsearch/hadoop/util/DateUtils.java:70-74 | round trip: `parseInt` of the zero-padded rendering of `n` gives back `n` |
| `Gregorian.LeapYearRule` | mr/src/main/java/org/elasticsearch/hadoop/util/DateUtils.java:72-73 | the leap rule behind the `Calendar` lookup repeats every 400 years: 1900 and 2023 are common years, 2000 and 2024 leap years |
| `Gregorian.DaysInMonth` | mr/src/main/java/org/elasticsearch/hadoop/util/DateUtils.java:72-73 | months have 28 to 31 days, 29 exactly for February of a leap year and 28 exactly for February of a common year |
| `Gregorian.DaysBeforeMonthBounds` | mr/src/main/java/org/elasticsearch/hadoop/util/DateUtils.java:72-73 | the days before month `m2` are at least the days before month `m1` plus the length of month `m1` when `m1 < m2` |
| `Gregorian.YearOfMonths` | mr/src/main/java/org/elasticsearch/hadoop/util/DateUtils.java:72-73 | the twelve month lengths add up to 366 in a Gregorian leap year and 365 otherwise |
| `Gregorian.DayOfYear` | mr/src/main/java/org/elasticsearch/hadoop/util/DateUtils.java:72-73 | the ordinal day of a valid date lies between 1 and the length of its year |
| `Gregorian.OrdinalToDate` | mr/src/main/java/org/elasticsearch/hadoop/util/DateUtils.java:69-73 | for `1 <= doy <= DaysInYear(y)` the result is a valid date of year `y` whose ordinal day is `doy` |
| `Gregorian.DayOfYearInjective` | mr/src/main/java/org/elasticsearch/hadoop/util/DateUtils.java:72-73 | two valid dates of one year with the same ordinal day are equal |
| `Gregorian.OrdinalRoundTrip` | mr/src/main/java/org/elasticsearch/hadoop/util/DateUtils.java:72-73 | round trip: converting a valid date to its ordinal day and back gives the date |
| `DateUtils.TimeIndex` | mr/src/main/java/org/elasticsearch/hadoop/util/DateUtils.java:41 | `value.indexOf("T")`: -1 when there is no `T`, otherwise the index of the first `T` |
| `DateUtils.DashIndex` | mr/src/main/java/org/elasticsearch/hadoop/util/DateUtils.java:42 | `value.indexOf("-")` over the whole string: -1 when there is no `-`, otherwise the index of the first `-` |
| `DateUtils.SecondDashIndex` | mr/src/main/java/org/elasticsearch/hadoop/util/DateUtils.java:43 | `value.indexOf("-", dashIndex + 1)`: -1 when no `-` follows the first one, otherwise the index of the next `-` |
| `DateUtils.OrdinalFields` | mr/src/main/java/org/elasticsearch/hadoop/util/DateUtils.java:70-71 | the two `parseInt` calls in order: success exactly when the year parses, the substring bounds are ordered and the day of year parses, with those two values. An unparsable year fails on the year text first, then an unparsable day of year on its text, and the out-of-bounds failure only when `dashIndex + 1 > timeZoneIndex` |
| `DateUtils.OffsetSign` | mr/src/main/java/org/elasticsearch/hadoop/util/DateUtils.java:46-49 | the sign is at or after `T` and is -1 exactly when no `+` or `-` follows `T`. A `+` found is the first `+` after `T`. A `-` found means there is no `+` after `T` and it is the first `-` there |
| `DateUtils.NormalizeOffset` | mr/src/main/java/org/elasticsearch/hadoop/util/DateUtils.java:51-62 | the length grows by 0 to 3. Without a sign nothing changes. Everything before sign+3 is kept. When the sign has its two hour digits, sign+3 now holds `:` |
| `DateUtils.FormatDate` | mr/src/main/java/org/elasticsearch/hadoop/util/DateUtils.java:74 | `%tY-%tm-%td`: the padded year, month and day separated by `-` at the positions the padded lengths give |
| `DateUtils.ConvertOrdinal` | mr/src/main/java/org/elasticsearch/hadoop/util/DateUtils.java:64-75 | it fails exactly when one of the two `parseInt` calls (or the substring) throws. On success the result ends with the normalised string from `T` on |
| `DateUtils.Normalize` | mr/src/main/java/org/elasticsearch/hadoop/util/DateUtils.java:40-76 | with no `T` after index 0 the input comes back unchanged. Off the ordinal branch only the offset is normalised. A failure happens only on the ordinal branch |
| `DateUtils.ParseDateJdk` | mr/src/main/java/org/elasticsearch/hadoop/util/DateUtils.java:39-79 | an exception from the rewrite propagates. Otherwise the result is the parser's answer on the normalised string, and a rejection becomes `IllegalArgument` |
| `DateUtilsProperties.BareHourOffset` | mr/src/main/java/org/elasticsearch/hadoop/util/DateUtils.java:54-57 | when sign+3 is past the end, the result is the input followed by `":00"`, 3 characters longer |
| `DateUtilsProperties.HourMinuteOffset` | mr/src/main/java/org/elasticsearch/hadoop/util/DateUtils.java:59-60 | `±hhmm`: one `:` is inserted at sign+3. The prefix before it is unchanged, the rest shifts by one, and the length grows by 1 |
| `DateUtilsProperties.ConformingOffsetUnchanged` | mr/src/main/java/org/elasticsearch/hadoop/util/DateUtils.java:52-61 | `±hh:mm`, or no sign at all: offset normalisation is the identity |
| `DateUtilsProperties.OffsetSplice` | mr/src/main/java/org/elasticsearch/hadoop/util/DateUtils.java:54-60 | the rewrite inserts `""`, `":"` or `":00"` at a point after `T` and not after sign+3 |
| `DateUtilsProperties.OffsetKeepsSign` | mr/src/main/java/org/elasticsearch/hadoop/util/DateUtils.java:46-60 | the rewritten string has its offset sign at the same index |
| `DateUtilsProperties.NormalizedOffsetConforms` | mr/src/main/java/org/elasticsearch/hadoop/util/DateUtils.java:52-61 | when the sign has its two hour digits, the rewritten offset is `±hh:mm` |
| `DateUtilsProperties.NormalizeOffsetIdempotent` | mr/src/main/java/org/elasticsearch/hadoop/util/DateUtils.java:52-61 | offset normalisation applied twice equals applying it once, when the sign is followed by at least two characters |
| `DateUtilsProperties.SpliceKeepsDashes` | mr/src/main/java/org/elasticsearch/hadoop/util/DateUtils.java:42-43 | splicing in text without `-` after index 0 preserves both "first dash after 0" and "no second dash" |
| `DateUtilsProperties.OffsetKeepsDatePart` | mr/src/main/java/org/elasticsearch/hadoop/util/DateUtils.java:41-71 | the rewrite keeps the prefix through `T`, the index of `T` and the ordinal guard, so the indices from the original string still select the year and day-of-year substrings |
| `DateUtilsProperties.OneDash` | mr/src/main/java/org/elasticsearch/hadoop/util/DateUtils.java:42-64 | the dash part of `OrdinalShape`, the guard `dashIndex > 0 && secondDashIndex == -1`, holds if and only if the whole string has exactly one `-`, at an index above 0 |
| `DateUtilsProperties.NegativeOffsetBlocksOrdinal` | mr/src/main/java/org/elasticsearch/hadoop/util/DateUtils.java:42-64 | a date dash followed by a `-` offset sign is a second dash, so the ordinal branch is not taken |
| `DateUtilsProperties.OrdinalInModel` | mr/src/main/java/org/elasticsearch/hadoop/util/DateUtils.java:69-73 | an ordinal date whose year and day of year are in the modelled range satisfies the model's input condition |
| `DateUtilsProperties.OrdinalConversion` | mr/src/main/java/org/elasticsearch/hadoop/util/DateUtils.java:64-74 | on the ordinal branch with both numbers parsed from the original string, the result is the formatted date of day `doy` of `year`, then the offset-normalised suffix from `T` |
| `DateUtilsProperties.OrdinalBadNumber` | mr/src/main/java/org/elasticsearch/hadoop/util/DateUtils.java:70-71 | a non-numeric year or day of year on the ordinal branch makes the routine fail with NumberFormatException |
| `DateUtilsProperties.DashAfterTimeFails` | mr/src/main/java/org/elasticsearch/hadoop/util/DateUtils.java:70 | when the only dash lies after `T`, the year substring contains `T` and the routine fails with NumberFormatException on it |
| `DateUtilsProperties.NormalizeFailsOnlyOnNumbers` | mr/src/main/java/org/elasticsearch/hadoop/util/DateUtils.java:64-76 | every failure of the rewrite is a NumberFormatException on the ordinal branch. The out-of-bounds `substring` never happens |
| `DateUtilsProperties.TwoDigits` | mr/src/main/java/org/elasticsearch/hadoop/util/DateUtils.java:74 | a month or day from 1 to 99 renders in exactly two characters |
| `DateUtilsProperties.FormatDateFields` | mr/src/main/java/org/elasticsearch/hadoop/util/DateUtils.java:74 | the formatted date is 6 characters longer than the year, and its year, month and day substrings parse back to the date's fields |
| `DateUtilsProperties.FormatDateSearches` | mr/src/main/java/org/elasticsearch/hadoop/util/DateUtils.java:74 | the formatted date has no `T`, and its first two dashes follow the year (at least 4 digits) and the month |
| `DateUtilsProperties.ConformingUnchanged` | mr/src/main/java/org/elasticsearch/hadoop/util/DateUtils.java:45-76 | a string with no `T` after 0, or one with a conforming offset that is not in one-dash ordinal form, comes back unchanged |
| `DateUtilsProperties.SearchAfterPrefix` | mr/src/main/java/org/elasticsearch/hadoop/util/DateUtils.java:74 | replacing everything before `T` with another prefix moves every search from `T` by the change in length |
| `DateUtilsProperties.OffsetConformsAfterPrefix` | mr/src/main/java/org/elasticsearch/hadoop/util/DateUtils.java:74 | replacing the date part keeps a conforming offset conforming |
| `DateUtilsProperties.FormattedDateNotOrdinal` | mr/src/main/java/org/elasticsearch/hadoop/util/DateUtils.java:64-74 | a formatted date followed by a time has its `T` right after the date and is not in ordinal form |
| `DateUtilsProperties.OrdinalOutputFixed` | mr/src/main/java/org/elasticsearch/hadoop/util/DateUtils.java:64-74 | the ordinal branch's output, a formatted date plus a conforming offset, is a fixed point of the rewrite |
| `DateUtilsProperties.NormalizeIdempotent` | mr/src/main/java/org/elasticsearch/hadoop/util/DateUtils.java:40-76 | normalising a successful result again changes nothing when the offset sign has its two hour digits, on both branches |
| `DateUtilsProperties.ParseConforming` | mr/src/main/java/org/elasticsearch/hadoop/util/DateUtils.java:78 | a string the rewrite leaves alone reaches the parser unchanged |
| `DateUtilsExamples.BareHourExample` | mr/src/main/java/org/elasticsearch/hadoop/util/DateUtils.java:54-57 | `2020-01-02T03:04:05+01` becomes `2020-01-02T03:04:05+01:00` |
| `DateUtilsExamples.HourMinuteExample` | mr/src/main/java/org/elasticsearch/hadoop/util/DateUtils.java:59-60 | `2020-01-02T03:04:05+0130` becomes `2020-01-02T03:04:05+01:30` |
| `DateUtilsExamples.NoTimeExample` | mr/src/main/java/org/elasticsearch/hadoop/util/DateUtils.java:45 | `not-a-date` reaches the parser unchanged |
| `DateUtilsExamples.Day34Example` | mr/src/main/java/org/elasticsearch/hadoop/util/DateUtils.java:64-74 | `YYYY-034T00:00:00Z` becomes the 3rd of February of that year, leap or not, followed by `T00:00:00Z` |
| `DateUtilsExamples.FormatDateExample` | mr/src/main/java/org/elasticsearch/hadoop/util/DateUtils.java:74 | the 3rd of February 2020 formats as `2020-02-03` |
| `DateUtilsExamples.Day60Example` | mr/src/main/java/org/elasticsearch/hadoop/util/DateUtils.java:72-73 | day 60 is the 29th of February in 2020 and the 1st of March in 2021 |
| `DateUtilsExamples.NegativeOffsetExample` | mr/src/main/java/org/elasticsearch/hadoop/util/DateUtils.java:42-64 | `2020-034T00:00:00-05` keeps its ordinal date and becomes `2020-034T00:00:00-05:00` |
| `DateUtilsExamples.DashAfterTimeExample` | mr/src/main/java/org/elasticsearch/hadoop/util/DateUtils.java:70 | `2020T10:00-05` fails with NumberFormatException on `2020T10:00` |

## Left out

- `DatatypeConverter.parseDateTime` (line 78) is the `xsd:dateTime` grammar of a foreign library. `ParseDateJdk` takes it as a function parameter that returns a value or rejects the string. The `Calendar` it builds is not modelled.
- DateUtils.Normalize: requires `ModelledInput`. On the ordinal branch, when both numbers parse, the year must be between 1583 and 292278993 and the day of the year between 1 and the length of that year. Outside that range `Calendar` rolls the date over leniently, crosses the Julian/Gregorian cutover of 1582, or leaves the range of its 64-bit millisecond instant. None of that is modelled. `ParseDateJdk`, `ConvertOrdinal` and the lemmas about the ordinal branch carry the same restriction.
- The default time zone and locale behind `Calendar.getInstance()` are not modelled. The model assumes a Gregorian default calendar and a default time zone in which the date exists. A Buddhist (`th_TH`) or Japanese imperial (`ja_JP_JP`) default calendar reads the year differently. A zone that skipped a whole day, such as Pacific/Apia on 2011-12-30, rolls that date over leniently.
- `String.format` is modelled only as the zero-padded decimal rendering of `%tY`, `%tm` and `%td`.
- Decimal.ParseInt: accepts only ASCII digits. Java's `Character.digit` also accepts other Unicode decimal digits, such as Arabic-Indic digits.
- `String` is a sequence of Unicode characters, not of Java's UTF-16 code units. The `sign + 3` position of the colon (lines 54-60) is counted in characters. For an offset that contains a supplementary character (outside the Basic Multilingual Plane), Java counts two units for it. Java therefore places or tests the colon at a different position, possibly between the two halves of a surrogate pair. The model does not capture this.
