# weather.py in Dafny

A model of `weather.py`, a small library that reads daily weather records
(date, low and high temperature in Fahrenheit) from a csv file and turns
them into two text reports: a multi-day overview and a per-day listing.

| file | module | what it models |
|---|---|---|
| `wrappers.dfy` | `Wrappers` | `Option` and `Result`, for the places where Python returns nothing or raises |
| `numerals.dfy` | `Numerals` | `int()` on a csv field (`ParseInt`) and `str()` of an int (`IntToString`) |
| `statistics.dfy` | `Statistics` | `find_min`, `find_max` (the filter and the last-index tie-break) and `calculate_mean` |
| `loader.dfy` | `Loader` | the row loop of `load_data_from_csv`; records as `Record(date, low, high)` |
| `report.dfy` | `Report` | `format_temperature`, `convert_f_to_c` before rounding, `generate_summary`, `generate_daily_summary` |

`find_min` and `find_max` are pure functions that follow the code literally:
filter out `''` and `None`, take the built-in `min`/`max`, then locate it as
`len(cleaned) - 1 - cleaned[::-1].index(v)`. Their contracts state what the
doc comments promise: no result exactly when every entry is `''` or `None`,
otherwise a position in the filtered list that holds the extreme, with no
equal value after it. A separate left-to-right scan (`LastMinIndex`,
`LastMaxIndex`) is proved to choose the same position.

The three loops of the source are methods with loop invariants:
`LoadDataFromRows`, `SplitColumns` (the loop at the head of
`generate_summary`) and `GenerateDailySummary`. `GenerateSummary` shows
that the index returned by `find_min`/`find_max`, an index into the filtered
list, is a valid index into the records. This holds because every loaded
temperature is an integer, so nothing is filtered out
(`CleanedReadings`). It also shows that the dates printed are those of the
last day with the lowest low and the last day with the highest high.

The model keeps the code's own error behaviour:
- A row with only one or two fields makes `row[2]` raise `IndexError`
  (`FieldMissing`), besides the `ValueError` of a non-integer field
  (`NotAnInteger`). `row[2]` is converted before `row[1]`, so when both are
  bad the error names the third field. Fields after the third are ignored.
- A file with no rows at all makes `next(csv_reader)` raise `StopIteration`
  (`NoHeader`).
- On an empty record list `generate_summary` does not raise an error of its
  own: `find_min` returns `()` and unpacking it fails (`NothingToUnpack`).

What stays uninterpreted is passed in as a `Renderer`: `show(c)` stands
for the text `str(round(c, 1))` gives for a Celsius value, and `date(iso)`
stands for `convert_date(iso)`.

## Model

| member | source | states |
|---|---|---|
| `Numerals.TrimStart` | weather.py:77-78 | the strip int() applies in front of a field; its contract is stated by `TrimStartSpec` and `TrimStartSpaces` |
| `Numerals.TrimEnd` | weather.py:77-78 | the strip int() applies at the end of a field; its contract is stated by `TrimEndSpec` and `TrimEndSpaces` |
| `Numerals.TrimStartSpec` | weather.py:77-78 | int() ignores leading white space (space, tab, line feed, vertical tab, form feed, carriage return): what it removes is exactly the leading run of these, and what is left starts with some other character |
| `Numerals.TrimEndSpec` | weather.py:77-78 | int() ignores trailing white space: it removes exactly the trailing run of white space, and what is left ends in some other character |
| `Numerals.TrimStartSpaces` | weather.py:77-78 | white space in front of a text that starts with some other character is all that is stripped |
| `Numerals.TrimEndSpaces` | weather.py:77-78 | white space after a text that ends in some other character is all that is stripped |
| `Numerals.ParseInt` | weather.py:77-78 | int() of a csv field; its contract is stated by `ParseIntComplete`, `ParseIntSound` and `ParseIntRoundTrip` |
| `Numerals.ParseIntComplete` | weather.py:77-78 | int() accepts every optional sign followed by decimal digits, with white space around it, and returns the integer those digits denote, negated after a minus |
| `Numerals.ParseIntSound` | weather.py:77-78 | whatever int() accepts is such a text: white space, an integer text denoting the returned value, white space |
| `Numerals.ParseIntAccepts` | weather.py:77-78 | " 41\n" is read as 41 and "+052" as 52 |
| `Numerals.ParseIntRejects` | weather.py:77-78 | a field holding the separator 0x1C, inner white space, a bare sign or nothing at all is rejected |
| `Numerals.IntToString` | weather.py:166 | str() of an int starts with a minus sign exactly when the int is negative, and the rest is decimal digits |
| `Numerals.NatToString` | weather.py:166 | str() of a day count is a non-empty string of decimal digits with no leading zero |
| `Numerals.NatToStringValue` | weather.py:166 | the digits str() prints denote the number printed |
| `Numerals.ParseIntRoundTrip` | weather.py:77-78 | int() reads back every integer str() prints, negative ones included |
| `Statistics.Cleaned` | weather.py:92 | the filtered list is empty exactly when every entry is '' or None, and is no longer than the input |
| `Statistics.CleanedAppend` | weather.py:92 | the filter keeps order: filtering a concatenation is concatenating the filtered parts |
| `Statistics.CleanedReadings` | weather.py:92 | a list of plain temperatures loses nothing to the filter |
| `Statistics.Reversed` | weather.py:100 | s[::-1] has the length of s and holds s[len-1-k] at position k |
| `Statistics.IndexOf` | weather.py:100 | list.index(v) is a position holding v with no v before it |
| `Statistics.SeqMin` | weather.py:99 | min() is an element of the list and no element is smaller |
| `Statistics.SeqMax` | weather.py:119 | max() is an element of the list and no element is larger |
| `Statistics.LastOccurrence` | weather.py:100 | len(s) - 1 - s[::-1].index(v) is a position holding v with no v after it |
| `Statistics.LastIndexOf` | weather.py:120 | the reversed-list lookup returns a position holding v and no later position holds v |
| `Statistics.LastMinIndex` | weather.py:89 | a left-to-right scan finds the last position of a smallest element |
| `Statistics.LastMaxIndex` | weather.py:110 | a left-to-right scan finds the last position of a largest element |
| `Statistics.LastMinUnique` | weather.py:89 | at most one position is the last position of a smallest element |
| `Statistics.LastMaxUnique` | weather.py:110 | at most one position is the last position of a largest element |
| `Statistics.FindMin` | weather.py:83-101 | () exactly when nothing is left after dropping '' and None (by `Cleaned`, exactly when every entry is '' or None); otherwise (v, i) with i a position in the filtered list, v the element there, no element smaller and no later element equal to v |
| `Statistics.FindMax` | weather.py:104-121 | () exactly when nothing is left after dropping '' and None (by `Cleaned`, exactly when every entry is '' or None); otherwise (v, i) with i a position in the filtered list, v the element there, no element larger and no later element equal to v |
| `Statistics.FindMinMatchesScan` | weather.py:100 | the reversed-list lookup of find_min picks the same position as the left-to-right scan |
| `Statistics.FindMaxMatchesScan` | weather.py:120 | the reversed-list lookup of find_max picks the same position as the left-to-right scan |
| `Statistics.FindMaxTieExample` | weather.py:110 | find_max([5, 5, 3, 5]) is (5, 3): the last of the tied positions |
| `Statistics.FindMinAllEmptyExample` | weather.py:95-96 | find_min(['', '', None]) is () rather than an exception |
| `Statistics.Sum` | weather.py:54 | the sum in calculate_mean; its contract is stated by `SumAppend`, `SumPermutation` and `SumBounds` |
| `Statistics.Mean` | weather.py:54 | calculate_mean; its contract is stated by `MeanPermutation`, `MeanBetween` and `MeanExample` |
| `Statistics.SumAppend` | weather.py:54 | the sum of a concatenation is the sum of the sums |
| `Statistics.SumRemove` | weather.py:54 | taking one element out of a list takes it out of the sum |
| `Statistics.SumPermutation` | weather.py:54 | lists with the same elements have the same sum |
| `Statistics.MeanPermutation` | weather.py:54 | the mean does not depend on the order of the list |
| `Statistics.SumBounds` | weather.py:54 | a sum of n terms between lo and hi lies between n * lo and n * hi |
| `Statistics.MeanBetween` | weather.py:54 | the mean lies between the smallest and the largest element of the list |
| `Statistics.MeanExample` | weather.py:54 | the mean of [0, 10] is 5 |
| `Loader.ParseRow` | weather.py:76-79 | the conversion of one non-empty row; its contract is stated by `ParseRowSpec` |
| `Loader.ParseRowSpec` | weather.py:76-79 | a non-empty row converts exactly when it has three fields and the second and third are integers; the record is [row[0], int(row[1]), int(row[2])]; a short row raises IndexError and a bad third field is reported before a bad second one |
| `Loader.NonEmptyRows` | weather.py:76 | a row is kept exactly when it is one of the rows given and is non-empty; no more rows come out than go in |
| `Loader.NonEmptyRowsAppend` | weather.py:71-76 | the rows kept from two lists one after the other are those kept from the first followed by those kept from the second, so row order is kept |
| `Loader.LoadBody` | weather.py:71-79 | the loop over the rows after the header; its contract is stated by `LoadBodyStopsAtError`, `LoadBodyRecords`, `LoadBodySucceeds`, `LoadBodyFirstError` and `LoadBodyRoundTrip`, and `LoadDataFromRows` is proved equal to it |
| `Loader.LoadBodyStopsAtError` | weather.py:71-79 | once a row fails to convert, the rows after it do not change the outcome |
| `Loader.LoadDataFromRows` | weather.py:58-80 | no rows: StopIteration; otherwise the first row is skipped unread and the result is that of the loop over the remaining rows |
| `Loader.LoadBodyRecords` | weather.py:71-79 | a successful load has one record per non-empty row after the header, in row order, each the conversion of its own row |
| `Loader.LoadBodySucceeds` | weather.py:71-79 | the load succeeds exactly when every non-empty row after the header converts |
| `Loader.LoadBodyFirstError` | weather.py:71-79 | a failed load reports the error of the first non-empty row that fails, every row before it converting |
| `Loader.LoadBodyRoundTrip` | weather.py:71-79 | loading the csv rows of a list of records gives back that list unchanged |
| `Loader.LoadExample` | weather.py:70-79 | a header, two days and an empty line load as the two records, in order |
| `Loader.ShortRowExample` | weather.py:76-77 | a two-field row raises IndexError, even with a good row after it |
| `Loader.BadFieldExample` | weather.py:76-77 | a third field "n/a" raises ValueError naming that field |
| `Report.FormatTemperature` | weather.py:7-17 | the result is the value's text followed by the degree sign and C |
| `Report.TemperatureText` | weather.py:141-142 | format_temperature(convert_f_to_c(f)); its parts are stated by `FormatTemperature` and `FahrenheitToCelsius` |
| `Report.FahrenheitToCelsius` | weather.py:40-42 | the conversion before rounding is the inverse of c * 9/5 + 32 |
| `Report.ConversionExamples` | weather.py:40-42 | 32 F is 0 C, 212 F is 100 C and 98.6 F is 37 C before rounding |
| `Report.SplitColumns` | weather.py:132-138 | min_list and max_list have one entry per record, entry k being record k's low and high |
| `Report.OverviewText` | weather.py:166-171 | the five-line template generate_summary returns; `GenerateSummary` states how it is filled |
| `Report.GenerateSummary` | weather.py:124-171 | fails exactly on an empty list; otherwise the template filled with the day count, the lowest low and the date of the last day with it, the highest high and the date of the last day with it, and the mean low and high |
| `Report.LowestDay` | weather.py:148 | the day the lowest temperature is reported on has a low no other day goes below, and no later day has the same low |
| `Report.HighestDay` | weather.py:151 | the day the highest temperature is reported on has a high no other day goes above, and no later day has the same high |
| `Report.SummaryExample` | weather.py:140-158 | for the two days (41, 52) and (39, 50) the lowest low is on day 2, the highest high on day 1, and the means are 40 and 51 |
| `Report.DayBlockText` | weather.py:190-192 | the block template of generate_daily_summary; `GenerateDailySummary` builds each block from it |
| `Report.DayBlock` | weather.py:184-192 | the block of one record, with the formatted date and temperatures; `DailyBlockAt` states where it stands in the daily summary |
| `Report.DayBlocks` | weather.py:183 | one block per record |
| `Report.GenerateDailySummary` | weather.py:174-193 | the output is the blocks of all records joined in record order |
| `Report.Concat` | weather.py:182-190 | the `+=` accumulation of the blocks; its contract is stated by `ConcatAppend` |
| `Report.ConcatAppend` | weather.py:190 | joining two lists of blocks one after the other is joining their concatenation |
| `Report.DailySplit` | weather.py:183-192 | the daily summary of two lists one after the other is the first daily summary followed by the second |
| `Report.DailyBlockAt` | weather.py:183-192 | the block of record k stands after the blocks of the records before it and before those of the records after it |
| `Report.DailyEmpty` | weather.py:182 | the daily summary is empty exactly when there are no records |

## Left out

- Opening the file, its UTF-8 decoding and csv tokenising (weather.py:68-69): the loader takes the rows csv.reader would yield, as a sequence of string sequences.
- Floating point: `float()`, Python's `round(x, 1)` and `str()` of a float. Conversions and means are computed in exact real arithmetic. Rounding and printing are supplied as the `show` function of the `Renderer`.
- `convert_date` (weather.py:20-29) relies on `datetime.fromisoformat` and a locale-dependent `strftime`. It is supplied as the `date` function of the `Renderer`, and its error on a malformed date is not modelled.
- `Statistics.Mean`: the sum is exact, whereas `calculate_mean` adds floats. The empty list, on which the source divides by zero, is excluded by a precondition.
- `Statistics.FindMin` and `Statistics.FindMax` take entries that are `''`, `None` or an integer. Numeric strings or floats (which `float()` would accept) and other strings (which make it raise ValueError) are not modelled.
- `Numerals.ParseInt` accepts an optional sign and ASCII decimal digits with ASCII white space around them. The digit-group underscores, non-ASCII digits and non-ASCII white space that Python's `int()` also accepts are not modelled. Nor is the limit of 4300 digits that Python 3.11 and later put on decimal strings (`int()` raises ValueError beyond it): the model accepts any number of digits.
- `Report.SplitColumns` and `Report.GenerateSummary` take records whose temperatures are integers, as the loader produces them. A hand-made list with `''` or `None` temperatures, on which the looked-up index could point at the wrong day, is not modelled.
- The commented-out code at weather.py:73-75 and weather.py:163-165.
