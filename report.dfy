/** format_temperature, convert_f_to_c, generate_summary and
    generate_daily_summary of weather.py. */
module Report {
  import opened Wrappers
  import opened Numerals
  import opened Statistics
  import opened Loader

  /** DEGREE_SYMBOL: the degree sign followed by C. */
  const DegreeSymbol: string := "\U{B0}C"

  /** format_temperature on a value whose str() is `text`. */
  function FormatTemperature(text: string): (r: string)
    ensures |r| == |text| + |DegreeSymbol|
    ensures r[..|text|] == text && r[|text|..] == DegreeSymbol
  {
    text + DegreeSymbol
  }

  /** (f - 32) * 5 / 9 before rounding, in exact arithmetic. */
  function FahrenheitToCelsius(f: real): (c: real)
    ensures c * 9.0 / 5.0 + 32.0 == f
  {
    (f - 32.0) * 5.0 / 9.0
  }

  /** What the model leaves uninterpreted: show(c) is the text that
      str(round(c, 1)) gives for a Celsius value c, and date(iso) is what
      convert_date gives for an ISO date. */
  datatype Renderer = Renderer(show: real -> string, date: string -> string)

  /** format_temperature(convert_f_to_c(f)). */
  function TemperatureText(f: real, fmt: Renderer): string {
    FormatTemperature(fmt.show(FahrenheitToCelsius(f)))
  }

  /** The low temperatures of the records, in order. */
  function Lows(data: seq<Record>): (r: seq<int>)
    ensures |r| == |data|
  {
    seq(|data|, k requires 0 <= k < |data| => data[k].low)
  }

  /** The high temperatures of the records, in order. */
  function Highs(data: seq<Record>): (r: seq<int>)
    ensures |r| == |data|
  {
    seq(|data|, k requires 0 <= k < |data| => data[k].high)
  }

  /** The loop of generate_summary that builds min_list and max_list. */
  method SplitColumns(data: seq<Record>) returns (minList: seq<Entry>, maxList: seq<Entry>)
    ensures |minList| == |data| && |maxList| == |data|
    ensures forall k :: 0 <= k < |data| ==>
      minList[k] == Reading(data[k].low) && maxList[k] == Reading(data[k].high)
  {
    minList, maxList := [], [];
    for k := 0 to |data|
      invariant |minList| == k && |maxList| == k
      invariant forall j :: 0 <= j < k ==>
        minList[j] == Reading(data[j].low) && maxList[j] == Reading(data[j].high)
    {
      minList := minList + [Reading(data[k].low)];
      maxList := maxList + [Reading(data[k].high)];
    }
  }

  /** The five-line template generate_summary returns. */
  function OverviewText(day: string, minTemp: string, minDate: string, maxTemp: string,
                        maxDate: string, avgLow: string, avgHigh: string): string
  {
    day + " Day Overview\n"
    + "  The lowest temperature will be " + minTemp + ", and will occur on " + minDate + ".\n"
    + "  The highest temperature will be " + maxTemp + ", and will occur on " + maxDate + ".\n"
    + "  The average low this week is " + avgLow + ".\n"
    + "  The average high this week is " + avgHigh + ".\n"
  }

  /** The exception generate_summary raises on an empty list: find_min
      returns () and `min_f, min_index = ()` fails to unpack. */
  datatype SummaryError = NothingToUnpack

  /** generate_summary. On a non-empty list it reports the lowest low with
      the date of the last day that has it, the highest high with the date
      of the last day that has it, and the means of the lows and highs. */
  method GenerateSummary(data: seq<Record>, fmt: Renderer) returns (r: Result<string, SummaryError>)
    ensures r.Failure? <==> data == []
    ensures r.Success? ==>
      var i := LastMinIndex(Lows(data));
      var j := LastMaxIndex(Highs(data));
      r.value == OverviewText(IntToString(|data|),
        TemperatureText(data[i].low as real, fmt), fmt.date(data[i].date),
        TemperatureText(data[j].high as real, fmt), fmt.date(data[j].date),
        TemperatureText(Mean(Lows(data)), fmt), TemperatureText(Mean(Highs(data)), fmt))
  {
    var day := |data|;
    var minList, maxList := SplitColumns(data);
    // every loaded temperature is an int, so none is filtered out and an
    // index into `cleaned` is an index into data
    assert minList == Readings(Lows(data));
    assert maxList == Readings(Highs(data));
    CleanedReadings(Lows(data));
    CleanedReadings(Highs(data));

    var lowest := FindMin(minList);
    if lowest.NoResult? {
      return Failure(NothingToUnpack);
    }
    FindMinMatchesScan(minList);
    var minF, minIndex := lowest.value, lowest.index;
    var minC := FahrenheitToCelsius(minF as real);
    var minCd := FormatTemperature(fmt.show(minC));

    assert maxList[0].Reading?;
    var highest := FindMax(maxList);
    FindMaxMatchesScan(maxList);
    var maxF, maxIndex := highest.value, highest.index;
    var maxC := FahrenheitToCelsius(maxF as real);
    var maxCd := FormatTemperature(fmt.show(maxC));

    var minDate := data[minIndex].date;
    var minIsoDate := fmt.date(minDate);
    var maxDate := data[maxIndex].date;
    var maxIsoDate := fmt.date(maxDate);

    var averageLow := Mean(Lows(data));
    var avgMinCd := FormatTemperature(fmt.show(FahrenheitToCelsius(averageLow)));
    var averageHigh := Mean(Highs(data));
    var avgMaxCd := FormatTemperature(fmt.show(FahrenheitToCelsius(averageHigh)));

    return Success(OverviewText(IntToString(day), minCd, minIsoDate, maxCd, maxIsoDate, avgMinCd, avgMaxCd));
  }

  /** The day of the summary's lowest temperature is the last day whose low
      is not above any other day's low. */
  lemma LowestDay(data: seq<Record>)
    requires data != []
    ensures var i := LastMinIndex(Lows(data));
      && 0 <= i < |data|
      && (forall k :: 0 <= k < |data| ==> data[i].low <= data[k].low)
      && (forall k :: i < k < |data| ==> data[k].low != data[i].low)
  {
    var i := LastMinIndex(Lows(data));
    forall k | 0 <= k < |data|
      ensures data[i].low <= data[k].low
      ensures i < k ==> data[k].low != data[i].low
    {
      assert Lows(data)[k] == data[k].low;
    }
  }

  /** The day of the summary's highest temperature is the last day whose high
      is not below any other day's high. */
  lemma HighestDay(data: seq<Record>)
    requires data != []
    ensures var j := LastMaxIndex(Highs(data));
      && 0 <= j < |data|
      && (forall k :: 0 <= k < |data| ==> data[k].high <= data[j].high)
      && (forall k :: j < k < |data| ==> data[k].high != data[j].high)
  {
    var j := LastMaxIndex(Highs(data));
    forall k | 0 <= k < |data|
      ensures data[k].high <= data[j].high
      ensures j < k ==> data[k].high != data[j].high
    {
      assert Highs(data)[k] == data[k].high;
    }
  }

  /** The block template of generate_daily_summary, filled with the date
      and the two formatted temperatures. */
  function DayBlockText(date: string, minCd: string, maxCd: string): string {
    "---- " + date + " ----\n"
    + "  Minimum Temperature: " + minCd + "\n"
    + "  Maximum Temperature: " + maxCd + "\n\n"
  }

  /** One block of generate_daily_summary: the template filled for one
      record. */
  function DayBlock(record: Record, fmt: Renderer): string {
    DayBlockText(fmt.date(record.date), TemperatureText(record.low as real, fmt),
      TemperatureText(record.high as real, fmt))
  }

  /** One block per record, in record order. */
  function DayBlocks(data: seq<Record>, fmt: Renderer): (r: seq<string>)
    ensures |r| == |data|
  {
    seq(|data|, k requires 0 <= k < |data| => DayBlock(data[k], fmt))
  }

  /** The strings joined end to end, in order. */
  function Concat(parts: seq<string>): string {
    if parts == [] then "" else Concat(parts[..|parts| - 1]) + parts[|parts| - 1]
  }

  /** generate_daily_summary: the blocks of all records, in order. */
  method GenerateDailySummary(data: seq<Record>, fmt: Renderer) returns (dailyOutput: string)
    ensures dailyOutput == Concat(DayBlocks(data, fmt))
  {
    dailyOutput := "";
    for k := 0 to |data|
      invariant dailyOutput == Concat(DayBlocks(data[..k], fmt))
    {
      var dailyReport := data[k];
      var minC := FahrenheitToCelsius(dailyReport.low as real);
      var maxC := FahrenheitToCelsius(dailyReport.high as real);
      var date := fmt.date(dailyReport.date);
      var minCd := FormatTemperature(fmt.show(minC));
      var maxCd := FormatTemperature(fmt.show(maxC));
      assert DayBlocks(data[..k + 1], fmt)[..k] == DayBlocks(data[..k], fmt);
      dailyOutput := dailyOutput + DayBlockText(date, minCd, maxCd);
    }
    assert data[..|data|] == data;
  }

  lemma {:induction false} ConcatAppend(a: seq<string>, b: seq<string>)
    ensures Concat(a + b) == Concat(a) + Concat(b)
    decreases |b|
  {
    if b == [] {
      assert a + b == a;
    } else {
      var c := a + b;
      assert c[..|c| - 1] == a + b[..|b| - 1];
      assert c[|c| - 1] == b[|b| - 1];
      ConcatAppend(a, b[..|b| - 1]);
      assert Concat(c) == Concat(a) + Concat(b[..|b| - 1]) + b[|b| - 1];
    }
  }

  /** The daily summary of two lists one after the other is the daily
      summary of the first followed by that of the second. */
  lemma DailySplit(a: seq<Record>, b: seq<Record>, fmt: Renderer)
    ensures Concat(DayBlocks(a + b, fmt)) == Concat(DayBlocks(a, fmt)) + Concat(DayBlocks(b, fmt))
  {
    assert DayBlocks(a + b, fmt) == DayBlocks(a, fmt) + DayBlocks(b, fmt);
    ConcatAppend(DayBlocks(a, fmt), DayBlocks(b, fmt));
  }

  /** The block of record k stands after the blocks of the records before it
      and before those of the records after it. */
  lemma DailyBlockAt(data: seq<Record>, k: nat, fmt: Renderer)
    requires k < |data|
    ensures Concat(DayBlocks(data, fmt))
      == Concat(DayBlocks(data[..k], fmt)) + DayBlock(data[k], fmt) + Concat(DayBlocks(data[k + 1..], fmt))
  {
    assert data == data[..k] + [data[k]] + data[k + 1..];
    DailySplit(data[..k] + [data[k]], data[k + 1..], fmt);
    DailySplit(data[..k], [data[k]], fmt);
    assert DayBlocks([data[k]], fmt) == [DayBlock(data[k], fmt)];
    assert Concat([DayBlock(data[k], fmt)]) == DayBlock(data[k], fmt) by {
      assert [DayBlock(data[k], fmt)][..0] == [];
    }
  }

  /** The daily summary is empty exactly when there are no records. */
  lemma DailyEmpty(data: seq<Record>, fmt: Renderer)
    ensures Concat(DayBlocks(data, fmt)) == "" <==> data == []
  {
  }

  /** The two-day example: the lowest low (39) is on the second day, the
      highest high (52) on the first, and the means are 40 and 51. */
  lemma SummaryExample()
    ensures var data := [Record("2021-07-01", 41, 52), Record("2021-07-02", 39, 50)];
      && LastMinIndex(Lows(data)) == 1 && LastMaxIndex(Highs(data)) == 0
      && Mean(Lows(data)) == 40.0 && Mean(Highs(data)) == 51.0
  {
  }

  /** The conversions the Celsius figures rest on, before rounding. */
  lemma ConversionExamples()
    ensures FahrenheitToCelsius(32.0) == 0.0
    ensures FahrenheitToCelsius(212.0) == 100.0
    ensures FahrenheitToCelsius(98.6) == 37.0
  {
  }
}
