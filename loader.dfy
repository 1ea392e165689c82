/** load_data_from_csv of weather.py, from the rows csv.reader yields on. */
module Loader {
  import opened Wrappers
  import opened Numerals

  /** One day: the list [date, low, high] the loader appends. */
  datatype Record = Record(date: string, low: int, high: int)

  /** The exceptions the loader lets through. */
  datatype LoadError =
    | NoHeader               // next() on a file with no rows: StopIteration
    | FieldMissing           // row[2] on a row of one or two fields: IndexError
    | NotAnInteger(text: string)  // int() on a field that is not an integer: ValueError

  /** Lines 77-79 for one non-empty row: row[2] is converted first, then
      row[1]; fields after the third are ignored. */
  function ParseRow(row: seq<string>): (r: Result<Record, LoadError>)
    requires row != []
  {
    if |row| < 3 then Failure(FieldMissing)
    else
      match ParseInt(row[2])
      case None => Failure(NotAnInteger(row[2]))
      case Some(high) =>
        match ParseInt(row[1])
        case None => Failure(NotAnInteger(row[1]))
        case Some(low) => Success(Record(row[0], low, high))
  }

  /** A row converts exactly when it has three fields whose second and third
      are integers; the record keeps the first field as the date. */
  lemma ParseRowSpec(row: seq<string>)
    requires row != []
    ensures var r := ParseRow(row);
      && (r.Success? <==> |row| >= 3 && ParseInt(row[1]).Some? && ParseInt(row[2]).Some?)
      && (r.Success? ==> r.value == Record(row[0], ParseInt(row[1]).value, ParseInt(row[2]).value))
      && (|row| < 3 ==> r == Failure(FieldMissing))
      && (|row| >= 3 && ParseInt(row[2]).None? ==> r == Failure(NotAnInteger(row[2])))
  {
  }

  /** The rows that `if row:` lets through, in order: every non-empty row
      and nothing else. */
  function NonEmptyRows(rows: seq<seq<string>>): (r: seq<seq<string>>)
    ensures |r| <= |rows|
    ensures forall k :: 0 <= k < |r| ==> r[k] != []
    ensures forall x :: x in r <==> x in rows && x != []
  {
    if rows == [] then []
    else
      var last := rows[|rows| - 1];
      NonEmptyRows(rows[..|rows| - 1]) + (if last == [] then [] else [last])
  }

  /** The filter keeps order: the rows kept from a concatenation are those
      kept from the first part followed by those kept from the second. */
  lemma {:induction false} NonEmptyRowsAppend(a: seq<seq<string>>, b: seq<seq<string>>)
    ensures NonEmptyRows(a + b) == NonEmptyRows(a) + NonEmptyRows(b)
    decreases |b|
  {
    if b == [] {
      assert a + b == a;
    } else {
      var c := a + b;
      assert c[..|c| - 1] == a + b[..|b| - 1];
      assert c[|c| - 1] == b[|b| - 1];
      NonEmptyRowsAppend(a, b[..|b| - 1]);
    }
  }

  /** The loop over the rows after the header: empty rows are skipped, the
      first row that fails to convert ends the load with its error. */
  function LoadBody(body: seq<seq<string>>): Result<seq<Record>, LoadError> {
    if body == [] then Success([])
    else
      match LoadBody(body[..|body| - 1])
      case Failure(e) => Failure(e)
      case Success(records) =>
        var row := body[|body| - 1];
        if row == [] then Success(records)
        else
          match ParseRow(row)
          case Failure(e) => Failure(e)
          case Success(record) => Success(records + [record])
  }

  /** Once a prefix of the rows fails, the rest of the rows are never read. */
  lemma {:induction false} LoadBodyStopsAtError(body: seq<seq<string>>, i: nat)
    requires i <= |body| && LoadBody(body[..i]).Failure?
    ensures LoadBody(body) == LoadBody(body[..i])
    decreases |body| - i
  {
    if i < |body| {
      var prefix := body[..|body| - 1];
      assert prefix[..i] == body[..i];
      LoadBodyStopsAtError(prefix, i);
    } else {
      assert body[..i] == body;
    }
  }

  /** load_data_from_csv with the file replaced by its rows. */
  method LoadDataFromRows(rows: seq<seq<string>>) returns (r: Result<seq<Record>, LoadError>)
    ensures rows == [] ==> r == Failure(NoHeader)
    ensures rows != [] ==> r == LoadBody(rows[1..])
  {
    if rows == [] {
      return Failure(NoHeader);
    }
    ghost var body := rows[1..];
    var reader := [];
    var i := 1;
    while i < |rows|
      invariant 1 <= i <= |rows|
      invariant LoadBody(body[..i - 1]) == Success(reader)
    {
      var row := rows[i];
      assert body[..i][..i - 1] == body[..i - 1];
      assert body[..i][i - 1] == row;
      if row != [] {
        match ParseRow(row)
        case Failure(e) =>
          LoadBodyStopsAtError(body, i);
          return Failure(e);
        case Success(record) =>
          reader := reader + [record];
      }
      i := i + 1;
    }
    assert body[..i - 1] == body;
    return Success(reader);
  }

  /** A successful load holds one record per non-empty row after the header,
      in row order, each row's own fields converted. */
  lemma {:induction false} LoadBodyRecords(body: seq<seq<string>>)
    ensures LoadBody(body).Success? ==>
      && |LoadBody(body).value| == |NonEmptyRows(body)|
      && forall k :: 0 <= k < |NonEmptyRows(body)| ==>
           ParseRow(NonEmptyRows(body)[k]) == Success(LoadBody(body).value[k])
  {
    if body != [] {
      LoadBodyRecords(body[..|body| - 1]);
    }
  }

  /** Every one of the given rows converts. */
  predicate AllConvert(rows: seq<seq<string>>)
    requires forall k :: 0 <= k < |rows| ==> rows[k] != []
  {
    forall k :: 0 <= k < |rows| ==> ParseRow(rows[k]).Success?
  }

  /** The load succeeds exactly when every non-empty row after the header
      converts. */
  lemma {:induction false} LoadBodySucceeds(body: seq<seq<string>>)
    ensures LoadBody(body).Success? <==> AllConvert(NonEmptyRows(body))
  {
    if body != [] {
      var prefix, last := body[..|body| - 1], body[|body| - 1];
      LoadBodySucceeds(prefix);
      var before := NonEmptyRows(prefix);
      if last == [] {
        assert NonEmptyRows(body) == before;
      } else {
        var rows := before + [last];
        assert NonEmptyRows(body) == rows;
        assert AllConvert(rows) <==> AllConvert(before) && ParseRow(last).Success? by {
          assert forall k :: 0 <= k < |before| ==> rows[k] == before[k];
          assert rows[|before|] == last;
        }
      }
    }
  }

  /** A failed load reports the error of the first row that does not
      convert. */
  lemma {:induction false} LoadBodyFirstError(body: seq<seq<string>>)
    ensures LoadBody(body).Failure? ==>
      exists k :: 0 <= k < |NonEmptyRows(body)|
        && ParseRow(NonEmptyRows(body)[k]) == Failure(LoadBody(body).error)
        && AllConvert(NonEmptyRows(body)[..k])
  {
    if body != [] && LoadBody(body).Failure? {
      var prefix, last := body[..|body| - 1], body[|body| - 1];
      var before := NonEmptyRows(prefix);
      if LoadBody(prefix).Failure? {
        assert LoadBody(body) == LoadBody(prefix);
        LoadBodyFirstError(prefix);
        var k :| 0 <= k < |before| && ParseRow(before[k]) == Failure(LoadBody(prefix).error)
          && AllConvert(before[..k]);
        var rows := NonEmptyRows(body);
        assert rows == before || rows == before + [last];
        assert rows[k] == before[k];
        assert rows[..k] == before[..k];
        assert 0 <= k < |rows| && ParseRow(rows[k]) == Failure(LoadBody(body).error) && AllConvert(rows[..k]);
      } else {
        assert last != [];
        var rows := before + [last];
        assert NonEmptyRows(body) == rows;
        assert LoadBody(body) == Failure(ParseRow(last).error);
        LoadBodySucceeds(prefix);
        assert rows[|before|] == last;
        assert rows[..|before|] == before;
      }
    }
  }

  /** The three fields the csv file holds for a record. */
  function CsvRow(record: Record): seq<string> {
    [record.date, IntToString(record.low), IntToString(record.high)]
  }

  /** Loading the rows of a list of records gives back that list: nothing
      is dropped, reordered or changed. */
  lemma {:induction false} LoadBodyRoundTrip(records: seq<Record>)
    ensures LoadBody(seq(|records|, k requires 0 <= k < |records| => CsvRow(records[k]))) == Success(records)
  {
    var body := seq(|records|, k requires 0 <= k < |records| => CsvRow(records[k]));
    if records != [] {
      var prefix := records[..|records| - 1];
      assert body[..|body| - 1] == seq(|prefix|, k requires 0 <= k < |prefix| => CsvRow(prefix[k]));
      LoadBodyRoundTrip(prefix);
      var last := records[|records| - 1];
      ParseIntRoundTrip(last.low);
      ParseIntRoundTrip(last.high);
      ParseRowSpec(body[|body| - 1]);
      assert ParseRow(body[|body| - 1]) == Success(last);
      assert prefix + [last] == records;
    }
  }

  /** The two day rows of the examples below convert. */
  lemma ExampleRowsConvert()
    ensures ParseRow(["2021-07-01", "41", "52"]) == Success(Record("2021-07-01", 41, 52))
    ensures ParseRow(["2021-07-02", "39", "50"]) == Success(Record("2021-07-02", 39, 50))
  {
    assert IntToString(41) == "41" && IntToString(52) == "52";
    assert IntToString(39) == "39" && IntToString(50) == "50";
    ParseIntRoundTrip(41);
    ParseIntRoundTrip(52);
    ParseIntRoundTrip(39);
    ParseIntRoundTrip(50);
    ParseRowSpec(["2021-07-01", "41", "52"]);
    ParseRowSpec(["2021-07-02", "39", "50"]);
  }

  /** A header, two days and an empty line between them load as two
      records, in order. */
  lemma LoadExample()
    ensures var header := ["date", "min", "max"];
      var day1, day2 := ["2021-07-01", "41", "52"], ["2021-07-02", "39", "50"];
      && NonEmptyRows([header, day1, [], day2][1..]) == [day1, day2]
      && LoadBody([header, day1, [], day2][1..])
           == Success([Record("2021-07-01", 41, 52), Record("2021-07-02", 39, 50)])
  {
    var day1, day2 := ["2021-07-01", "41", "52"], ["2021-07-02", "39", "50"];
    var body := [day1, [], day2];
    assert [["date", "min", "max"], day1, [], day2][1..] == body;
    assert body[..1] == [day1] && body[..2] == [day1, []];
    assert body[..1][..0] == [] && body[..2][..1] == body[..1] && body[..|body| - 1] == body[..2];
    assert NonEmptyRows(body[..2]) == [day1];
    var r1, r2 := Record("2021-07-01", 41, 52), Record("2021-07-02", 39, 50);
    ExampleRowsConvert();
    assert body[..1][0] == day1 && LoadBody(body[..1][..0]) == Success([]);
    assert [] + [r1] == [r1] && [r1] + [r2] == [r1, r2];
    assert LoadBody(body[..1]) == Success([r1]);
    assert LoadBody(body[..2]) == Success([r1]);
  }

  /** The first day row alone loads as its record. */
  lemma FirstDayLoads()
    ensures LoadBody([["2021-07-01", "41", "52"]]) == Success([Record("2021-07-01", 41, 52)])
  {
    var day1, r1 := ["2021-07-01", "41", "52"], Record("2021-07-01", 41, 52);
    ExampleRowsConvert();
    assert [day1][..0] == [] && [day1][0] == day1;
    assert LoadBody([day1][..0]) == Success([]);
    assert [] + [r1] == [r1];
  }

  /** A row of two fields stops the load with IndexError, even with a good
      row after it. */
  lemma ShortRowExample()
    ensures LoadBody([["2021-07-01", "41", "52"], ["2021-07-02", "39"], ["2021-07-02", "39", "50"]])
      == Failure(FieldMissing)
  {
    var day1 := ["2021-07-01", "41", "52"];
    var short := [day1, ["2021-07-02", "39"], ["2021-07-02", "39", "50"]];
    FirstDayLoads();
    assert short[..2][..1] == [day1];
    assert short[..2][1] == ["2021-07-02", "39"];
    assert LoadBody(short[..2]) == Failure(FieldMissing);
    LoadBodyStopsAtError(short, 2);
  }

  /** A field that is not an integer stops the load with ValueError naming
      that field. */
  lemma BadFieldExample()
    ensures LoadBody([["2021-07-01", "41", "52"], ["2021-07-02", "39", "n/a"]])
      == Failure(NotAnInteger("n/a"))
  {
    var day1 := ["2021-07-01", "41", "52"];
    var bad := [day1, ["2021-07-02", "39", "n/a"]];
    FirstDayLoads();
    assert bad[..1] == [day1];
    assert ParseInt("n/a") == None by {
      assert TrimEnd(TrimStart("n/a")) == "n/a";
      assert !IsDigit("n/a"[0]);
    }
    assert ParseRow(bad[1]) == Failure(NotAnInteger("n/a"));
  }
}
