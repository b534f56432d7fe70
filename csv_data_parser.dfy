/**
 * CsvDataParser.parseData: the rate file read line by line. The first line
 * is the header, split on commas; every later line is split on commas, its
 * field 0 is read as a LocalDate, and for every header column from 1 on the
 * cell, unless it is the literal "N/A", is read as a BigDecimal and stored
 * under that column's header. Each line's rates go into a TreeMap under its
 * date. The input is the sequence of lines that BufferedReader.readLine
 * returns, without their line terminators.
 */
module CsvDataParser {
  import opened Wrappers
  import opened Dates
  import opened Decimals
  import opened JavaSplit
  import opened Rates
  import opened DateTreeMaps

  /** What parseData throws, and where: lines are numbered from 0 (the
      header), columns from 0 (the date). */
  datatype ParseError =
    | MissingHeader                        // readLine() gave null: NullPointerException
    | MissingField(line: nat, index: nat)  // data[index] beyond the split: ArrayIndexOutOfBoundsException
    | BadDate(line: nat)                   // LocalDate.parse: DateTimeParseException
    | BadDecimal(line: nat, index: nat)    // new BigDecimal: NumberFormatException

  /** Where the column loop `for (i = 1; i < headers.length; i++)` stops. */
  function ColumnEnd(headers: seq<string>): nat {
    if |headers| == 0 then 1 else |headers|
  }

  /** Column i of a row neither throws: the cell is there, and is "N/A" or a
      decimal. */
  predicate CellOk(data: seq<string>, i: nat) {
    i < |data| && (data[i] == "N/A" || ParseDecimal(data[i]).Some?)
  }

  /** The rates map once the loop has handled columns 1 to n - 1. */
  function CellRates(headers: seq<string>, data: seq<string>, line: nat, n: nat): (r: Result<map<string, Decimal>, ParseError>)
    requires n <= ColumnEnd(headers)
    ensures r.Failure? ==> (r.error.MissingField? || r.error.BadDecimal?) && r.error.line == line
  {
    if n <= 1 then Success(map[])
    else
      match CellRates(headers, data, line, n - 1)
      case Failure(e) => Failure(e)
      case Success(rates) =>
        var i := n - 1;
        if i >= |data| then Failure(MissingField(line, i))
        else if data[i] == "N/A" then Success(rates)
        else
          match ParseDecimal(data[i])
          case None => Failure(BadDecimal(line, i))
          case Some(v) => Success(rates[headers[i] := v])
  }

  /** The rates of a whole row. */
  function RowRates(headers: seq<string>, data: seq<string>, line: nat): Result<map<string, Decimal>, ParseError> {
    CellRates(headers, data, line, ColumnEnd(headers))
  }

  /** One data line, already split: data[0] is read first, then the cells. */
  function RowOfFields(headers: seq<string>, data: seq<string>, line: nat): (r: Result<(Date, ExchangeRate), ParseError>)
    ensures r.Failure? ==> !r.error.MissingHeader? && r.error.line == line
    ensures r.Success? ==> |data| > 0 && r.value.1.date == None
  {
    if |data| == 0 then Failure(MissingField(line, 0))
    else
      match ParseIsoDate(data[0])
      case None => Failure(BadDate(line))
      case Some(date) =>
        match RowRates(headers, data, line)
        case Failure(e) => Failure(e)
        case Success(rates) => Success((date, ExchangeRate(None, rates)))
  }

  /** One data line, as the loop body handles it. */
  function ParseRow(headers: seq<string>, text: string, line: nat): Result<(Date, ExchangeRate), ParseError> {
    RowOfFields(headers, Split(text), line)
  }

  /** What the loop body gives for each of lines 1 to k - 1, in line order:
      element j is line j + 1. */
  function LineResults(headers: seq<string>, lines: seq<string>, k: nat): (rs: seq<Result<(Date, ExchangeRate), ParseError>>)
    requires 1 <= k <= |lines|
    ensures |rs| == k - 1
  {
    if k == 1 then [] else LineResults(headers, lines, k - 1) + [ParseRow(headers, lines[k - 1], k - 1)]
  }

  /** Result j - 1 is what the loop body gives for line j. */
  lemma {:induction false} LineResultsAt(headers: seq<string>, lines: seq<string>, k: nat, j: nat)
    requires 1 <= j < k <= |lines|
    ensures LineResults(headers, lines, k)[j - 1] == ParseRow(headers, lines[j], j)
  {
    if j < k - 1 {
      LineResultsAt(headers, lines, k - 1, j);
    }
  }

  /** The loop over results that may throw: the values in order, or the
      first exception, after which nothing more is looked at. */
  function Collect<T, E>(results: seq<Result<T, E>>): Result<seq<T>, E> {
    if |results| == 0 then Success([])
    else
      match Collect(results[..|results| - 1])
      case Failure(e) => Failure(e)
      case Success(values) =>
        match results[|results| - 1]
        case Failure(e) => Failure(e)
        case Success(v) => Success(values + [v])
  }

  /** The entries of lines 1 to k - 1 in the order they are put, or the
      first error. */
  function ParseRows(headers: seq<string>, lines: seq<string>, k: nat): Result<seq<(Date, ExchangeRate)>, ParseError>
    requires 1 <= k <= |lines|
  {
    Collect(LineResults(headers, lines, k))
  }

  /** The entries of the whole file in the order they are put. */
  function ParsedEntries(lines: seq<string>): (r: Result<seq<(Date, ExchangeRate)>, ParseError>)
    ensures r.Failure? ==> (r.error.MissingHeader? <==> |lines| == 0)
    ensures r.Failure? && |lines| > 0 ==> 1 <= r.error.line < |lines|
    ensures r.Success? ==> |r.value| == |lines| - 1
  {
    if |lines| == 0 then Failure(MissingHeader)
    else
      CollectShape(LineResults(Split(lines[0]), lines, |lines|));
      RowsErrorLine(Split(lines[0]), lines);
      ParseRows(Split(lines[0]), lines, |lines|)
  }

  /** The map parseData returns, or what it throws. */
  function ParsedTable(lines: seq<string>): (r: Result<map<Date, ExchangeRate>, ParseError>)
    ensures r.Failure? ==> (r.error.MissingHeader? <==> |lines| == 0)
    ensures r.Failure? && |lines| > 0 ==> 1 <= r.error.line < |lines|
    ensures r.Success? ==> |r.value| <= |lines| - 1
  {
    match ParsedEntries(lines)
    case Failure(e) => Failure(e)
    case Success(rows) =>
      AsMapSize(rows);
      Success(AsMap(rows))
  }

  /** The header split on commas, when there is a header line. */
  function Headers(lines: seq<string>): seq<string>
    requires |lines| > 0
  {
    Split(lines[0])
  }

  // ---------------------------------------------------------------------
  // The method

  /** parseData: the TreeMap it returns, which is the map of the entries
      put in line order, with its entries in ascending date order; or the
      first exception, the same as the specification's. */
  method ParseData(lines: seq<string>) returns (r: Result<DateTreeMap<ExchangeRate>, ParseError>)
    ensures r.Failure? <==> ParsedEntries(lines).Failure?
    ensures r.Failure? ==> r.error == ParsedEntries(lines).error
    ensures r.Success? ==> && fresh(r.value) && r.value.Valid()
                           && r.value.Contents() == AsMap(ParsedEntries(lines).value)
  {
    var exchangeRates := new DateTreeMap<ExchangeRate>();
    if |lines| == 0 {
      return Failure(MissingHeader);
    }
    var headers := Split(lines[0]);
    ghost var rows: seq<(Date, ExchangeRate)> := [];
    var k := 1;
    while k < |lines|
      invariant 1 <= k <= |lines|
      invariant ParseRows(headers, lines, k) == Success(rows)
      invariant fresh(exchangeRates) && exchangeRates.Valid()
      invariant exchangeRates.Contents() == AsMap(rows)
    {
      var row := ParseLine(headers, lines[k], k);
      if row.Failure? {
        assert ParsedEntries(lines) == Failure(row.error) by {
          RowFailureReachesEnd(headers, lines, k);
        }
        return Failure(row.error);
      }
      var entry := row.value;
      assert ParseRows(headers, lines, k + 1) == Success(rows + [entry]) by {
        RowAdded(headers, lines, k);
      }
      exchangeRates.Put(entry.0, entry.1);
      rows := rows + [entry];
      k := k + 1;
    }
    return Success(exchangeRates);
  }

  /** The body of parseData's loop for one line: split it, read the date
      from field 0, then the rates of the other columns. */
  method ParseLine(headers: seq<string>, line: string, k: nat) returns (r: Result<(Date, ExchangeRate), ParseError>)
    ensures r == ParseRow(headers, line, k)
  {
    var data := Split(line);
    if |data| == 0 {
      return Failure(MissingField(k, 0));
    }
    var date := ParseIsoDate(data[0]);
    if date.None? {
      return Failure(BadDate(k));
    }
    var rates := ParseCells(headers, data, k);
    if rates.Failure? {
      return Failure(rates.error);
    }
    return Success((date.value, ExchangeRate(None, rates.value)));
  }

  /** The column loop: a fresh rates map filled from columns 1 to
      |headers| - 1, skipping "N/A" cells. */
  method ParseCells(headers: seq<string>, data: seq<string>, k: nat) returns (r: Result<map<string, Decimal>, ParseError>)
    ensures r == RowRates(headers, data, k)
  {
    var rates: map<string, Decimal> := map[];
    var i := 1;
    while i < |headers|
      invariant 1 <= i && (i == 1 || i <= |headers|)
      invariant CellRates(headers, data, k, i) == Success(rates)
    {
      if i >= |data| {
        assert CellRates(headers, data, k, i + 1) == Failure(MissingField(k, i));
        CellFailureReachesEnd(headers, data, k, i + 1);
        return Failure(MissingField(k, i));
      }
      if data[i] != "N/A" {
        var v := ParseDecimal(data[i]);
        if v.None? {
          assert CellRates(headers, data, k, i + 1) == Failure(BadDecimal(k, i));
          CellFailureReachesEnd(headers, data, k, i + 1);
          return Failure(BadDecimal(k, i));
        }
        rates := rates[headers[i] := v.value];
      }
      assert CellRates(headers, data, k, i + 1) == Success(rates);
      i := i + 1;
    }
    assert i == ColumnEnd(headers);
    return Success(rates);
  }

  /** A column that throws ends the row with its exception. */
  lemma {:induction false} CellFailureReachesEnd(headers: seq<string>, data: seq<string>, line: nat, n: nat)
    requires n <= ColumnEnd(headers)
    requires CellRates(headers, data, line, n).Failure?
    ensures RowRates(headers, data, line) == CellRates(headers, data, line, n)
    decreases ColumnEnd(headers) - n
  {
    if n < ColumnEnd(headers) {
      CellFailureReachesEnd(headers, data, line, n + 1);
    }
  }

  /** A line that throws ends the parse with its exception. */
  lemma RowFailureReachesEnd(headers: seq<string>, lines: seq<string>, k: nat)
    requires 1 <= k < |lines|
    requires ParseRows(headers, lines, k).Success?
    requires ParseRow(headers, lines[k], k).Failure?
    ensures ParseRows(headers, lines, |lines|) == Failure(ParseRow(headers, lines[k], k).error)
  {
    RowsAppend(headers, lines, k);
    RowsFailureReachesEnd(headers, lines, k + 1);
  }

  /** The results of lines up to k + 1 are those up to k and line k's. */
  lemma RowsAppend(headers: seq<string>, lines: seq<string>, k: nat)
    requires 1 <= k < |lines|
    ensures Collect(LineResults(headers, lines, k + 1))
         == match Collect(LineResults(headers, lines, k))
            case Failure(e) => Failure(e)
            case Success(rows) =>
              match ParseRow(headers, lines[k], k)
              case Failure(e) => Failure(e)
              case Success(row) => Success(rows + [row])
  {
    var rs := LineResults(headers, lines, k + 1);
    assert rs[..|rs| - 1] == LineResults(headers, lines, k);
    assert rs[|rs| - 1] == ParseRow(headers, lines[k], k);
  }

  /** A line that parses adds its entry after the earlier ones. */
  lemma RowAdded(headers: seq<string>, lines: seq<string>, k: nat)
    requires 1 <= k < |lines|
    requires ParseRows(headers, lines, k).Success?
    requires ParseRow(headers, lines[k], k).Success?
    ensures ParseRows(headers, lines, k + 1)
         == Success(ParseRows(headers, lines, k).value + [ParseRow(headers, lines[k], k).value])
  {
    RowsAppend(headers, lines, k);
  }

  /** Once the rows fail they fail with the same error to the end. */
  lemma {:induction false} RowsFailureReachesEnd(headers: seq<string>, lines: seq<string>, k: nat)
    requires 1 <= k <= |lines|
    requires ParseRows(headers, lines, k).Failure?
    ensures ParseRows(headers, lines, |lines|) == ParseRows(headers, lines, k)
    decreases |lines| - k
  {
    if k < |lines| {
      RowsAppend(headers, lines, k);
      RowsFailureReachesEnd(headers, lines, k + 1);
    }
  }

  /** The collected values are there exactly when no result is a failure,
      and they are then the results' values in order. */
  lemma {:induction false} CollectShape<T, E>(results: seq<Result<T, E>>)
    ensures Collect(results).Success? <==> forall j :: 0 <= j < |results| ==> results[j].Success?
    ensures Collect(results).Success? ==>
      && |Collect(results).value| == |results|
      && forall j :: 0 <= j < |results| ==> Collect(results).value[j] == results[j].value
  {
    if |results| > 0 {
      var init := results[..|results| - 1];
      CollectShape(init);
      assert forall j :: 0 <= j < |init| ==> init[j] == results[j];
    }
  }

  /** A failed collection carries the error of the first failed result. */
  lemma {:induction false} CollectFirstError<T, E>(results: seq<Result<T, E>>)
    requires Collect(results).Failure?
    ensures exists j :: && 0 <= j < |results|
                        && (forall i :: 0 <= i < j ==> results[i].Success?)
                        && results[j].Failure?
                        && Collect(results).error == results[j].error
  {
    var init := results[..|results| - 1];
    assert forall j :: 0 <= j < |init| ==> init[j] == results[j];
    if Collect(init).Failure? {
      CollectFirstError(init);
    } else {
      CollectShape(init);
      assert results[|results| - 1].Failure?;
    }
  }

  /** When the lines fail, the error names one of the data lines. */
  lemma RowsErrorLine(headers: seq<string>, lines: seq<string>)
    requires 1 <= |lines|
    ensures ParseRows(headers, lines, |lines|).Failure? ==>
      && !ParseRows(headers, lines, |lines|).error.MissingHeader?
      && 1 <= ParseRows(headers, lines, |lines|).error.line < |lines|
  {
    var rs := LineResults(headers, lines, |lines|);
    if Collect(rs).Failure? {
      CollectFirstError(rs);
      var j :| 0 <= j < |rs| && rs[j].Failure? && Collect(rs).error == rs[j].error;
      LineResultsAt(headers, lines, |lines|, j + 1);
    }
  }

  /** The lines parse when each of them does, and their entries are then
      the lines' entries in line order. */
  lemma RowsShape(headers: seq<string>, lines: seq<string>)
    requires 1 <= |lines|
    ensures ParseRows(headers, lines, |lines|).Success?
        <==> forall j :: 1 <= j < |lines| ==> ParseRow(headers, lines[j], j).Success?
    ensures ParseRows(headers, lines, |lines|).Success? ==>
      && |ParseRows(headers, lines, |lines|).value| == |lines| - 1
      && forall j :: 1 <= j < |lines| ==>
           ParseRow(headers, lines[j], j) == Success(ParseRows(headers, lines, |lines|).value[j - 1])
  {
    var rs := LineResults(headers, lines, |lines|);
    CollectShape(rs);
    if forall j :: 1 <= j < |lines| ==> ParseRow(headers, lines[j], j).Success? {
      forall j | 0 <= j < |rs| ensures rs[j].Success? {
        LineResultsAt(headers, lines, |lines|, j + 1);
      }
    }
    if Collect(rs).Success? {
      forall j | 1 <= j < |lines|
        ensures ParseRow(headers, lines[j], j) == Success(Collect(rs).value[j - 1])
      {
        LineResultsAt(headers, lines, |lines|, j);
      }
    }
  }
}
