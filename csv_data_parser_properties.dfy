/**
 * What parseData promises about its result: when it fails and with which
 * exception, which dates become keys and which line's rates they hold,
 * which currencies a day has and which decimal each holds.
 */
module CsvDataParserProperties {
  import opened Wrappers
  import opened Dates
  import opened Decimals
  import opened JavaSplit
  import opened Rates
  import opened DateTreeMaps
  import opened CsvDataParser

  /** Column i is the first of the row's columns from 1 on that throws. */
  predicate FirstBadCell(data: seq<string>, i: nat) {
    && 1 <= i
    && !CellOk(data, i)
    && forall j :: 1 <= j < i ==> CellOk(data, j)
  }

  /** What a throwing column throws: the cell is missing, or it is not a
      decimal. */
  function CellError(data: seq<string>, line: nat, i: nat): ParseError {
    if i >= |data| then MissingField(line, i) else BadDecimal(line, i)
  }

  /** A split data line that the loop body gets through. */
  predicate RowWellFormed(headers: seq<string>, data: seq<string>) {
    && |data| > 0
    && ParseIsoDate(data[0]).Some?
    && forall i :: 1 <= i < |headers| ==> CellOk(data, i)
  }

  /** e is what the loop body throws on this split line, for the reason the
      line gives: no field at all, a bad date, or the first bad cell. */
  predicate ExplainsRowError(headers: seq<string>, data: seq<string>, line: nat, e: ParseError) {
    || (|data| == 0 && e == MissingField(line, 0))
    || (|data| > 0 && ParseIsoDate(data[0]).None? && e == BadDate(line))
    || (&& |data| > 0 && ParseIsoDate(data[0]).Some?
        && exists i :: 1 <= i < |headers| && FirstBadCell(data, i) && e == CellError(data, line, i))
  }

  /** The date in field 0 of a line, when it has a field 0 holding a date. */
  function LineDate(text: string): Option<Date> {
    if |Split(text)| == 0 then None else ParseIsoDate(Split(text)[0])
  }

  // ---------------------------------------------------------------------
  // The columns of one row

  /** The columns up to n throw nothing exactly when every one of their cells
      is present and either "N/A" or a decimal. */
  lemma {:induction false} CellRatesSucceedsIff(headers: seq<string>, data: seq<string>, line: nat, n: nat)
    requires n <= ColumnEnd(headers)
    ensures CellRates(headers, data, line, n).Success? <==> forall i :: 1 <= i < n ==> CellOk(data, i)
  {
    if n > 1 {
      CellRatesSucceedsIff(headers, data, line, n - 1);
      if CellRates(headers, data, line, n - 1).Success? {
        assert CellRates(headers, data, line, n).Success? <==> CellOk(data, n - 1);
      } else {
        assert !CellOk(data, n - 1) || !(forall i :: 1 <= i < n - 1 ==> CellOk(data, i));
      }
    }
  }

  /** When the columns throw, they throw for the first bad cell, and what
      they throw says whether it was missing or not a decimal. */
  lemma {:induction false} CellRatesFirstError(headers: seq<string>, data: seq<string>, line: nat, n: nat)
    requires n <= ColumnEnd(headers)
    requires CellRates(headers, data, line, n).Failure?
    ensures exists i :: 1 <= i < n && FirstBadCell(data, i)
                        && CellRates(headers, data, line, n).error == CellError(data, line, i)
  {
    var prev := CellRates(headers, data, line, n - 1);
    if prev.Failure? {
      CellRatesFirstError(headers, data, line, n - 1);
    } else {
      CellRatesSucceedsIff(headers, data, line, n - 1);
      assert FirstBadCell(data, n - 1);
    }
  }

  /** The currencies of a row are exactly the headers of the columns from 1 on
      whose cell is not "N/A"; in particular an "N/A" cell adds nothing. */
  lemma {:induction false} CellRatesKeys(headers: seq<string>, data: seq<string>, line: nat, n: nat)
    requires n <= ColumnEnd(headers)
    requires CellRates(headers, data, line, n).Success?
    ensures forall c :: c in CellRates(headers, data, line, n).value
                    <==> exists i :: 1 <= i < n && i < |data| && headers[i] == c && data[i] != "N/A"
  {
    if n > 1 {
      CellRatesKeys(headers, data, line, n - 1);
    }
  }

  /** A currency holds the decimal of the last column under its header that
      is not "N/A", read from exactly that cell's text, scale included. */
  lemma {:induction false} CellRatesValue(headers: seq<string>, data: seq<string>, line: nat, n: nat, i: nat)
    requires n <= ColumnEnd(headers)
    requires CellRates(headers, data, line, n).Success?
    requires 1 <= i < n && i < |data| && data[i] != "N/A"
    requires forall j :: i < j < n && j < |data| && headers[j] == headers[i] ==> data[j] == "N/A"
    ensures headers[i] in CellRates(headers, data, line, n).value
    ensures ParseDecimal(data[i]) == Some(CellRates(headers, data, line, n).value[headers[i]])
  {
    if i < n - 1 {
      CellRatesValue(headers, data, line, n - 1, i);
    }
  }

  /** Cells after the header's last column are never looked at. */
  lemma {:induction false} CellRatesIgnoreExtra(headers: seq<string>, data: seq<string>, extra: seq<string>, line: nat, n: nat)
    requires n <= ColumnEnd(headers) && n <= |data|
    ensures CellRates(headers, data + extra, line, n) == CellRates(headers, data, line, n)
  {
    if n > 1 {
      CellRatesIgnoreExtra(headers, data, extra, line, n - 1);
      assert (data + extra)[n - 1] == data[n - 1];
    }
  }

  // ---------------------------------------------------------------------
  // One data line

  /** A split line gets through the loop body exactly when it has a date in
      field 0 and a good cell in every header column from 1 on; its entry is
      then that date and the row's rates, with no date in the record. */
  lemma RowOfFieldsSucceedsIff(headers: seq<string>, data: seq<string>, line: nat)
    ensures RowOfFields(headers, data, line).Success? <==> RowWellFormed(headers, data)
    ensures RowOfFields(headers, data, line).Success? ==>
      && RowRates(headers, data, line).Success?
      && RowOfFields(headers, data, line).value
         == (ParseIsoDate(data[0]).value, ExchangeRate(None, RowRates(headers, data, line).value))
  {
    CellRatesSucceedsIff(headers, data, line, ColumnEnd(headers));
  }

  /** What a line throws is explained by the line. */
  lemma RowFailureExplained(headers: seq<string>, data: seq<string>, line: nat)
    requires RowOfFields(headers, data, line).Failure?
    ensures ExplainsRowError(headers, data, line, RowOfFields(headers, data, line).error)
  {
    if |data| > 0 && ParseIsoDate(data[0]).Some? {
      CellRatesFirstError(headers, data, line, ColumnEnd(headers));
    }
  }

  /** A line with fewer fields than the header, once String.split has dropped
      its trailing empty fields, throws; if its date and cells up to there
      are good, it throws ArrayIndexOutOfBounds for the first missing cell. */
  lemma ShortRowFails(headers: seq<string>, data: seq<string>, line: nat)
    requires 1 <= |data| < |headers|
    ensures RowOfFields(headers, data, line).Failure?
    ensures ParseIsoDate(data[0]).Some? && (forall j :: 1 <= j < |data| ==> CellOk(data, j)) ==>
              RowOfFields(headers, data, line).error == MissingField(line, |data|)
  {
    RowOfFieldsSucceedsIff(headers, data, line);
    assert !CellOk(data, |data|);
    if ParseIsoDate(data[0]).Some? && (forall j :: 1 <= j < |data| ==> CellOk(data, j)) {
      CellRatesFirstError(headers, data, line, ColumnEnd(headers));
    }
  }

  /** A line whose field 0 is not a date throws DateTimeParseException. */
  lemma BadDateFails(headers: seq<string>, data: seq<string>, line: nat)
    requires |data| > 0 && ParseIsoDate(data[0]).None?
    ensures RowOfFields(headers, data, line) == Failure(BadDate(line))
  {
  }

  /** A cell that is neither "N/A" nor a decimal makes the line throw; when
      the earlier cells are good it throws NumberFormatException for it. */
  lemma BadDecimalFails(headers: seq<string>, data: seq<string>, line: nat, i: nat)
    requires 1 <= i < |headers| && i < |data|
    requires data[i] != "N/A" && ParseDecimal(data[i]).None?
    ensures RowOfFields(headers, data, line).Failure?
    ensures ParseIsoDate(data[0]).Some? && (forall j :: 1 <= j < i ==> CellOk(data, j)) ==>
              RowOfFields(headers, data, line).error == BadDecimal(line, i)
  {
    RowOfFieldsSucceedsIff(headers, data, line);
    assert !CellOk(data, i);
    if ParseIsoDate(data[0]).Some? && (forall j :: 1 <= j < i ==> CellOk(data, j)) {
      CellRatesFirstError(headers, data, line, ColumnEnd(headers));
    }
  }

  /** Fields after the header's last column change nothing about a line. */
  lemma ExtraCellsIgnored(headers: seq<string>, data: seq<string>, extra: seq<string>, line: nat)
    requires |data| >= ColumnEnd(headers)
    ensures RowOfFields(headers, data + extra, line) == RowOfFields(headers, data, line)
  {
    CellRatesIgnoreExtra(headers, data, extra, line, ColumnEnd(headers));
    assert (data + extra)[0] == data[0];
  }

  // ---------------------------------------------------------------------
  // The whole file

  /** When the lines fail, they fail with the error of the first line that
      throws. */
  lemma ParseRowsFirstError(headers: seq<string>, lines: seq<string>)
    requires 1 <= |lines|
    requires ParseRows(headers, lines, |lines|).Failure?
    ensures exists j :: && 1 <= j < |lines|
                        && (forall i :: 1 <= i < j ==> ParseRow(headers, lines[i], i).Success?)
                        && ParseRow(headers, lines[j], j).Failure?
                        && ParseRows(headers, lines, |lines|).error == ParseRow(headers, lines[j], j).error
  {
    var rs := LineResults(headers, lines, |lines|);
    CollectFirstError(rs);
    var j :| && 0 <= j < |rs|
             && (forall i :: 0 <= i < j ==> rs[i].Success?)
             && rs[j].Failure?
             && Collect(rs).error == rs[j].error;
    LineResultsAt(headers, lines, |lines|, j + 1);
    forall i | 1 <= i < j + 1 ensures ParseRow(headers, lines[i], i).Success? {
      LineResultsAt(headers, lines, |lines|, i);
    }
    assert ParseRows(headers, lines, |lines|).error == ParseRow(headers, lines[j + 1], j + 1).error;
  }

  /** parseData returns a map exactly when there is a header line and every
      later line is well formed. */
  lemma ParseSucceedsIff(lines: seq<string>)
    ensures ParsedTable(lines).Success?
        <==> |lines| > 0 && forall k :: 1 <= k < |lines| ==> RowWellFormed(Headers(lines), Split(lines[k]))
  {
    if |lines| > 0 {
      RowsShape(Headers(lines), lines);
      forall k | 1 <= k < |lines| {
        RowOfFieldsSucceedsIff(Headers(lines), Split(lines[k]), k);
      }
    }
  }

  /** What parseData throws: NullPointerException without a header line;
      otherwise the exception of the first line that throws, for the reason
      that line gives. */
  lemma ParseFailureExplained(lines: seq<string>)
    requires ParsedTable(lines).Failure?
    ensures |lines| == 0 <==> ParsedTable(lines).error == MissingHeader
    ensures |lines| > 0 ==> exists k :: && 1 <= k < |lines|
                                        && (forall j :: 1 <= j < k ==> RowWellFormed(Headers(lines), Split(lines[j])))
                                        && ExplainsRowError(Headers(lines), Split(lines[k]), k, ParsedTable(lines).error)
  {
    if |lines| > 0 {
      var h := Headers(lines);
      ParseRowsFirstError(h, lines);
      var k :| && 1 <= k < |lines|
               && (forall i :: 1 <= i < k ==> ParseRow(h, lines[i], i).Success?)
               && ParseRow(h, lines[k], k).Failure?
               && ParsedTable(lines).error == ParseRow(h, lines[k], k).error;
      forall j | 1 <= j < k ensures RowWellFormed(h, Split(lines[j])) {
        RowOfFieldsSucceedsIff(h, Split(lines[j]), j);
      }
      RowFailureExplained(h, Split(lines[k]), k);
    }
  }

  /** A line that parses has that date in field 0 and those rates. */
  lemma ParsedRowDate(headers: seq<string>, text: string, line: nat)
    requires ParseRow(headers, text, line).Success?
    ensures LineDate(text) == Some(ParseRow(headers, text, line).value.0)
    ensures RowRates(headers, Split(text), line).Success?
    ensures ParseRow(headers, text, line).value.1 == ExchangeRate(None, RowRates(headers, Split(text), line).value)
  {
    RowOfFieldsSucceedsIff(headers, Split(text), line);
  }

  /** Entry j - 1 of a successful parse comes from line j: the date of its
      field 0, and the rates of its columns, with no date in the record. */
  lemma ParsedEntryAt(lines: seq<string>, j: nat)
    requires ParsedEntries(lines).Success?
    requires 1 <= j < |lines|
    ensures |ParsedEntries(lines).value| == |lines| - 1
    ensures LineDate(lines[j]) == Some(ParsedEntries(lines).value[j - 1].0)
    ensures RowRates(Headers(lines), Split(lines[j]), j).Success?
    ensures ParsedEntries(lines).value[j - 1].1 == ExchangeRate(None, RowRates(Headers(lines), Split(lines[j]), j).value)
  {
    RowsShape(Headers(lines), lines);
    ParsedRowDate(Headers(lines), lines[j], j);
  }

  /** The keys of the result are the dates of the data lines: every line's
      date is a key, and every key is some line's date. */
  lemma TableKeys(lines: seq<string>)
    requires ParsedTable(lines).Success?
    ensures forall d :: d in ParsedTable(lines).value
                    <==> exists k :: 1 <= k < |lines| && LineDate(lines[k]) == Some(d)
  {
    var rows := ParsedEntries(lines).value;
    forall d | d in ParsedTable(lines).value
      ensures exists k :: 1 <= k < |lines| && LineDate(lines[k]) == Some(d)
    {
      var j := KeyHasEntry(rows, d);
      ParsedEntryAt(lines, j + 1);
    }
    forall d, k | 1 <= k < |lines| && LineDate(lines[k]) == Some(d)
      ensures d in ParsedTable(lines).value
    {
      ParsedEntryAt(lines, k);
      assert d in KeysOf(rows) by {
        assert rows[k - 1].0 == d;
      }
    }
  }

  /** The entry of line k holds line k's date, and the entries after it
      hold other dates when the later lines do. */
  lemma LaterEntriesHaveOtherDates(lines: seq<string>, k: nat, d: Date)
    requires ParsedEntries(lines).Success?
    requires 1 <= k < |lines| && LineDate(lines[k]) == Some(d)
    requires forall j {:trigger LineDate(lines[j])} :: k < j < |lines| ==> LineDate(lines[j]) != Some(d)
    ensures |ParsedEntries(lines).value| == |lines| - 1 && k - 1 < |ParsedEntries(lines).value|
    ensures ParsedEntries(lines).value[k - 1].0 == d
    ensures NoLaterEntry(ParsedEntries(lines).value, k - 1, d)
  {
    ParsedEntryAt(lines, k);
    forall j | k - 1 < j < |ParsedEntries(lines).value| ensures ParsedEntries(lines).value[j].0 != d {
      EntryDateDiffers(lines, j, d);
    }
  }

  /** Entry i, from line i + 1, holds another date when that line does. */
  lemma EntryDateDiffers(lines: seq<string>, i: nat, d: Date)
    requires ParsedEntries(lines).Success?
    requires i + 1 < |lines| && LineDate(lines[i + 1]) != Some(d)
    ensures |ParsedEntries(lines).value| == |lines| - 1
    ensures ParsedEntries(lines).value[i].0 != d
  {
    ParsedEntryAt(lines, i + 1);
  }

  /** A date maps to the rates of the last line that has it: a later line
      with the same date replaces the earlier one. */
  lemma LastLineWins(lines: seq<string>, k: nat, d: Date)
    requires ParsedTable(lines).Success?
    requires 1 <= k < |lines| && LineDate(lines[k]) == Some(d)
    requires forall j {:trigger LineDate(lines[j])} :: k < j < |lines| ==> LineDate(lines[j]) != Some(d)
    ensures d in ParsedTable(lines).value
    ensures RowRates(Headers(lines), Split(lines[k]), k).Success?
    ensures ParsedTable(lines).value[d] == ExchangeRate(None, RowRates(Headers(lines), Split(lines[k]), k).value)
  {
    LaterEntriesHaveOtherDates(lines, k, d);
    TableHoldsEntry(lines, k, d);
  }

  /** The table maps the date of entry k - 1 to the rates of line k when no
      later entry has that date. */
  lemma TableHoldsEntry(lines: seq<string>, k: nat, d: Date)
    requires ParsedEntries(lines).Success? && 1 <= k < |lines|
    requires |ParsedEntries(lines).value| == |lines| - 1 && ParsedEntries(lines).value[k - 1].0 == d
    requires NoLaterEntry(ParsedEntries(lines).value, k - 1, d)
    ensures ParsedTable(lines).Success? && d in ParsedTable(lines).value
    ensures RowRates(Headers(lines), Split(lines[k]), k).Success?
    ensures ParsedTable(lines).value[d] == ExchangeRate(None, RowRates(Headers(lines), Split(lines[k]), k).value)
  {
    AsMapLastWins(ParsedEntries(lines).value, k - 1);
    ParsedEntryAt(lines, k);
  }

  /** Header column 0 is never a currency unless a later column repeats its
      name, and a currency whose every column is "N/A" on the line is absent
      for that date: nothing stands in for it. */
  lemma NotApplicableAndDateColumnAbsent(headers: seq<string>, data: seq<string>, line: nat, c: string)
    requires RowRates(headers, data, line).Success?
    requires forall i :: 1 <= i < |headers| && i < |data| && headers[i] == c ==> data[i] == "N/A"
    ensures c !in RowRates(headers, data, line).value
  {
    CellRatesKeys(headers, data, line, ColumnEnd(headers));
  }

  /** The stored rate of currency headers[i] on the date of line k is the
      decimal read from exactly the cell at column i, when line k is the last
      line with that date and column i the last column of that currency that
      is not "N/A". */
  lemma StoredRateIsCellDecimal(lines: seq<string>, k: nat, d: Date, i: nat)
    requires ParsedTable(lines).Success?
    requires 1 <= k < |lines| && LineDate(lines[k]) == Some(d)
    requires forall j {:trigger LineDate(lines[j])} :: k < j < |lines| ==> LineDate(lines[j]) != Some(d)
    requires 1 <= i < |Headers(lines)| && i < |Split(lines[k])| && Split(lines[k])[i] != "N/A"
    requires forall j :: i < j < |Headers(lines)| && j < |Split(lines[k])| && Headers(lines)[j] == Headers(lines)[i]
               ==> Split(lines[k])[j] == "N/A"
    ensures d in ParsedTable(lines).value
    ensures Headers(lines)[i] in ParsedTable(lines).value[d].rates
    ensures ParseDecimal(Split(lines[k])[i]) == Some(ParsedTable(lines).value[d].rates[Headers(lines)[i]])
  {
    LastLineWins(lines, k, d);
    CellRatesValue(Headers(lines), Split(lines[k]), k, ColumnEnd(Headers(lines)), i);
  }
}
