/**
 * The parser's two test files: a well-formed one whose dates come in
 * descending order, and one whose data line ends in an empty cell.
 */
module CsvDataParserExamples {
  import opened Wrappers
  import opened Dates
  import opened Decimals
  import opened Digits
  import opened JavaSplit
  import opened Rates
  import opened DateTreeMaps
  import opened CsvDataParser
  import opened CsvDataParserProperties

  /** Three comma-free fields joined by commas split back into those
      fields. */
  lemma ThreeFields(d: string, x: string, y: string)
    requires ',' !in d && ',' !in x && ',' !in y && y != ""
    ensures Split(d + "," + x + "," + y) == [d, x, y]
  {
    var data := [d, x, y];
    assert Join(data) == d + "," + x + "," + y by {
      assert data[1..] == [x, y] && [x, y][1..] == [y];
      assert Join([x, y]) == x + "," + y;
      assert d + "," + (x + "," + y) == d + "," + x + "," + y;
    }
    SplitJoinRoundTrip(data);
  }

  /** A line "d,x,y" under a three-column header, with a date and two
      decimals, is the date and both rates, keyed by their headers. */
  lemma ThreeFieldRow(headers: seq<string>, d: string, x: string, y: string, line: nat,
                      date: Date, u: Decimal, w: Decimal)
    requires |headers| == 3
    requires ',' !in d && ',' !in x && ',' !in y && y != ""
    requires x != "N/A" && y != "N/A"
    requires ParseIsoDate(d) == Some(date)
    requires ParseDecimal(x) == Some(u) && ParseDecimal(y) == Some(w)
    ensures ParseRow(headers, d + "," + x + "," + y, line)
         == Success((date, ExchangeRate(None, map[][headers[1] := u][headers[2] := w])))
  {
    ThreeFields(d, x, y);
    var data := [d, x, y];
    assert CellRates(headers, data, line, 2) == Success(map[][headers[1] := u]);
    assert RowRates(headers, data, line) == Success(map[][headers[1] := u][headers[2] := w]);
  }

  /** A header and two data lines that parse give those two entries in line
      order. */
  lemma TwoDataLines(lines: seq<string>)
    requires |lines| == 3
    requires ParseRow(Headers(lines), lines[1], 1).Success?
    requires ParseRow(Headers(lines), lines[2], 2).Success?
    ensures ParsedEntries(lines)
         == Success([ParseRow(Headers(lines), lines[1], 1).value, ParseRow(Headers(lines), lines[2], 2).value])
  {
    var h := Headers(lines);
    var a := ParseRow(h, lines[1], 1);
    var b := ParseRow(h, lines[2], 2);
    assert LineResults(h, lines, 3) == [a, b] by {
      assert LineResults(h, lines, 2) == [a];
    }
    CollectOfTwo(a, b);
  }

  /** Two results that both hold a value collect into the two values. */
  lemma CollectOfTwo<T, E>(a: Result<T, E>, b: Result<T, E>)
    requires a.Success? && b.Success?
    ensures Collect([a, b]) == Success([a.value, b.value])
  {
    assert [a, b][..1] == [a];
    assert Collect([a]) == Success([a.value]) by {
      assert [a][..0] == [];
      assert [] + [a.value] == [a.value];
    }
    assert [a.value] + [b.value] == [a.value, b.value];
  }

  /** Two entries with different dates map each date to its value. */
  lemma AsMapOfTwo<V>(x: (Date, V), y: (Date, V))
    requires x.0 != y.0
    ensures AsMap([x, y]) == map[x.0 := x.1, y.0 := y.1]
  {
    assert [x, y][..1] == [x] && [x][..0] == [];
  }

  /** Two entries with different dates give the same map in either order. */
  lemma AsMapOfTwoSwapped<V>(x: (Date, V), y: (Date, V))
    requires x.0 != y.0
    ensures AsMap([x, y]) == AsMap([y, x])
  {
    assert [x, y][..1] == [x] && [y, x][..1] == [y];
    assert [x][..0] == [] && [y][..0] == [];
  }

  /** The header of both test files. */
  lemma TestHeader()
    ensures Split("Date,USD,EUR") == ["Date", "USD", "EUR"]
  {
    var r := ["Date", "USD", "EUR"];
    assert Join(r) == "Date,USD,EUR" by {
      assert r[1..] == ["USD", "EUR"] && ["USD", "EUR"][1..] == ["EUR"];
    }
    SplitJoinRoundTrip(r);
  }

  /** Whatever order two lines come in, the map holds their dates in
      ascending order: when the second line's date is the earlier one, the
      entries come out second line first. */
  lemma TwoLinesAscending(lines: seq<string>, t: seq<(Date, ExchangeRate)>)
    requires |lines| == 3
    requires ParseRow(Headers(lines), lines[1], 1).Success?
    requires ParseRow(Headers(lines), lines[2], 2).Success?
    requires Before(ParseRow(Headers(lines), lines[2], 2).value.0, ParseRow(Headers(lines), lines[1], 1).value.0)
    requires StrictlyAscending(t) && ParsedTable(lines) == Success(AsMap(t))
    ensures t == [ParseRow(Headers(lines), lines[2], 2).value, ParseRow(Headers(lines), lines[1], 1).value]
  {
    var a := ParseRow(Headers(lines), lines[1], 1).value;
    var b := ParseRow(Headers(lines), lines[2], 2).value;
    assert ParsedEntries(lines) == Success([a, b]) by {
      TwoDataLines(lines);
    }
    assert AsMap(t) == AsMap([b, a]) by {
      AsMapOfTwoSwapped(a, b);
    }
    assert StrictlyAscending([b, a]);
    AscendingIsDeterminedByMap(t, [b, a]);
  }

  /** parseData on a header and two lines in descending date order: the
      tree map it returns starts with the second line's entry. */
  method ParseDescendingLines(lines: seq<string>) returns (first: Option<Date>)
    requires |lines| == 3
    requires ParseRow(Headers(lines), lines[1], 1).Success?
    requires ParseRow(Headers(lines), lines[2], 2).Success?
    requires Before(ParseRow(Headers(lines), lines[2], 2).value.0, ParseRow(Headers(lines), lines[1], 1).value.0)
    ensures first == Some(ParseRow(Headers(lines), lines[2], 2).value.0)
  {
    var r := ParseData(lines);
    assert r.Success? by {
      TwoDataLines(lines);
    }
    TwoLinesAscending(lines, r.value.entries);
    first := Some(r.value.entries[0].0);
  }

  /** The malformed test row: after the split it has a date and a USD rate
      but no EUR cell, so reading column 2 throws. */
  lemma MalformedTestRow()
    ensures ParseRow(["Date", "USD", "EUR"], "2023-06-04,1.2100,", 1) == Failure(MissingField(1, 2))
  {
    var data := ["2023-06-04", "1.2100"];
    SplitOfMalformedTestRow();
    assert ParseIsoDate(data[0]).Some? by {
      IsoDateExamples();
    }
    assert CellOk(data, 1) by {
      TestRateKeepsScale();
    }
    ShortRowFails(["Date", "USD", "EUR"], data, 1);
  }

  /** A header of three columns with two distinct currency names, and two
      lines "d,x,y" with dates and decimals: the table maps each date to its
      two rates under those names. */
  lemma TwoRowTable(header: string, d1: string, x1: string, y1: string, d2: string, x2: string, y2: string,
                    date1: Date, u1: Decimal, w1: Decimal, date2: Date, u2: Decimal, w2: Decimal)
    requires |Split(header)| == 3 && Split(header)[1] != Split(header)[2]
    requires ',' !in d1 && ',' !in x1 && ',' !in y1 && y1 != "" && x1 != "N/A" && y1 != "N/A"
    requires ',' !in d2 && ',' !in x2 && ',' !in y2 && y2 != "" && x2 != "N/A" && y2 != "N/A"
    requires ParseIsoDate(d1) == Some(date1) && ParseDecimal(x1) == Some(u1) && ParseDecimal(y1) == Some(w1)
    requires ParseIsoDate(d2) == Some(date2) && ParseDecimal(x2) == Some(u2) && ParseDecimal(y2) == Some(w2)
    requires date1 != date2
    ensures ParsedTable([header, d1 + "," + x1 + "," + y1, d2 + "," + x2 + "," + y2]) == Success(map[
      date1 := ExchangeRate(None, map[Split(header)[1] := u1, Split(header)[2] := w1]),
      date2 := ExchangeRate(None, map[Split(header)[1] := u2, Split(header)[2] := w2])])
  {
    var h := Split(header);
    var lines := [header, d1 + "," + x1 + "," + y1, d2 + "," + x2 + "," + y2];
    ThreeFieldRow(h, d1, x1, y1, 1, date1, u1, w1);
    ThreeFieldRow(h, d2, x2, y2, 2, date2, u2, w2);
    var a := (date1, ExchangeRate(None, map[h[1] := u1, h[2] := w1]));
    var b := (date2, ExchangeRate(None, map[h[1] := u2, h[2] := w2]));
    assert ParseRow(h, lines[1], 1) == Success(a);
    assert ParseRow(h, lines[2], 2) == Success(b);
    assert ParsedEntries(lines) == Success([a, b]) by {
      TwoDataLines(lines);
    }
    AsMapOfTwo(a, b);
  }

  /** The lines of the parser's well-formed test file, dates descending. */
  function TestFile(): seq<string> {
    ["Date,USD,EUR", "2023-06-04,1.2100,0.8400", "2023-06-03,1.2200,0.8500"]
  }

  /** The test's cells are comma-free, present and not "N/A", its lines are
      their cells joined by commas, and its two dates differ. */
  lemma TestFileText()
    ensures TestFile()[1] == "2023-06-04" + "," + "1.2100" + "," + "0.8400"
    ensures TestFile()[2] == "2023-06-03" + "," + "1.2200" + "," + "0.8500"
    ensures ',' !in "2023-06-04" && ',' !in "1.2100" && ',' !in "0.8400"
    ensures "0.8400" != "" && "1.2100" != "N/A" && "0.8400" != "N/A"
    ensures ',' !in "2023-06-03" && ',' !in "1.2200" && ',' !in "0.8500"
    ensures "0.8500" != "" && "1.2200" != "N/A" && "0.8500" != "N/A"
    ensures Date(2023, 6, 4) != Date(2023, 6, 3)
  {
  }

  /** "0.8400" is read with scale 4. */
  lemma Decimal08400()
    ensures ParseDecimal("0.8400") == Some(Decimal(8400, 4))
  {
    assert NatToDigits(8400, 5) == "08400" by {
      assert NatToDigits(0, 1) == "0";
      assert NatToDigits(8, 2) == "08";
      assert NatToDigits(84, 3) == "084";
      assert NatToDigits(840, 4) == "0840";
    }
    assert FormatDecimal(Decimal(8400, 4)) == "0.8400";
    Decimals.ParseFormatRoundTrip(Decimal(8400, 4));
  }

  /** "1.2200" is read with scale 4. */
  lemma Decimal12200()
    ensures ParseDecimal("1.2200") == Some(Decimal(12200, 4))
  {
    assert NatToDigits(12200, 5) == "12200" by {
      assert NatToDigits(1, 1) == "1";
      assert NatToDigits(12, 2) == "12";
      assert NatToDigits(122, 3) == "122";
      assert NatToDigits(1220, 4) == "1220";
    }
    assert FormatDecimal(Decimal(12200, 4)) == "1.2200";
    Decimals.ParseFormatRoundTrip(Decimal(12200, 4));
  }

  /** "0.8500" is read with scale 4. */
  lemma Decimal08500()
    ensures ParseDecimal("0.8500") == Some(Decimal(8500, 4))
  {
    assert NatToDigits(8500, 5) == "08500" by {
      assert NatToDigits(0, 1) == "0";
      assert NatToDigits(8, 2) == "08";
      assert NatToDigits(85, 3) == "085";
      assert NatToDigits(850, 4) == "0850";
    }
    assert FormatDecimal(Decimal(8500, 4)) == "0.8500";
    Decimals.ParseFormatRoundTrip(Decimal(8500, 4));
  }

  /** The table the test expects: each date with its USD and EUR rates, all
      of scale 4. */
  function TestFileTable(): map<Date, ExchangeRate> {
    map[Date(2023, 6, 4) := ExchangeRate(None, map["USD" := Decimal(12100, 4), "EUR" := Decimal(8400, 4)]),
        Date(2023, 6, 3) := ExchangeRate(None, map["USD" := Decimal(12200, 4), "EUR" := Decimal(8500, 4)])]
  }

  /** parseData on the test file gives exactly the four rates the test
      checks, 1.2100 kept as 1.2100 and not 1.21, and nothing else. */
  lemma ParseTestFile()
    ensures ParsedTable(TestFile()) == Success(TestFileTable())
  {
    TestFileText();
    TestHeader();
    IsoDateExamples();
    TestRateKeepsScale();
    Decimal08400();
    Decimal12200();
    Decimal08500();
    TwoRowTable("Date,USD,EUR", "2023-06-04", "1.2100", "0.8400", "2023-06-03", "1.2200", "0.8500",
                Date(2023, 6, 4), Decimal(12100, 4), Decimal(8400, 4),
                Date(2023, 6, 3), Decimal(12200, 4), Decimal(8500, 4));
  }

  /** The only ascending entry list that holds two dates lists the earlier
      one first. */
  lemma TwoEntriesInOrder<V>(t: seq<(Date, V)>, a: (Date, V), b: (Date, V))
    requires Before(b.0, a.0)
    requires StrictlyAscending(t) && AsMap(t) == map[a.0 := a.1, b.0 := b.1]
    ensures t == [b, a]
  {
    AsMapOfTwo(b, a);
    AscendingIsDeterminedByMap(t, [b, a]);
  }

  /** parseData run on the test file: the tree it returns lists the later
      line's date first, because the tree orders its dates ascending. */
  method ParseTestFileInOrder() returns (dates: seq<Date>)
    ensures dates == [Date(2023, 6, 3), Date(2023, 6, 4)]
  {
    var r := ParseData(TestFile());
    ParseTestFile();
    var a := (Date(2023, 6, 4), ExchangeRate(None, map["USD" := Decimal(12100, 4), "EUR" := Decimal(8400, 4)]));
    var b := (Date(2023, 6, 3), ExchangeRate(None, map["USD" := Decimal(12200, 4), "EUR" := Decimal(8500, 4)]));
    TwoEntriesInOrder(r.value.entries, a, b);
    dates := [r.value.entries[0].0, r.value.entries[1].0];
  }

  /** The malformed test file in full: the first data line throws, so the
      well-formed line after it is never reached. */
  lemma MalformedTestFileFails()
    ensures ParsedTable(["Date,USD,EUR", "2023-06-04,1.2100,", "2023-06-03,1.2200,0.8500"])
         == Failure(MissingField(1, 2))
  {
    var lines := ["Date,USD,EUR", "2023-06-04,1.2100,", "2023-06-03,1.2200,0.8500"];
    var h := ["Date", "USD", "EUR"];
    assert Headers(lines) == h by {
      TestHeader();
    }
    MalformedTestRow();
    var a := ParseRow(h, lines[1], 1);
    assert LineResults(h, lines, 2) == [a];
    assert ParseRows(h, lines, 2) == Failure(MissingField(1, 2)) by {
      assert [a][..0] == [];
    }
    RowsFailureReachesEnd(h, lines, 2);
  }
}
