# European exchange rates: the CSV rate parser and the in-memory rate store

This project models the two pieces of the exchange-rate API that hold logic.

- **`CsvDataParser.parseData`** reads the European Central Bank rate file. The first line is a header naming a date column and one column per currency. Every later line holds a date and one rate per currency, with the literal `N/A` where there is no rate. The result is a `TreeMap` from `LocalDate` to an `ExchangeRate` record holding that day's currency→`BigDecimal` map.
- **`ExchangeRateService`** holds that table in a field. `init` fills the field, and `getRatesForDate` looks a date up in it. `convertCurrency`, `getHighestRate` and `getAverageRate` are stubs that answer `null`.

Modules, leaves first:

- `Wrappers` (`wrappers.dfy`): `Option` stands in for Java's `null`, `Result` for a thrown exception.
- `Digits` (`digits.dfy`): ASCII digits, their values, and zero-padded rendering.
- `JavaSplit` (`java_split.dfy`): `String.split(",")` exactly as Java does it. A line without a comma comes back whole. Otherwise trailing empty fields are dropped, so `"2023-06-04,1.2100,"` has two fields.
- `Decimals` (`decimals.dfy`): `BigDecimal` as an (unscaled integer, scale) pair. `ParseDecimal` is `new BigDecimal(String)` for an optional sign followed by digits with at most one point and at least one digit, so `.5` and `5.` are decimals. Datatype equality is `BigDecimal.equals`, so `1.2100` and `1.21` differ.
- `Dates` (`dates.dfy`): `LocalDate` as (year, month, day) with its order. `ParseIsoDate` is `LocalDate.parse`, the ISO 8601 calendar date in extended format (`YYYY-MM-DD`, section 4.1.2.2 of ISO 8601:2004), with the sign and width rules of `ISO_LOCAL_DATE` and its strict validity check.
- `Rates` (`exchange_rate.dfy`): the `ExchangeRate` record, with an optional date.
- `DateTreeMaps` (`date_tree_map.dfy`): the `TreeMap` as a class holding a strictly ascending sequence of entries. `Put` inserts or replaces.
- `CsvDataParser` (`csv_data_parser.dfy`): the specification functions `ParsedEntries` and `ParsedTable`, and the imperative `ParseData`, which holds the line loop. The loop's body is `ParseLine` and the column loop inside it is `ParseCells`. Each method is proved equal to its specification.
- `CsvDataParserProperties` (`csv_data_parser_properties.dfy`): when parsing fails and with which exception, which keys the table has, which values they hold, and last-line-wins.
- `CsvDataParserExamples` (`csv_data_parser_examples.dfy`): the parser's two test files.
- `Service` (`exchange_rate_service.dfy`): the `ExchangeRateService` class, and lookups after parsing.

The service's conversion, highest-rate and average-rate queries return `null` in the code, and the model does the same. The controller tests mock the service to throw `InvalidDateRangeException` when the end date is before the start date (ExchangeRateControllerTest.java, lines 147 and 193); the service code never throws it, and the model follows the service code. The parser calls a one-argument `ExchangeRate` constructor that the record class does not declare. The model therefore gives the record an optional date, and the parser leaves it empty.

Exceptions are `ParseError` values: `MissingHeader` (the `NullPointerException` of splitting a `null` header), `MissingField` (`ArrayIndexOutOfBoundsException`), `BadDate` (`DateTimeParseException`) and `BadDecimal` (`NumberFormatException`). The first exception thrown ends the parse.

## Model

| member | source | states |
|---|---|---|
| CsvDataParser.ParseData | src/main/java/com/europeanexchangerates/exchangeapi/util/dataparser/CsvDataParser.java:15-38 | parseData returns a fresh tree map, kept in ascending date order, whose contents are the entries of the data lines put in line order; or it throws exactly the error the specification gives |
| CsvDataParser.ParseLine | src/main/java/com/europeanexchangerates/exchangeapi/util/dataparser/CsvDataParser.java:25-34 | the loop body splits a line, reads its date from field 0 and then its cells, and gives the line's entry or its first exception |
| CsvDataParser.ParseCells | src/main/java/com/europeanexchangerates/exchangeapi/util/dataparser/CsvDataParser.java:28-33 | the column loop over header positions 1..n-1 fills a fresh rates map, skipping N/A, or throws for the first missing or non-decimal cell |
| CsvDataParser.RowsFailureReachesEnd | src/main/java/com/europeanexchangerates/exchangeapi/util/dataparser/CsvDataParser.java:24-35 | once a line throws, the whole parse throws that same exception: later lines are never reached |
| DateTreeMaps.DateTreeMap.Put | src/main/java/com/europeanexchangerates/exchangeapi/util/dataparser/CsvDataParser.java:34 | TreeMap.put maps the date to the new value whether or not it was present, leaves every other date unchanged, and keeps the entries strictly ascending |
| DateTreeMaps.DateTreeMap.constructor | src/main/java/com/europeanexchangerates/exchangeapi/util/dataparser/CsvDataParser.java:16 | a new TreeMap is empty |
| DateTreeMaps.AscendingIsDeterminedByMap | src/main/java/com/europeanexchangerates/exchangeapi/util/dataparser/CsvDataParser.java:16 | two ascending entry sequences with the same map are equal, so iteration order is fixed by the dates alone and not by the order the lines were put in |
| DateTreeMaps.AsMapLastWins | src/main/java/com/europeanexchangerates/exchangeapi/util/dataparser/CsvDataParser.java:34 | a date maps to the value of the last entry put for it |
| DateTreeMaps.InsertAt | src/main/java/com/europeanexchangerates/exchangeapi/util/dataparser/CsvDataParser.java:34 | inserting a new date at its place keeps the order and adds exactly that key |
| DateTreeMaps.ReplaceAt | src/main/java/com/europeanexchangerates/exchangeapi/util/dataparser/CsvDataParser.java:34 | replacing the value of a present date keeps the order and changes only that date's value |
| CsvDataParserProperties.ParseSucceedsIff | src/main/java/com/europeanexchangerates/exchangeapi/util/dataparser/CsvDataParser.java:22-35 | parsing succeeds if and only if there is a header line and every data line has a date in field 0 and, at each header position from 1 on, a cell that is N/A or a decimal |
| CsvDataParserProperties.ParseFailureExplained | src/main/java/com/europeanexchangerates/exchangeapi/util/dataparser/CsvDataParser.java:22-31 | a failure is MissingHeader exactly when there are no lines; otherwise it is the exception of the first failing line, for that line's reason: no field, a bad date, or its first bad cell |
| CsvDataParserProperties.ShortRowFails | src/main/java/com/europeanexchangerates/exchangeapi/util/dataparser/CsvDataParser.java:29-30 | a row with fewer fields than the header, counted after trailing empty fields are dropped, throws; with a good date and good cells before the gap it throws index-out-of-bounds for the first missing column |
| CsvDataParserProperties.BadDateFails | src/main/java/com/europeanexchangerates/exchangeapi/util/dataparser/CsvDataParser.java:26 | a row whose field 0 is not an ISO date throws a date parse error |
| CsvDataParserProperties.BadDecimalFails | src/main/java/com/europeanexchangerates/exchangeapi/util/dataparser/CsvDataParser.java:30-31 | a non-N/A cell that is not a decimal makes the row throw; with the earlier cells good it throws a number format error for that column |
| CsvDataParserProperties.RowOfFieldsSucceedsIff | src/main/java/com/europeanexchangerates/exchangeapi/util/dataparser/CsvDataParser.java:25-34 | a split line parses if and only if it is well formed, and its entry is then its date and its rates, with no date in the record |
| CsvDataParserProperties.RowFailureExplained | src/main/java/com/europeanexchangerates/exchangeapi/util/dataparser/CsvDataParser.java:26-31 | the exception of a failing line is explained by the line: no field, a bad date, or the first bad cell |
| CsvDataParserProperties.CellRatesSucceedsIff | src/main/java/com/europeanexchangerates/exchangeapi/util/dataparser/CsvDataParser.java:29-32 | the column loop completes if and only if every visited cell exists and is N/A or a decimal |
| CsvDataParserProperties.CellRatesFirstError | src/main/java/com/europeanexchangerates/exchangeapi/util/dataparser/CsvDataParser.java:29-31 | when the column loop throws, it throws for the first bad column, as missing field or bad decimal |
| CsvDataParserProperties.CellRatesKeys | src/main/java/com/europeanexchangerates/exchangeapi/util/dataparser/CsvDataParser.java:29-32 | a row's currencies are exactly the header names at positions 1..n-1 whose cell is present and not N/A |
| CsvDataParserProperties.CellRatesValue | src/main/java/com/europeanexchangerates/exchangeapi/util/dataparser/CsvDataParser.java:31 | a currency holds the decimal read from exactly the text of its last non-N/A cell, scale included |
| CsvDataParserProperties.CellRatesIgnoreExtra | src/main/java/com/europeanexchangerates/exchangeapi/util/dataparser/CsvDataParser.java:29 | cells beyond the header's column count are never read |
| CsvDataParserProperties.ExtraCellsIgnored | src/main/java/com/europeanexchangerates/exchangeapi/util/dataparser/CsvDataParser.java:29 | fields after the header's last column change nothing about a line's result |
| CsvDataParserProperties.NotApplicableAndDateColumnAbsent | src/main/java/com/europeanexchangerates/exchangeapi/util/dataparser/CsvDataParser.java:22-32 | a currency whose every column holds N/A on the line is absent for that date, with no zero or placeholder; header position 0 is never a key unless a later column repeats its name |
| CsvDataParser.CollectShape | src/main/java/com/europeanexchangerates/exchangeapi/util/dataparser/CsvDataParser.java:24-35 | collecting line results succeeds if and only if every line does, and then gives the lines' values in order |
| CsvDataParser.CollectFirstError | src/main/java/com/europeanexchangerates/exchangeapi/util/dataparser/CsvDataParser.java:24-35 | a failed collection carries the error of the first failing result |
| CsvDataParser.RowsShape | src/main/java/com/europeanexchangerates/exchangeapi/util/dataparser/CsvDataParser.java:24-35 | the data lines parse if and only if each does, and entry j-1 is then line j's entry |
| CsvDataParserProperties.ParseRowsFirstError | src/main/java/com/europeanexchangerates/exchangeapi/util/dataparser/CsvDataParser.java:24-35 | when the data lines fail, they fail with the first failing line's exception |
| CsvDataParser.ParsedEntries | src/main/java/com/europeanexchangerates/exchangeapi/util/dataparser/CsvDataParser.java:22-35 | the reference definition of the entries put: a failure is MissingHeader exactly when there are no lines, and otherwise names a data line; a success holds exactly one entry per data line |
| CsvDataParserProperties.ParsedEntryAt | src/main/java/com/europeanexchangerates/exchangeapi/util/dataparser/CsvDataParser.java:25-34 | entry j-1 holds line j's field-0 date and the rates of line j's columns |
| CsvDataParserProperties.TableKeys | src/main/java/com/europeanexchangerates/exchangeapi/util/dataparser/CsvDataParser.java:24-34 | the keys of the result are exactly the dates in field 0 of the data lines |
| CsvDataParserProperties.LastLineWins | src/main/java/com/europeanexchangerates/exchangeapi/util/dataparser/CsvDataParser.java:34 | when two lines share a date, the table holds the rates of the later one |
| CsvDataParserProperties.StoredRateIsCellDecimal | src/main/java/com/europeanexchangerates/exchangeapi/util/dataparser/CsvDataParser.java:31-34 | the stored rate of a currency on a date is the decimal read from exactly that cell's text, on the last line with that date |
| JavaSplit.SplitIsFieldsUpToLastNonEmpty | src/main/java/com/europeanexchangerates/exchangeapi/util/dataparser/CsvDataParser.java:22-25 | String.split(",") returns a line without a comma whole; otherwise it returns the comma-separated fields up to the last non-empty one, dropping only empty fields, and no field holds a comma |
| JavaSplit.SplitJoinRoundTrip | src/main/java/com/europeanexchangerates/exchangeapi/util/dataparser/CsvDataParser.java:22-25 | splitting fields joined with commas gives them back, when no field holds a comma and the last is not empty |
| JavaSplit.JoinFields | src/main/java/com/europeanexchangerates/exchangeapi/util/dataparser/CsvDataParser.java:25 | the fields joined by commas give back the line |
| JavaSplit.SplitDropsTrailingEmptyField | src/main/java/com/europeanexchangerates/exchangeapi/util/dataparser/CsvDataParser.java:25 | a trailing empty field is dropped: "a,b," splits into a and b |
| JavaSplit.SplitEdgeCases | src/main/java/com/europeanexchangerates/exchangeapi/util/dataparser/CsvDataParser.java:25 | a line of commas only splits into no field; an empty line into one empty field |
| Decimals.ParseFormatRoundTrip | src/main/java/com/europeanexchangerates/exchangeapi/util/dataparser/CsvDataParser.java:31 | every decimal is read back, unscaled value and scale, from its plain text |
| Decimals.ParseUnsignedOfParts | src/main/java/com/europeanexchangerates/exchangeapi/util/dataparser/CsvDataParser.java:31 | digits with at most one point are read as all their digits, with the scale counting the digits after the point |
| Decimals.ParseUnsignedSound | src/main/java/com/europeanexchangerates/exchangeapi/util/dataparser/CsvDataParser.java:31 | whatever the decimal reader accepts has that shape, and denotes that value |
| Decimals.ParseDecimalMinus | src/main/java/com/europeanexchangerates/exchangeapi/util/dataparser/CsvDataParser.java:31 | a leading minus negates the value |
| Decimals.ParseDecimalPlus | src/main/java/com/europeanexchangerates/exchangeapi/util/dataparser/CsvDataParser.java:31 | a leading plus is dropped |
| Decimals.ScaleDistinguishes | src/main/java/com/europeanexchangerates/exchangeapi/util/dataparser/CsvDataParser.java:31 | 1.2100 and 1.21 denote one number but are different BigDecimals |
| Decimals.NotDecimals | src/main/java/com/europeanexchangerates/exchangeapi/util/dataparser/CsvDataParser.java:31 | an empty cell, a lone point and a second point are not decimals |
| Decimals.TestRateKeepsScale | src/test/java/com/europeanexchangerates/exchangeapi/util/dataparser/CsvZipDataParserTest.java:40 | "1.2100" is read as 12100 with scale 4 |
| Dates.ParseIsoDate | src/main/java/com/europeanexchangerates/exchangeapi/util/dataparser/CsvDataParser.java:26 | a date that LocalDate.parse accepts is a valid date of LocalDate's range |
| Dates.ParseFormatRoundTrip | src/main/java/com/europeanexchangerates/exchangeapi/util/dataparser/CsvDataParser.java:26 | every valid date is read back from its ISO text |
| Dates.BeforeIsStrictTotalOrder | src/main/java/com/europeanexchangerates/exchangeapi/util/dataparser/CsvDataParser.java:16 | the date order is a strict total order, so the tree keeps one entry per date |
| Dates.IsoDateRejectsCommonYearLeapDay | src/main/java/com/europeanexchangerates/exchangeapi/util/dataparser/CsvDataParser.java:26 | 2023-02-29 is not a date |
| Dates.IsoDateRejectsOneDigitMonth | src/main/java/com/europeanexchangerates/exchangeapi/util/dataparser/CsvDataParser.java:26 | a one-digit month is refused |
| Dates.IsoDateExamples | src/test/java/com/europeanexchangerates/exchangeapi/util/dataparser/CsvZipDataParserTest.java:40-43 | the test dates are read as 2023-06-04 and 2023-06-03 |
| CsvDataParserExamples.ThreeFieldRow | src/main/java/com/europeanexchangerates/exchangeapi/util/dataparser/CsvDataParser.java:25-34 | a line "d,x,y" under a three-column header gives its date and both rates under the header names |
| CsvDataParserExamples.TwoDataLines | src/main/java/com/europeanexchangerates/exchangeapi/util/dataparser/CsvDataParser.java:24-35 | two good data lines give their two entries in line order |
| CsvDataParserExamples.TwoLinesAscending | src/test/java/com/europeanexchangerates/exchangeapi/util/dataparser/CsvZipDataParserTest.java:33-43 | lines in descending date order come out of the tree in ascending order |
| CsvDataParserExamples.ParseDescendingLines | src/test/java/com/europeanexchangerates/exchangeapi/util/dataparser/CsvZipDataParserTest.java:33-38 | parseData on two lines whose dates descend returns a tree whose first entry is the later line's date |
| CsvDataParserExamples.TwoRowTable | src/main/java/com/europeanexchangerates/exchangeapi/util/dataparser/CsvDataParser.java:22-34 | a three-column file with two good lines of different dates gives exactly the map of those two dates to their two rates |
| CsvDataParserExamples.MalformedTestRow | src/test/java/com/europeanexchangerates/exchangeapi/util/dataparser/CsvZipDataParserTest.java:48-49 | the malformed row splits into two fields, so column 2 is out of bounds |
| CsvDataParserExamples.MalformedTestFileFails | src/test/java/com/europeanexchangerates/exchangeapi/util/dataparser/CsvZipDataParserTest.java:46-54 | the malformed test file throws index-out-of-bounds at line 1, column 2 |
| JavaSplit.SplitOfMalformedTestRow | src/test/java/com/europeanexchangerates/exchangeapi/util/dataparser/CsvZipDataParserTest.java:49 | "2023-06-04,1.2100," splits into two fields |
| CsvDataParser.ParsedTable | src/main/java/com/europeanexchangerates/exchangeapi/util/dataparser/CsvDataParser.java:15-38 | the reference definition of parseData: a failure is MissingHeader exactly when there are no lines, and otherwise names a data line; a success holds at most one date per data line |
| CsvDataParser.RowOfFields | src/main/java/com/europeanexchangerates/exchangeapi/util/dataparser/CsvDataParser.java:25-34 | the loop body on a split line: its exceptions are about that line and never a missing header; an entry needs a field 0 and its record has no date |
| CsvDataParser.CellRates | src/main/java/com/europeanexchangerates/exchangeapi/util/dataparser/CsvDataParser.java:29-33 | the column loop throws only index-out-of-bounds or number-format exceptions, and only for the line it is on |
| CsvDataParser.LineResultsAt | src/main/java/com/europeanexchangerates/exchangeapi/util/dataparser/CsvDataParser.java:24-34 | the result for line j is the loop body applied to line j, in line order |
| CsvDataParser.RowsErrorLine | src/main/java/com/europeanexchangerates/exchangeapi/util/dataparser/CsvDataParser.java:24-35 | when the data lines fail, the error names one of the data lines and is never a missing header |
| CsvDataParserProperties.TableHoldsEntry | src/main/java/com/europeanexchangerates/exchangeapi/util/dataparser/CsvDataParser.java:34 | the table maps the date of line k to line k's rates when no later entry has that date |
| Decimals.ParseDecimal | src/main/java/com/europeanexchangerates/exchangeapi/util/dataparser/CsvDataParser.java:31 | a decimal is never read from an empty cell, and only a leading minus gives a negative value |
| JavaSplit.Split | src/main/java/com/europeanexchangerates/exchangeapi/util/dataparser/CsvDataParser.java:25 | no field of the result holds a comma, and a line without a comma comes back as its only field |
| Dates.Before | src/main/java/com/europeanexchangerates/exchangeapi/util/dataparser/CsvDataParser.java:16 | the tree's date order is irreflexive and compares the year first: an earlier year is earlier, and an earlier date never has a later year |
| DateTreeMaps.AsMap | src/main/java/com/europeanexchangerates/exchangeapi/util/dataparser/CsvDataParser.java:34 | the map built by putting the entries one after another has exactly the entries' dates as keys |
| DateTreeMaps.AsMapSize | src/main/java/com/europeanexchangerates/exchangeapi/util/dataparser/CsvDataParser.java:34 | putting n entries gives at most n keys |
| Digits.DigitsValueText | src/main/java/com/europeanexchangerates/exchangeapi/util/dataparser/CsvDataParser.java:26 | a run of digits is the zero-padded rendering, at its own width, of the number it denotes |
| Dates.ParseYearSound | src/main/java/com/europeanexchangerates/exchangeapi/util/dataparser/CsvDataParser.java:26 | an accepted year is four unsigned digits that render it, or a sign followed by the zero-padded magnitude, with the sign agreeing with the year |
| Dates.ParseMonthDaySound | src/main/java/com/europeanexchangerates/exchangeapi/util/dataparser/CsvDataParser.java:26 | an accepted month and day are exactly the text -MM-DD of their values |
| Dates.AssembleDateText | src/main/java/com/europeanexchangerates/exchangeapi/util/dataparser/CsvDataParser.java:26 | a year text followed by a month-day text is the date's ISO text, signed or unsigned |
| Dates.ParseIsoDateSound | src/main/java/com/europeanexchangerates/exchangeapi/util/dataparser/CsvDataParser.java:26 | a text that LocalDate.parse accepts is the ISO text of the date returned: the four-digit form when it starts with a digit, else the sign and the zero-padded magnitude of the year |
| CsvDataParserExamples.ThreeFields | src/main/java/com/europeanexchangerates/exchangeapi/util/dataparser/CsvDataParser.java:25 | a three-field line splits into its three fields |
| CsvDataParserExamples.AsMapOfTwo | src/main/java/com/europeanexchangerates/exchangeapi/util/dataparser/CsvDataParser.java:34 | putting two entries with different dates gives the map of both |
| CsvDataParserExamples.Decimal08400 | src/test/java/com/europeanexchangerates/exchangeapi/util/dataparser/CsvZipDataParserTest.java:41 | "0.8400" is read as 8400 with scale 4 |
| CsvDataParserExamples.Decimal12200 | src/test/java/com/europeanexchangerates/exchangeapi/util/dataparser/CsvZipDataParserTest.java:42 | "1.2200" is read as 12200 with scale 4 |
| CsvDataParserExamples.Decimal08500 | src/test/java/com/europeanexchangerates/exchangeapi/util/dataparser/CsvZipDataParserTest.java:43 | "0.8500" is read as 8500 with scale 4 |
| CsvDataParserExamples.ParseTestFile | src/test/java/com/europeanexchangerates/exchangeapi/util/dataparser/CsvZipDataParserTest.java:31-44 | the test file parses to exactly 2023-06-04 with USD 1.2100 and EUR 0.8400, and 2023-06-03 with USD 1.2200 and EUR 0.8500, all of scale 4 |
| CsvDataParserExamples.TwoEntriesInOrder | src/main/java/com/europeanexchangerates/exchangeapi/util/dataparser/CsvDataParser.java:16 | an ascending entry sequence holding exactly two dates lists the earlier one first |
| CsvDataParserExamples.ParseTestFileInOrder | src/test/java/com/europeanexchangerates/exchangeapi/util/dataparser/CsvZipDataParserTest.java:33-38 | parseData on the test file returns a tree whose entries run 2023-06-03 then 2023-06-04 |
| Service.DummyTable | src/test/java/com/europeanexchangerates/exchangeapi/service/ExchangeRateServiceTest.java:33-52 | the service test's table: every date is valid, every record has no date and exactly USD, JPY, BGN and GBP, and BGN is 1.9558 on every day |
| Service.ExchangeRateService.constructor | src/main/java/com/europeanexchangerates/exchangeapi/service/ExchangeRateService.java:17-19 | a new service has a null table |
| Service.ExchangeRateService.Init | src/main/java/com/europeanexchangerates/exchangeapi/service/ExchangeRateService.java:21-24 | init replaces the table wholesale with the loaded map |
| Service.ExchangeRateService.GetRatesForDate | src/main/java/com/europeanexchangerates/exchangeapi/service/ExchangeRateService.java:33-36 | an exact lookup that reads only: the entry stored for the date, unchanged, when the date is a key; null when it is not; an exception while the table is still null |
| Service.ExchangeRateService.ConvertCurrency | src/main/java/com/europeanexchangerates/exchangeapi/service/ExchangeRateService.java:38-41 | returns null for every argument |
| Service.ExchangeRateService.GetHighestRate | src/main/java/com/europeanexchangerates/exchangeapi/service/ExchangeRateService.java:43-46 | returns null for every argument |
| Service.ExchangeRateService.GetAverageRate | src/main/java/com/europeanexchangerates/exchangeapi/service/ExchangeRateService.java:48-51 | returns null for every argument |
| Service.LookupAfterParse | src/main/java/com/europeanexchangerates/exchangeapi/service/ExchangeRateService.java:33-36 | after init with a parsed table, a date looks up as the rates of the last line carrying it |
| Service.LookupOfAbsentDate | src/main/java/com/europeanexchangerates/exchangeapi/service/ExchangeRateService.java:35 | after init with a parsed table, a date that no line carries looks up as null |
| Service.LookupTestDate | src/test/java/com/europeanexchangerates/exchangeapi/service/ExchangeRateServiceTest.java:58-71 | after init with the test's table, 2023-05-30 gives USD 1.074, JPY 150.01, BGN 1.9558 and GBP 0.86365 with their scales, and no EEK |

## Left out

- The loader that `init` calls in the running service (util/UrlCsvZipDataDownloader.java, line 38) builds each record with its date, `new ExchangeRate(date, rates)`. The Service lemmas compose the service with `CsvDataParser`, whose records carry no date, and not with that loader.
- Downloading the rate file and unpacking the ZIP (`loadCSVData`, the downloader classes): this is network and archive I/O. `Init` receives the loaded table as a parameter instead.
- Decoding bytes into characters and cutting the stream into lines (`InputStreamReader`, `BufferedReader.readLine`): the parser takes the sequence of lines that `readLine` would return, without terminators.
- The HTTP controller and the exception handler: request and response mapping only.
- Currency conversion, highest and average rates, rounding and date-range validation: the code has none of these, and the three queries return `null`, which the model states.
- Decimals.ParseDecimal: accepts only an optional sign followed by ASCII digits with at most one point and at least one digit. `new BigDecimal(String)` also accepts an exponent (`1E3`) and non-ASCII digits, which the model refuses.
- DateTreeMaps.DateTreeMap.Put: keeps a sorted sequence searched from the front instead of a red-black tree. The map and its iteration order are the same; running time and tree shape are not modelled.
- Service.ExchangeRateService.GetRatesForDate: returns the record by value. Java returns a reference to the stored, mutable `HashMap`, and aliasing through it is not modelled.
- Calling `getRatesForDate` before `init` throws a `NullPointerException`, modelled as `TableNotLoaded`. In the running application the container calls `init` first.
