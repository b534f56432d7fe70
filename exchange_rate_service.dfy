/**
 * ExchangeRateService: the rate table held in memory. The field starts out
 * null, init replaces it with the table that loading produced, and
 * getRatesForDate looks a date up in it. The three queries that would
 * convert amounts or scan date ranges are stubs that answer null.
 */
module Service {
  import opened Wrappers
  import opened Dates
  import opened Decimals
  import opened Rates
  import opened CsvDataParser
  import opened CsvDataParserProperties

  /** What a lookup throws when init has not run: the NullPointerException
      of calling get on a null map. */
  datatype ServiceError = TableNotLoaded

  class ExchangeRateService {
    /** Map<LocalDate, ExchangeRate> exchangeRates; None is Java's null. */
    var exchangeRates: Option<map<Date, ExchangeRate>>

    /** The constructor leaves the table null. */
    constructor ()
      ensures exchangeRates == None
    {
      exchangeRates := None;
    }

    /** init: the table becomes the one loaded, whatever was there before.
        Loading itself (a download) is replaced by the table passed in. */
    method Init(loaded: map<Date, ExchangeRate>)
      modifies this
      ensures exchangeRates == Some(loaded)
    {
      exchangeRates := Some(loaded);
    }

    /** getRatesForDate: the entry stored under exactly this date, None
        (null) when the date is not in the table, and an exception while the
        table is still null. */
    function GetRatesForDate(date: Date): (r: Result<Option<ExchangeRate>, ServiceError>)
      reads this
      ensures r.Failure? <==> exchangeRates.None?
      ensures r.Success? ==> (r.value.Some? <==> date in exchangeRates.value)
      ensures r.Success? && r.value.Some? ==> r.value.value == exchangeRates.value[date]
    {
      match exchangeRates
      case None => Failure(TableNotLoaded)
      case Some(table) => Success(if date in table then Some(table[date]) else None)
    }

    /** convertCurrency: not implemented, always null. */
    function ConvertCurrency(date: Date, source: string, target: string, amount: Decimal): (r: Option<Decimal>)
      ensures r == None
    {
      None
    }

    /** getHighestRate: not implemented, always null. */
    function GetHighestRate(startDate: Date, endDate: Date, currency: string): (r: Option<Decimal>)
      ensures r == None
    {
      None
    }

    /** getAverageRate: not implemented, always null. */
    function GetAverageRate(startDate: Date, endDate: Date, currency: string): (r: Option<Decimal>)
      ensures r == None
    {
      None
    }
  }

  /** After init with the table parsed from a rate file, looking up the date
      of a line that no later line repeats gives that line's rates. */
  lemma LookupAfterParse(s: ExchangeRateService, lines: seq<string>, k: nat, d: Date)
    requires ParsedTable(lines).Success? && s.exchangeRates == Some(ParsedTable(lines).value)
    requires 1 <= k < |lines| && LineDate(lines[k]) == Some(d)
    requires forall j {:trigger LineDate(lines[j])} :: k < j < |lines| ==> LineDate(lines[j]) != Some(d)
    ensures RowRates(Headers(lines), JavaSplit.Split(lines[k]), k).Success?
    ensures s.GetRatesForDate(d)
         == Success(Some(ExchangeRate(None, RowRates(Headers(lines), JavaSplit.Split(lines[k]), k).value)))
  {
    LastLineWins(lines, k, d);
  }

  /** After init with a parsed table, a date that no line carries looks up
      as None. */
  lemma LookupOfAbsentDate(s: ExchangeRateService, lines: seq<string>, d: Date)
    requires ParsedTable(lines).Success? && s.exchangeRates == Some(ParsedTable(lines).value)
    requires forall j {:trigger LineDate(lines[j])} :: 1 <= j < |lines| ==> LineDate(lines[j]) != Some(d)
    ensures s.GetRatesForDate(d) == Success(None)
  {
    TableKeys(lines);
  }

  /** The service test's table: three days of rates for four currencies, as
      BigDecimal.valueOf writes them (1.074 has scale 3, 150.01 scale 2). */
  function DummyTable(): (t: map<Date, ExchangeRate>)
    ensures forall d :: d in t ==> && ValidDate(d) && t[d].date == None
                                   && t[d].rates.Keys == {"USD", "JPY", "BGN", "GBP"}
                                   && t[d].rates["BGN"] == Decimal(19558, 4)
  {
    map[Date(2023, 5, 30) := ExchangeRate(None, map["USD" := Decimal(1074, 3), "JPY" := Decimal(15001, 2),
                                                    "BGN" := Decimal(19558, 4), "GBP" := Decimal(86365, 5)]),
        Date(2023, 5, 29) := ExchangeRate(None, map["USD" := Decimal(10715, 4), "JPY" := Decimal(15029, 2),
                                                    "BGN" := Decimal(19558, 4), "GBP" := Decimal(86805, 5)]),
        Date(2023, 5, 26) := ExchangeRate(None, map["USD" := Decimal(10751, 4), "JPY" := Decimal(15024, 2),
                                                    "BGN" := Decimal(19558, 4), "GBP" := Decimal(86813, 5)])]
  }

  /** The service test: after init with the table, the 30th of May gives its
      four rates, keeping the scale each was written with, and no EEK. */
  method LookupTestDate() returns (rates: map<string, Decimal>)
    ensures "USD" in rates && rates["USD"] == Decimal(1074, 3)
    ensures "JPY" in rates && rates["JPY"] == Decimal(15001, 2)
    ensures "BGN" in rates && rates["BGN"] == Decimal(19558, 4)
    ensures "GBP" in rates && rates["GBP"] == Decimal(86365, 5)
    ensures "EEK" !in rates
  {
    var service := new ExchangeRateService();
    service.Init(DummyTable());
    var found := service.GetRatesForDate(Date(2023, 5, 30));
    assert service.exchangeRates == Some(DummyTable());
    rates := found.value.value.rates;
  }
}
