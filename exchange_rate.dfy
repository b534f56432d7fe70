/** The ExchangeRate record that the parser builds and the service returns. */
module Rates {
  import opened Wrappers
  import opened Dates
  import opened Decimals

  /** The rates of one day by currency code, and that day when the record
      was given one: getDate and getRates are the two fields. */
  datatype ExchangeRate = ExchangeRate(date: Option<Date>, rates: map<string, Decimal>)
}
