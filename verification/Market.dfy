/** The market-data record and the worker's validation of it. */
module Market {

  datatype Option<+T> = None | Some(value: T)

  datatype Result<+T> = Ok(value: T) | Err(error: string)

  /** Timestamps are whole numbers; their unit (seconds or milliseconds) is the sender's. */
  datatype MarketData = MarketData(symbol: string, price: real, timestamp: int, exchange: string)

  const SUPPORTED_SYMBOLS: set<string> := {"BTCUSDT", "DOGEUSDT", "TONUSDT", "SOLUSDT", "ETHUSDT"}

  /** Validation and enrichment. Nothing is rejected: an invalid or unsupported record passes
      through untouched, and the only field ever written is a missing timestamp. */
  function ProcessMarketData(data: MarketData, now: int): MarketData {
    if data.symbol == "" || data.price <= 0.0 then data
    else if data.symbol !in SUPPORTED_SYMBOLS then data
    else if data.timestamp == 0 then data.(timestamp := now)
    else data
  }

  predicate Supported(data: MarketData) {
    data.symbol in SUPPORTED_SYMBOLS && data.price > 0.0
  }

  /** Only a missing timestamp of a supported record with a price is ever written, with the clock; all else
      is left as it is. */
  lemma OnlyMissingStamps(data: MarketData, now: int)
    ensures
      ProcessMarketData(data, now) ==
      if data.timestamp == 0 && Supported(data) then data.(timestamp := now) else data
  {
  }

  /** out is raw after validation at some moment. */
  ghost predicate ProcessedFrom(out: MarketData, raw: MarketData) {
    exists now :: out == ProcessMarketData(raw, now)
  }
}
