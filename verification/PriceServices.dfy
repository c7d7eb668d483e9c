/** The price service (prices.go) over the cache: what it reports, in terms of the ticks logged. */
module PriceServices {
  import opened Market
  import opened Store
  import opened Keys
  import opened CacheLog
  import opened Cache
  import opened CacheRefinement
  import opened PriceStats
  import opened PriceQueries
  import opened PriceAccuracy
  import Rounding

  class PriceService {
    const cache: RedisAdapter

    constructor (cache: RedisAdapter)
      ensures this.cache == cache
    {
      this.cache := cache;
    }

    /** The highest price of the last period on one exchange: the log's, whenever the query is
        faithful and no command fails; an error exactly when nothing was logged. */
    method GetHighestPriceByExchange(now: real, symbol: string, exchange: string, period: real, f: ReadFaults)
      returns (r: Result<real>)
      requires cache.Valid()
      ensures
        var key := TimeSeriesKey(symbol, exchange);
        var ticks := Ticks(cache.log, key);
        var lo, hi := (now - period).Floor as real, now.Floor as real;
        f == NO_READ_FAULTS && Faithful(cache.log, now, key, period) ==>
          && (r.Err? <==> NothingLogged(ticks, lo, hi))
          && (r.Ok? ==> HighestLogged(ticks, lo, hi, r.value))
      ensures r.Ok? ==> FromLog(Ticks(cache.log, TimeSeriesKey(symbol, exchange)), r.value)
    {
      hide FromLog;
      var from, to := now - period, now;
      var got, reply := cache.GetPricesInRangeByExchange(now, symbol, exchange, from, to, f);
      if got.Err? {
        return Err("failed to get price data from cache");
      }
      ghost var key := TimeSeriesKey(symbol, exchange);
      if f == NO_READ_FAULTS && Faithful(cache.log, now, key, period) {
        assert f.Lost(key) == {};
        QueryMatchesLog(cache.log, now, period, symbol, exchange, reply, {});
        SamePricesSameEmptiness(got.value, Ticks(cache.log, key), from.Floor as real, to.Floor as real);
      }
      if |got.value| > 0 {
        var highest := FindHighestPrice(got.value);
        EntriesFromLog(cache.log, now, symbol, exchange, from.Floor as real, to.Floor as real, reply, f.Lost(key));
        if f == NO_READ_FAULTS && Faithful(cache.log, now, key, period) {
          SamePricesSameHighest(got.value, Ticks(cache.log, key), from.Floor as real, to.Floor as real, highest);
        }
        return Ok(highest);
      }
      return Err("no data found");
    }

    /** The lowest price of the last period on one exchange, likewise. */
    method GetLowestPriceByExchange(now: real, symbol: string, exchange: string, period: real, f: ReadFaults)
      returns (r: Result<real>)
      requires cache.Valid()
      ensures
        var key := TimeSeriesKey(symbol, exchange);
        var ticks := Ticks(cache.log, key);
        var lo, hi := (now - period).Floor as real, now.Floor as real;
        f == NO_READ_FAULTS && Faithful(cache.log, now, key, period) ==>
          && (r.Err? <==> NothingLogged(ticks, lo, hi))
          && (r.Ok? ==> LowestLogged(ticks, lo, hi, r.value))
      ensures r.Ok? ==> FromLog(Ticks(cache.log, TimeSeriesKey(symbol, exchange)), r.value)
    {
      hide FromLog;
      var from, to := now - period, now;
      var got, reply := cache.GetPricesInRangeByExchange(now, symbol, exchange, from, to, f);
      if got.Err? {
        return Err("failed to get price data from cache");
      }
      ghost var key := TimeSeriesKey(symbol, exchange);
      if f == NO_READ_FAULTS && Faithful(cache.log, now, key, period) {
        assert f.Lost(key) == {};
        QueryMatchesLog(cache.log, now, period, symbol, exchange, reply, {});
        SamePricesSameEmptiness(got.value, Ticks(cache.log, key), from.Floor as real, to.Floor as real);
      }
      if |got.value| > 0 {
        var lowest := FindLowestPrice(got.value);
        EntriesFromLog(cache.log, now, symbol, exchange, from.Floor as real, to.Floor as real, reply, f.Lost(key));
        if f == NO_READ_FAULTS && Faithful(cache.log, now, key, period) {
          SamePricesSameLowest(got.value, Ticks(cache.log, key), from.Floor as real, to.Floor as real, lowest);
        }
        return Ok(lowest);
      }
      return Err("no data found");
    }

    /** The average price of the last period on one exchange: under the same conditions the rounded
        mean of the distinct prices logged. */
    method GetAveragePriceByExchange(now: real, symbol: string, exchange: string, period: real, f: ReadFaults)
      returns (r: Result<real>)
      requires cache.Valid()
      ensures
        var key := TimeSeriesKey(symbol, exchange);
        var ticks := Ticks(cache.log, key);
        var lo, hi := (now - period).Floor as real, now.Floor as real;
        f == NO_READ_FAULTS && Faithful(cache.log, now, key, period) ==>
          && (r.Err? <==> NothingLogged(ticks, lo, hi))
          && (r.Ok? ==> AverageLogged(ticks, lo, hi, r.value) && AverageNear(ticks, lo, hi, r.value))
      ensures r.Ok? ==> AverageFromLog(Ticks(cache.log, TimeSeriesKey(symbol, exchange)), r.value)
    {
      hide FromLog, AverageLogged, AverageNear, RoundedMean, NothingLogged, Mean;
      var from, to := now - period, now;
      var got, reply := cache.GetPricesInRangeByExchange(now, symbol, exchange, from, to, f);
      if got.Err? {
        return Err("failed to get price data from cache");
      }
      ghost var key := TimeSeriesKey(symbol, exchange);
      if f == NO_READ_FAULTS && Faithful(cache.log, now, key, period) {
        assert f.Lost(key) == {};
        QueryMatchesLog(cache.log, now, period, symbol, exchange, reply, {});
        SamePricesSameEmptiness(got.value, Ticks(cache.log, key), from.Floor as real, to.Floor as real);
      }
      if |got.value| > 0 {
        var average := CalculateAveragePrice(got.value);
        EntriesFromLog(cache.log, now, symbol, exchange, from.Floor as real, to.Floor as real, reply, f.Lost(key));
        if f == NO_READ_FAULTS && Faithful(cache.log, now, key, period) {
          AverageMatchesLog(cache.log, now, period, symbol, exchange, reply);
          AverageIsNear(Ticks(cache.log, key), from.Floor as real, to.Floor as real, average);
        }
        return Ok(average);
      }
      return Err("no data found");
    }

    /** The highest price of the last period over all exchanges: the highest entry any series key of the symbol
        contributes, near the highest price logged for the symbol whenever every exchange's query is faithful
        and no range query fails; then an error exactly when nothing was logged. */
    method GetHighestPrice(now: real, symbol: string, period: real, f: ReadFaults)
      returns (r: Result<real>, ghost keys: seq<string>, ghost replies: map<string, seq<Member>>)
      requires cache.Valid()
      ensures
        var lo, hi := (now - period).Floor as real, now.Floor as real;
        f.keysOk && f.rangeFail == {} && AllFaithful(cache.log, now, symbol, period) ==>
          && (r.Err? <==> NothingQuoted(cache.log, symbol, lo, hi))
          && (r.Ok? ==> exists p :: TopQuoted(cache.log, symbol, lo, hi, p) && Near(r.value, p))
      ensures r.Ok? ==>
        exists key :: key in LiveSeriesKeys(cache.db, now, TimeSeriesKey(symbol, ""))
          && FromLog(Ticks(cache.log, key), r.value)
      ensures f.keysOk ==>
        && Enumerates(keys, LiveSeriesKeys(cache.db, now, TimeSeriesKey(symbol, "")))
        && AreReplies(cache.db, now, (now - period).Floor, now.Floor, replies)
        && (forall k :: k in keys && |Split(k)| >= 3 && k !in f.rangeFail ==> k in replies)
      ensures r.Ok? ==> f.keysOk
      ensures r.Ok? ==>
        IsHighest(AllParts(cache.db, now, symbol, keys, replies, (now - period).Floor, now.Floor, f), r.value)
      ensures r.Err? && f.keysOk ==>
        AllParts(cache.db, now, symbol, keys, replies, (now - period).Floor, now.Floor, f) == []
    {
      var from, to := now - period, now;
      var got: Result<seq<MarketData>>;
      got, keys, replies := cache.GetPricesInRange(now, symbol, from, to, f);
      if got.Err? {
        return Err("failed to get price data from cache"), [], map[];
      }
      if f.rangeFail == {} && AllFaithful(cache.log, now, symbol, period) {
        AnswerIsCrossReply(cache.log, now, period, symbol, keys, replies, f);
        CrossEmptyIff(cache.log, now, period, symbol, keys, replies);
      }
      if |got.value| > 0 {
        var highest := FindHighestPrice(got.value);
        hide *;
        ghost var key := HighestFromLog(cache.log, now, symbol, keys, replies, from.Floor, to.Floor, f, got.value,
                                        highest);
        if f.rangeFail == {} && AllFaithful(cache.log, now, symbol, period) {
          ghost var unfailing :=
            AllParts(cache.db, now, symbol, keys, replies, from.Floor, to.Floor, NO_READ_FAULTS);
          SamePricesSameExtremes(got.value, unfailing, highest);
          ghost var p := CrossHighestNear(cache.log, now, period, symbol, keys, replies, highest);
        }
        return Ok(highest), keys, replies;
      }
      return Err("no data found"), keys, replies;
    }

    /** The lowest price of the last period over all exchanges: the lowest entry any series key of the symbol
        contributes, near the lowest price logged for the symbol whenever every exchange's query is faithful
        and no range query fails; then an error exactly when nothing was logged. */
    method GetLowestPrice(now: real, symbol: string, period: real, f: ReadFaults)
      returns (r: Result<real>, ghost keys: seq<string>, ghost replies: map<string, seq<Member>>)
      requires cache.Valid()
      ensures
        var lo, hi := (now - period).Floor as real, now.Floor as real;
        f.keysOk && f.rangeFail == {} && AllFaithful(cache.log, now, symbol, period) ==>
          && (r.Err? <==> NothingQuoted(cache.log, symbol, lo, hi))
          && (r.Ok? ==> exists p :: BottomQuoted(cache.log, symbol, lo, hi, p) && Near(r.value, p))
      ensures r.Ok? ==>
        exists key :: key in LiveSeriesKeys(cache.db, now, TimeSeriesKey(symbol, ""))
          && FromLog(Ticks(cache.log, key), r.value)
      ensures f.keysOk ==>
        && Enumerates(keys, LiveSeriesKeys(cache.db, now, TimeSeriesKey(symbol, "")))
        && AreReplies(cache.db, now, (now - period).Floor, now.Floor, replies)
        && (forall k :: k in keys && |Split(k)| >= 3 && k !in f.rangeFail ==> k in replies)
      ensures r.Ok? ==> f.keysOk
      ensures r.Ok? ==>
        IsLowest(AllParts(cache.db, now, symbol, keys, replies, (now - period).Floor, now.Floor, f), r.value)
      ensures r.Err? && f.keysOk ==>
        AllParts(cache.db, now, symbol, keys, replies, (now - period).Floor, now.Floor, f) == []
    {
      var from, to := now - period, now;
      var got: Result<seq<MarketData>>;
      got, keys, replies := cache.GetPricesInRange(now, symbol, from, to, f);
      if got.Err? {
        return Err("failed to get price data from cache"), [], map[];
      }
      if f.rangeFail == {} && AllFaithful(cache.log, now, symbol, period) {
        AnswerIsCrossReply(cache.log, now, period, symbol, keys, replies, f);
        CrossEmptyIff(cache.log, now, period, symbol, keys, replies);
      }
      if |got.value| > 0 {
        var lowest := FindLowestPrice(got.value);
        hide *;
        ghost var key := LowestFromLog(cache.log, now, symbol, keys, replies, from.Floor, to.Floor, f, got.value,
                                        lowest);
        if f.rangeFail == {} && AllFaithful(cache.log, now, symbol, period) {
          ghost var unfailing :=
            AllParts(cache.db, now, symbol, keys, replies, from.Floor, to.Floor, NO_READ_FAULTS);
          SamePricesSameExtremes(got.value, unfailing, lowest);
          ghost var p := CrossLowestNear(cache.log, now, period, symbol, keys, replies, lowest);
        }
        return Ok(lowest), keys, replies;
      }
      return Err("no data found"), keys, replies;
    }

    /** The average price of the last period over all exchanges: under the same conditions near the mean of
        the prices logged for the symbol, taken one per exchange and price text. */
    method GetAveragePrice(now: real, symbol: string, period: real, f: ReadFaults)
      returns (r: Result<real>, ghost keys: seq<string>, ghost replies: map<string, seq<Member>>)
      requires cache.Valid()
      ensures
        var lo, hi := (now - period).Floor as real, now.Floor as real;
        f.keysOk && f.rangeFail == {} && AllFaithful(cache.log, now, symbol, period) ==>
          && (r.Err? <==> NothingQuoted(cache.log, symbol, lo, hi))
          && (r.Ok? ==> AverageNearAcross(cache.log, symbol, lo, hi, r.value))
      ensures f.keysOk ==>
        && Enumerates(keys, LiveSeriesKeys(cache.db, now, TimeSeriesKey(symbol, "")))
        && AreReplies(cache.db, now, (now - period).Floor, now.Floor, replies)
        && (forall k :: k in keys && |Split(k)| >= 3 && k !in f.rangeFail ==> k in replies)
      ensures r.Ok? ==> f.keysOk
      ensures f.keysOk ==>
        var all := AllParts(cache.db, now, symbol, keys, replies, (now - period).Floor, now.Floor, f);
        if all == [] then r.Err? else r == Ok(Rounding.RoundTo(Mean(all), Rounding.Cents))
    {
      assert cache.db == Replay(cache.log);
      hide *;
      var from, to := now - period, now;
      var got: Result<seq<MarketData>>;
      got, keys, replies := cache.GetPricesInRange(now, symbol, from, to, f);
      if got.Err? {
        return Err("failed to get price data from cache"), [], map[];
      }
      if f.rangeFail == {} && AllFaithful(cache.log, now, symbol, period) {
        AnswerIsCrossReply(cache.log, now, period, symbol, keys, replies, f);
        CrossEmptyIff(cache.log, now, period, symbol, keys, replies);
        if |got.value| > 0 {
          ghost var unfailing :=
            AllParts(cache.db, now, symbol, keys, replies, from.Floor, to.Floor, NO_READ_FAULTS);
          SamePricesSameMean(got.value, unfailing);
          AverageIsNearAcross(cache.log, now, period, symbol, keys, replies);
        }
      }
      if |got.value| > 0 {
        var average := CalculateAveragePrice(got.value);
        return Ok(average), keys, replies;
      }
      return Err("no data found"), keys, replies;
    }
  }
}
