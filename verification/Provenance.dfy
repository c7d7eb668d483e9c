/** From adapter to answer: the single consumer feeds the cache with what the pipeline delivers
    (server.go), so every price a query returns was received from some adapter. */
module Provenance {
  import opened Market
  import opened Pipeline
  import opened PipelineConservation
  import opened Store
  import opened Keys
  import opened CacheLog
  import opened Cache
  import opened CacheRefinement
  import PriceQueries

  /** The records whose storing got as far as the first command, in order. */
  function Written(log: seq<Command>): seq<MarketData> {
    if log == [] then []
    else
      var c := log[|log| - 1];
      Written(log[..|log| - 1]) + if c.SetLatest? then [c.data] else []
  }

  /** The consumer stores the records it takes from the result channel one at a time and in order, some
      perhaps not at all: taken says which consumed record each stored one was. */
  ghost predicate FedBy(log: seq<Command>, consumed: seq<Item>, taken: seq<nat>) {
    && |taken| == |Written(log)|
    && (forall i, j :: 0 <= i < j < |taken| ==> taken[i] < taken[j])
    && forall i :: 0 <= i < |taken| ==> taken[i] < |consumed| && Written(log)[i] == consumed[taken[i]].data
  }

  /** The record the consumer is storing has been written. */
  lemma {:induction false} BeingStoredIsWritten(log: seq<Command>)
    requires Run(log) && WriterAfter(log).LatestSet?
    ensures WriterAfter(log).data in Written(log)
  {
    var n := |log| - 1;
    if !log[n].SetLatest? {
      BeingStoredIsWritten(log[..n]);
    }
  }

  lemma {:induction false} TicksAreWritten(log: seq<Command>, key: string, i: nat)
    requires Run(log) && i < |Ticks(log, key)|
    ensures Ticks(log, key)[i] in Written(log) && SeriesKeyOf(Ticks(log, key)[i]) == key
  {
    var n := |log| - 1;
    if i < |Ticks(log[..n], key)| {
      TicksAreWritten(log[..n], key, i);
    } else {
      BeingStoredIsWritten(log[..n]);
    }
  }

  /** raw was received by a fan-in reader under this series key. */
  ghost predicate ReceivedUnder(s: State, key: string, raw: MarketData) {
    exists r :: 0 <= r < |s.readers| && raw in s.readers[r].received && SeriesKeyOf(raw) == key
  }

  /** Validation touches neither symbol, price nor exchange. */
  lemma ValidationKeepsQuote(out: MarketData, raw: MarketData)
    requires ProcessedFrom(out, raw)
    ensures out.symbol == raw.symbol && out.price == raw.price && out.exchange == raw.exchange
  {
  }

  /** A record the consumer stored was received by a fan-in reader, but for its validation. */
  lemma WrittenWasReceived(cfg: Config, steps: seq<Step>, s: State, log: seq<Command>, taken: seq<nat>,
                           d: MarketData) returns (raw: MarketData)
    requires cfg.Valid() && Reached(cfg, steps, s) && FedBy(log, s.consumed, taken) && d in Written(log)
    ensures ProcessedFrom(d, raw) && exists r :: 0 <= r < |s.readers| && raw in s.readers[r].received
  {
    hide ProcessMarketData;
    var k :| 0 <= k < |Written(log)| && Written(log)[k] == d;
    var item := s.consumed[taken[k]];
    PayloadsAlwaysKept(cfg, steps, s);
    assert item in s.consumed && item.data == d;
    raw := s.readers[item.src].received[item.idx];
  }

  /** A logged price is the stored form of a price received for its symbol and exchange. */
  lemma LoggedWasReceived(cfg: Config, steps: seq<Step>, s: State, log: seq<Command>, taken: seq<nat>, key: string,
                          p: real) returns (raw: MarketData)
    requires cfg.Valid() && Reached(cfg, steps, s) && Run(log) && FedBy(log, s.consumed, taken)
    requires PriceQueries.FromLog(Ticks(log, key), p)
    ensures ReceivedUnder(s, key, raw) && p == StoredPrice(raw.price) && SeriesKeyOf(raw) == key
    ensures LoggedFor(log, key, raw.symbol, raw.exchange)
  {
    hide FormatPrice, ParsePrice, TimeSeriesKey, ProcessMarketData;
    var ticks := Ticks(log, key);
    var i: nat :| PriceQueries.LastOfItsPrice(ticks, i) && p == StoredPrice(ticks[i].price);
    TicksAreWritten(log, key, i);
    raw := WrittenWasReceived(cfg, steps, s, log, taken, ticks[i]);
    ValidationKeepsQuote(ticks[i], raw);
  }

  /** Whatever the pipeline dropped, reordered or restarted, and whatever the cache evicted or failed
      to look up: a returned price is the stored form of a price an adapter delivered for that symbol
      and exchange. */
  lemma EveryAnswerWasReceived(cfg: Config, steps: seq<Step>, s: State, log: seq<Command>, taken: seq<nat>, now: real,
                               symbol: string, exchange: string, lo: real, hi: real,
                               reply: seq<Member>, lost: set<Member>, d: MarketData) returns (raw: MarketData)
    requires cfg.Valid() && Reached(cfg, steps, s) && Run(log) && FedBy(log, s.consumed, taken)
    requires
      var scores := Scores(Replay(log), now, TimeSeriesKey(symbol, exchange));
      IsReply(scores, lo, hi, reply) && d in Entries(symbol, exchange, scores, reply, lost)
    ensures ReceivedUnder(s, TimeSeriesKey(symbol, exchange), raw) && d.price == StoredPrice(raw.price)
  {
    hide Replay, TimeSeriesKey, PriceQueries.FromLog, StoredPrice;
    PriceQueries.EntriesFromLog(log, now, symbol, exchange, lo, hi, reply, lost);
    raw := LoggedWasReceived(cfg, steps, s, log, taken, TimeSeriesKey(symbol, exchange), d.price);
  }

  /** The same for an answer across exchanges. The entry names the symbol and exchange the price was
      delivered for exactly when neither of those holds a ':'. */
  lemma EveryCrossAnswerWasReceived(cfg: Config, steps: seq<Step>, s: State, log: seq<Command>, taken: seq<nat>,
                                    now: real, symbol: string, keys: seq<string>, replies: map<string, seq<Member>>,
                                    from: int, to: int, f: ReadFaults, d: MarketData) returns (raw: MarketData)
    requires cfg.Valid() && Reached(cfg, steps, s) && Run(log) && FedBy(log, s.consumed, taken)
    requires Enumerates(keys, LiveSeriesKeys(Replay(log), now, TimeSeriesKey(symbol, "")))
    requires AreReplies(Replay(log), now, from, to, replies)
    requires d in AllParts(Replay(log), now, symbol, keys, replies, from, to, f)
    ensures SeriesKeyOf(raw) in keys && ReceivedUnder(s, SeriesKeyOf(raw), raw) && d.price == StoredPrice(raw.price)
    ensures ColonFree(symbol) ==>
      (raw.symbol == d.symbol && raw.exchange == d.exchange <==> ColonFree(raw.symbol) && ColonFree(raw.exchange))
    ensures ColonFree(symbol) && PriceQueries.WellNamed(log) ==> raw.symbol == d.symbol && raw.exchange == d.exchange
  {
    hide Replay, PriceQueries.FromLog, StoredPrice, AllParts, KeyEntries, Split, Run;
    var key := PriceQueries.CrossFromLog(log, now, symbol, keys, replies, from, to, f, d);
    raw := LoggedWasReceived(cfg, steps, s, log, taken, key, d.price);
    PartNames(Replay(log), now, symbol, key, replies, from, to, f, d);
    PriceQueries.ListedKeyIsLive(keys, LiveSeriesKeys(Replay(log), now, TimeSeriesKey(symbol, "")), key);
    if ColonFree(symbol) {
      NamesReportedIff(symbol, raw.symbol, raw.exchange);
      if PriceQueries.WellNamed(log) {
        LoggedNamesAreGood(log, key, raw.symbol, raw.exchange);
      }
    }
  }

  /** Entries of a key carry the symbol asked for and the key's third part. */
  lemma PartNames(db: Db, now: real, symbol: string, key: string, replies: map<string, seq<Member>>,
                  from: int, to: int, f: ReadFaults, d: MarketData)
    requires AreReplies(db, now, from, to, replies) && d in KeyPart(db, now, symbol, key, replies, from, to, f)
    ensures |Split(key)| >= 3 && d.symbol == symbol && d.exchange == Split(key)[2]
  {
    hide Split, Scores;
  }

  /** Some tick logged under the key names this symbol and exchange. */
  ghost predicate LoggedFor(log: seq<Command>, key: string, symbol: string, exchange: string) {
    exists t :: t in Ticks(log, key) && t.symbol == symbol && t.exchange == exchange
  }

  lemma {:induction false} LoggedNamesAreGood(log: seq<Command>, key: string, symbol: string, exchange: string)
    requires PriceQueries.WellNamed(log) && LoggedFor(log, key, symbol, exchange)
    ensures PriceQueries.GoodName(symbol, exchange)
  {
    var n := |log| - 1;
    if Stores(log[n], key) && log[n].data.symbol == symbol && log[n].data.exchange == exchange {
      assert PriceQueries.GoodName(log[n].data.symbol, log[n].data.exchange);
    } else {
      LoggedNamesAreGood(log[..n], key, symbol, exchange);
    }
  }

  /** And for a latest record: symbol, price and exchange are as some adapter delivered them. */
  lemma EveryLatestWasReceived(cfg: Config, steps: seq<Step>, s: State, log: seq<Command>, taken: seq<nat>, now: real,
                               key: string, d: MarketData) returns (raw: MarketData)
    requires cfg.Valid() && Reached(cfg, steps, s) && FedBy(log, s.consumed, taken)
    requires Get(Replay(log), now, key) == Some(d)
    ensures d.symbol == raw.symbol && d.price == raw.price && d.exchange == raw.exchange && LatestKeyOf(raw) == key
    ensures exists r :: 0 <= r < |s.readers| && raw in s.readers[r].received
  {
    AlwaysLastWritten(log, key);
    var w := LastWrite(log, key).value;
    hide Replay, LatestKey, ProcessMarketData;
    SetIsWritten(log, w);
    raw := WrittenWasReceived(cfg, steps, s, log, taken, d);
    ValidationKeepsQuote(d, raw);
  }

  lemma {:induction false} SetIsWritten(log: seq<Command>, w: nat)
    requires w < |log| && log[w].SetLatest?
    ensures log[w].data in Written(log)
  {
    if w < |log| - 1 {
      SetIsWritten(log[..|log| - 1], w);
    }
  }
}
