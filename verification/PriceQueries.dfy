/** The answers of the cache's period queries (redis.go) in terms of the ticks logged, for one exchange and
    across exchanges, and the statistics the price service computes of them (prices.go). */
module PriceQueries {
  import opened Market
  import opened Store
  import opened Keys
  import opened CacheLog
  import opened Cache
  import opened CacheRefinement
  import opened PriceStats
  import Rounding

  // ---------------------------------------------------------------- replies and their entries

  /** Without failed lookups the entries are the reply, item by item. */
  lemma {:induction false} EntriesOfReply(symbol: string, exchange: string, scores: map<Member, real>,
                                          reply: seq<Member>, lost: set<Member>)
    requires forall i :: 0 <= i < |reply| ==> reply[i] in scores && reply[i] !in lost
    ensures |Entries(symbol, exchange, scores, reply, lost)| == |reply|
    ensures forall i :: 0 <= i < |reply| ==>
      Entries(symbol, exchange, scores, reply, lost)[i] == Entry(symbol, exchange, reply[i], scores[reply[i]])
  {
    if reply != [] {
      EntriesOfReply(symbol, exchange, scores, reply[..|reply| - 1], lost);
    }
  }

  /** With failed lookups, what remains still comes from the reply. */
  lemma {:induction false} EntriesFromReply(symbol: string, exchange: string, scores: map<Member, real>,
                                            reply: seq<Member>, lost: set<Member>, d: MarketData)
    requires forall i :: 0 <= i < |reply| ==> reply[i] in scores
    requires d in Entries(symbol, exchange, scores, reply, lost)
    ensures exists m :: m in reply && m !in lost && d == Entry(symbol, exchange, m, scores[m])
  {
    var n := |reply| - 1;
    if !(reply[n] !in lost && d == Entry(symbol, exchange, reply[n], scores[reply[n]])) {
      EntriesFromReply(symbol, exchange, scores, reply[..n], lost, d);
    }
  }

  /** Every entry whose lookup succeeds is there. */
  lemma {:induction false} FoundIsReturned(symbol: string, exchange: string, scores: map<Member, real>,
                                           reply: seq<Member>, lost: set<Member>, m: Member)
    requires forall i :: 0 <= i < |reply| ==> reply[i] in scores
    requires m in reply && m !in lost
    ensures Entry(symbol, exchange, m, scores[m]) in Entries(symbol, exchange, scores, reply, lost)
  {
    var n := |reply| - 1;
    assert reply == reply[..n] + [reply[n]];
    if m in reply[..n] {
      FoundIsReturned(symbol, exchange, scores, reply[..n], lost, m);
    }
  }

  /** ticks[i] is the last tick logged with its price text. */
  ghost predicate LastOfItsPrice(ticks: seq<MarketData>, i: nat) {
    i < |ticks| && forall j :: i < j < |ticks| ==> FormatPrice(ticks[j].price) != FormatPrice(ticks[i].price)
  }

  /** Every text a reader sees is the last tick logged with that text. */
  lemma SeenIsLastTick(log: seq<Command>, now: real, key: string, m: Member) returns (i: nat)
    requires m in Scores(Replay(log), now, key)
    ensures
      var ticks := Ticks(log, key);
      && LastOfItsPrice(ticks, i) && FormatPrice(ticks[i].price) == m
      && Score(ticks[i]) == Scores(Replay(log), now, key)[m]
  {
    hide FormatPrice, Score, Replay;
    var ticks := Ticks(log, key);
    AlwaysSound(log, key);
    IndexIsLastTick(ticks, m);
    i :| && 0 <= i < |ticks| && FormatPrice(ticks[i].price) == m && Score(ticks[i]) == Ideal(ticks)[m]
         && forall j :: i < j < |ticks| ==> FormatPrice(ticks[j].price) != m;
  }

  /** Every price a query returns, whatever failed, however late ticks arrived and whatever was evicted,
      is the stored form of a tick logged under the key, at most half a micro from it, and its timestamp is
      the whole second of the last tick logged with that price. */
  lemma ReturnedIsLogged(log: seq<Command>, now: real, symbol: string, exchange: string, lo: real, hi: real,
                         reply: seq<Member>, lost: set<Member>, d: MarketData) returns (i: nat)
    requires
      var scores := Scores(Replay(log), now, TimeSeriesKey(symbol, exchange));
      IsReply(scores, lo, hi, reply) && d in Entries(symbol, exchange, scores, reply, lost)
    ensures
      var ticks := Ticks(log, TimeSeriesKey(symbol, exchange));
      && LastOfItsPrice(ticks, i)
      && d == MarketData(symbol, StoredPrice(ticks[i].price), d.timestamp, exchange) && Near(d.price, ticks[i].price)
      && (Score(ticks[i]) >= 0.0 ==> d.timestamp == Score(ticks[i]).Floor)
  {
    hide FormatPrice, Score, Replay, TimeSeriesKey, ParsePrice;
    var key := TimeSeriesKey(symbol, exchange);
    var scores := Scores(Replay(log), now, key);
    EntriesFromReply(symbol, exchange, scores, reply, lost, d);
    var m :| m in reply && d == Entry(symbol, exchange, m, scores[m]);
    i := SeenIsLastTick(log, now, key, m);
    var ticks := Ticks(log, key);
    StoredNear(ticks[i].price);
    assert d == Entry(symbol, exchange, m, scores[m]);
    assert d.price == ParsePrice(m) && FormatPrice(ticks[i].price) == m;
    assert d.timestamp == Truncate(Score(ticks[i]));
  }

  /** Commands of writes and cleanups may come between the reading of a range and the lookup of a score:
      every text read had been logged with a score in the range that was its last one then, and a score
      found for it later is that of the last tick logged with it by then. */
  lemma InterleavedReadIsSound(log: seq<Command>, at: nat, t: real, later: nat, u: real, key: string,
                               lo: real, hi: real, reply: seq<Member>, m: Member) returns (i: nat, j: nat)
    requires at <= later <= |log| && m in reply
    requires IsReply(Scores(Replay(log[..at]), t, key), lo, hi, reply)
    ensures
      var ticks := Ticks(log[..at], key);
      LastOfItsPrice(ticks, i) && FormatPrice(ticks[i].price) == m && lo <= Score(ticks[i]) <= hi
    ensures m in Scores(Replay(log[..later]), u, key) ==>
      var ticks := Ticks(log[..later], key);
      && LastOfItsPrice(ticks, j) && FormatPrice(ticks[j].price) == m
      && Score(ticks[j]) == Scores(Replay(log[..later]), u, key)[m]
    ensures Ticks(log[..at], key) <= Ticks(log[..later], key) <= Ticks(log, key)
  {
    hide FormatPrice, Score, Replay, Ticks;
    assert m in Window(Scores(Replay(log[..at]), t, key), lo, hi);
    i := SeenIsLastTick(log[..at], t, key, m);
    j := 0;
    if m in Scores(Replay(log[..later]), u, key) {
      j := SeenIsLastTick(log[..later], u, key, m);
    }
    assert log[..later][..at] == log[..at];
    TicksOfPrefix(log[..later], at, key);
    TicksOfPrefix(log, later, key);
  }

  lemma TicksOfPrefix(log: seq<Command>, n: nat, key: string)
    requires n <= |log|
    ensures Ticks(log[..n], key) <= Ticks(log, key)
  {
    hide Ticks;
    TicksConcat(log[..n], log[n..], key);
    assert log[..n] + log[n..] == log;
  }

  /** A price is the stored form of a logged price, the last tick logged with its text, and at most half a
      micro from it. */
  ghost predicate FromLog(ticks: seq<MarketData>, p: real) {
    exists i: nat :: LastOfItsPrice(ticks, i) && p == StoredPrice(ticks[i].price) && Near(p, ticks[i].price)
  }

  /** So every price one exchange's query returns comes from the log. */
  lemma EntriesFromLog(log: seq<Command>, now: real, symbol: string, exchange: string, lo: real, hi: real,
                       reply: seq<Member>, lost: set<Member>)
    requires
      var scores := Scores(Replay(log), now, TimeSeriesKey(symbol, exchange));
      IsReply(scores, lo, hi, reply)
    ensures
      var key := TimeSeriesKey(symbol, exchange);
      forall d :: d in Entries(symbol, exchange, Scores(Replay(log), now, key), reply, lost) ==>
        FromLog(Ticks(log, key), d.price)
  {
    hide FormatPrice, ParsePrice, Score, Replay, TimeSeriesKey, LastOfItsPrice;
    var key := TimeSeriesKey(symbol, exchange);
    forall d | d in Entries(symbol, exchange, Scores(Replay(log), now, key), reply, lost)
      ensures FromLog(Ticks(log, key), d.price)
    {
      var i := ReturnedIsLogged(log, now, symbol, exchange, lo, hi, reply, lost, d);
      assert LastOfItsPrice(Ticks(log, key), i);
    }
  }

  /** Every price a key contributes to a cross-exchange answer comes from that key's log. */
  lemma PartFromLog(log: seq<Command>, now: real, symbol: string, key: string, replies: map<string, seq<Member>>,
                    from: int, to: int, f: ReadFaults, d: MarketData)
    requires AreReplies(Replay(log), now, from, to, replies)
    requires d in KeyPart(Replay(log), now, symbol, key, replies, from, to, f)
    ensures FromLog(Ticks(log, key), d.price)
  {
    hide FormatPrice, ParsePrice, Score, Replay, Split;
    var scores, reply := Scores(Replay(log), now, key), replies[key];
    assert IsReply(scores, from as real, to as real, reply);
    var k :| 0 <= k < |reply| && d.price == ParsePrice(reply[k]);
    var i := SeenIsLastTick(log, now, key, reply[k]);
    var ticks := Ticks(log, key);
    assert LastOfItsPrice(ticks, i);
    StoredNear(ticks[i].price);
  }

  /** Every price of a cross-exchange answer comes from the log of one of the keys listed. */
  lemma CrossFromLog(log: seq<Command>, now: real, symbol: string, keys: seq<string>, replies: map<string, seq<Member>>,
                     from: int, to: int, f: ReadFaults, d: MarketData) returns (key: string)
    requires AreReplies(Replay(log), now, from, to, replies)
    requires d in AllParts(Replay(log), now, symbol, keys, replies, from, to, f)
    ensures key in keys && FromLog(Ticks(log, key), d.price)
    ensures d in KeyPart(Replay(log), now, symbol, key, replies, from, to, f)
  {
    hide Replay, KeyPart, AllParts, AreReplies, FromLog;
    PartsMembership(Replay(log), now, symbol, keys, replies, from, to, f, d);
    var i :| 0 <= i < |keys| && d in KeyPart(Replay(log), now, symbol, keys[i], replies, from, to, f);
    key := keys[i];
    PartFromLog(log, now, symbol, key, replies, from, to, f, d);
  }

  lemma HighestFromLog(log: seq<Command>, now: real, symbol: string, keys: seq<string>,
                       replies: map<string, seq<Member>>,
                       from: int, to: int, f: ReadFaults, data: seq<MarketData>, h: real) returns (key: string)
    requires AreReplies(Replay(log), now, from, to, replies)
    requires data == AllParts(Replay(log), now, symbol, keys, replies, from, to, f) && IsHighest(data, h)
    ensures key in keys && FromLog(Ticks(log, key), h)
  {
    var i :| 0 <= i < |data| && data[i].price == h;
    hide *;
    key := CrossFromLog(log, now, symbol, keys, replies, from, to, f, data[i]);
  }

  lemma LowestFromLog(log: seq<Command>, now: real, symbol: string, keys: seq<string>,
                      replies: map<string, seq<Member>>,
                      from: int, to: int, f: ReadFaults, data: seq<MarketData>, l: real) returns (key: string)
    requires AreReplies(Replay(log), now, from, to, replies)
    requires data == AllParts(Replay(log), now, symbol, keys, replies, from, to, f) && IsLowest(data, l)
    ensures key in keys && FromLog(Ticks(log, key), l)
  {
    var i :| 0 <= i < |data| && data[i].price == l;
    hide *;
    key := CrossFromLog(log, now, symbol, keys, replies, from, to, f, data[i]);
  }

  // ---------------------------------------------------------------- one exchange against the log

  predicate InWindow(t: MarketData, lo: real, hi: real) {
    lo <= Score(t) <= hi
  }

  /** h is the stored form of the highest price logged in the window, at most half a micro from it. */
  ghost predicate HighestLogged(ticks: seq<MarketData>, lo: real, hi: real, h: real) {
    exists t ::
      && t in ticks && InWindow(t, lo, hi) && TopOfWindow(ticks, lo, hi, t.price)
      && h == StoredPrice(t.price) && Near(h, t.price)
  }

  /** l is the stored form of the lowest price logged in the window, likewise. */
  ghost predicate LowestLogged(ticks: seq<MarketData>, lo: real, hi: real, l: real) {
    exists t ::
      && t in ticks && InWindow(t, lo, hi) && BottomOfWindow(ticks, lo, hi, t.price)
      && l == StoredPrice(t.price) && Near(l, t.price)
  }

  ghost predicate TopOfWindow(ticks: seq<MarketData>, lo: real, hi: real, p: real) {
    forall t :: t in ticks && InWindow(t, lo, hi) ==> t.price <= p
  }

  ghost predicate BottomOfWindow(ticks: seq<MarketData>, lo: real, hi: real, p: real) {
    forall t :: t in ticks && InWindow(t, lo, hi) ==> p <= t.price
  }

  /** No tick logged under the key falls in the window. */
  ghost predicate NothingLogged(ticks: seq<MarketData>, lo: real, hi: real) {
    forall t :: t in ticks ==> !InWindow(t, lo, hi)
  }

  lemma {:induction false} HighestTick(ticks: seq<MarketData>, lo: real, hi: real) returns (top: MarketData)
    requires !NothingLogged(ticks, lo, hi)
    ensures top in ticks && InWindow(top, lo, hi) && TopOfWindow(ticks, lo, hi, top.price)
  {
    var n := |ticks| - 1;
    assert ticks == ticks[..n] + [ticks[n]];
    top := ticks[n];
    if !NothingLogged(ticks[..n], lo, hi) {
      var best := HighestTick(ticks[..n], lo, hi);
      if !InWindow(top, lo, hi) || top.price < best.price {
        top := best;
      }
    }
  }

  lemma {:induction false} LowestTick(ticks: seq<MarketData>, lo: real, hi: real) returns (bottom: MarketData)
    requires !NothingLogged(ticks, lo, hi)
    ensures bottom in ticks && InWindow(bottom, lo, hi) && BottomOfWindow(ticks, lo, hi, bottom.price)
  {
    var n := |ticks| - 1;
    assert ticks == ticks[..n] + [ticks[n]];
    bottom := ticks[n];
    if !NothingLogged(ticks[..n], lo, hi) {
      var best := LowestTick(ticks[..n], lo, hi);
      if !InWindow(bottom, lo, hi) || best.price < bottom.price {
        bottom := best;
      }
    }
  }

  function Prices(data: seq<MarketData>): set<real> {
    set d | d in data :: d.price
  }

  /** The stored forms of the prices logged in the window. */
  function LoggedPrices(ticks: seq<MarketData>, lo: real, hi: real): set<real> {
    set t | t in ticks && InWindow(t, lo, hi) :: StoredPrice(t.price)
  }

  /** Reading the same prices means reporting the same highest: the highest stored form is the
      stored form of the highest price. */
  lemma SamePricesSameHighest(data: seq<MarketData>, ticks: seq<MarketData>, lo: real, hi: real, h: real)
    requires Prices(data) == LoggedPrices(ticks, lo, hi) && IsHighest(data, h)
    ensures HighestLogged(ticks, lo, hi, h)
  {
    hide StoredPrice, Score, InWindow;
    assert h in Prices(data);
    var t :| t in ticks && InWindow(t, lo, hi) && h == StoredPrice(t.price);
    var top := HighestTick(ticks, lo, hi);
    TextMonotone(t.price, top.price);
    assert StoredPrice(top.price) in LoggedPrices(ticks, lo, hi);
    var d :| d in data && d.price == StoredPrice(top.price);
    assert h == StoredPrice(top.price);
    StoredNear(top.price);
  }

  lemma SamePricesSameEmptiness(data: seq<MarketData>, ticks: seq<MarketData>, lo: real, hi: real)
    requires Prices(data) == LoggedPrices(ticks, lo, hi)
    ensures data == [] <==> NothingLogged(ticks, lo, hi)
  {
    hide StoredPrice, InWindow;
    if data != [] {
      assert data[0].price in Prices(data);
    }
    forall t | t in ticks && InWindow(t, lo, hi)
      ensures StoredPrice(t.price) in Prices(data)
    {
    }
  }

  lemma SamePricesSameLowest(data: seq<MarketData>, ticks: seq<MarketData>, lo: real, hi: real, l: real)
    requires Prices(data) == LoggedPrices(ticks, lo, hi) && IsLowest(data, l)
    ensures LowestLogged(ticks, lo, hi, l)
  {
    hide StoredPrice, Score, InWindow;
    assert l in Prices(data);
    var t :| t in ticks && InWindow(t, lo, hi) && l == StoredPrice(t.price);
    var bottom := LowestTick(ticks, lo, hi);
    TextMonotone(bottom.price, t.price);
    assert StoredPrice(bottom.price) in LoggedPrices(ticks, lo, hi);
    var d :| d in data && d.price == StoredPrice(bottom.price);
    assert l == StoredPrice(bottom.price);
    StoredNear(bottom.price);
  }

  /** When a query must agree with the log: a timely run, a period of at most 119 seconds, nothing of
      that time lost to an expiry, and no price re-quoted past the window or in an earlier second. */
  ghost predicate Faithful(log: seq<Command>, now: real, key: string, period: real) {
    Timely(log, now) && period <= SAFE_PERIOD && NothingLost(log, now, key)
      && LastSecondWins(Ticks(log, key), now.Floor as real)
  }

  /** Then a reply lists exactly the texts logged in the window, eviction and deduplication
      notwithstanding. */
  lemma ReplyIsLogged(log: seq<Command>, now: real, period: real, key: string, reply: seq<Member>)
    requires Faithful(log, now, key, period)
    requires IsReply(Scores(Replay(log), now, key), (now - period).Floor as real, now.Floor as real, reply)
    ensures ListsLogged(Ticks(log, key), (now - period).Floor as real, now.Floor as real, reply)
  {
    hide FormatPrice, Score, Replay, Timely, LastSecondWins, NothingLost;
    var scores, ticks := Scores(Replay(log), now, key), Ticks(log, key);
    var lo, hi := (now - period).Floor as real, now.Floor as real;
    EvictionInvisibleExactly(log, now, key);
    assert Seen(log, now, key, period) == Unevicted(log, now, key, period);
    ExactWhenLastWins(ticks, (now - period).Floor, hi);
    assert Window(scores, lo, hi) == Window(Ideal(ticks), lo, hi);
  }

  /** So its entries hold exactly the stored forms of the prices logged in the window. */
  lemma QueryMatchesLog(log: seq<Command>, now: real, period: real, symbol: string, exchange: string,
                        reply: seq<Member>, lost: set<Member>)
    requires Faithful(log, now, TimeSeriesKey(symbol, exchange), period)
    requires
      var scores := Scores(Replay(log), now, TimeSeriesKey(symbol, exchange));
      IsReply(scores, (now - period).Floor as real, now.Floor as real, reply)
    requires lost == {}
    ensures
      var key := TimeSeriesKey(symbol, exchange);
      Prices(Entries(symbol, exchange, Scores(Replay(log), now, key), reply, lost))
      == LoggedPrices(Ticks(log, key), (now - period).Floor as real, now.Floor as real)
  {
    hide FormatPrice, ParsePrice, Score, Replay, TimeSeriesKey, Faithful, Truncate;
    var key := TimeSeriesKey(symbol, exchange);
    var scores := Scores(Replay(log), now, key);
    var ticks := Ticks(log, key);
    var lo, hi := (now - period).Floor as real, now.Floor as real;
    var data := Entries(symbol, exchange, scores, reply, lost);
    EntriesOfReply(symbol, exchange, scores, reply, lost);
    ReplyIsLogged(log, now, period, key, reply);
    forall p | p in Prices(data)
      ensures p in LoggedPrices(ticks, lo, hi)
    {
      var i :| 0 <= i < |data| && data[i].price == p;
      assert reply[i] in reply && LoggedIn(ticks, lo, hi, reply[i]);
      var k :| 0 <= k < |ticks| && FormatPrice(ticks[k].price) == reply[i] && lo <= Score(ticks[k]) <= hi;
      assert p == StoredPrice(ticks[k].price) && InWindow(ticks[k], lo, hi);
    }
    forall p | p in LoggedPrices(ticks, lo, hi)
      ensures p in Prices(data)
    {
      var k :| 0 <= k < |ticks| && InWindow(ticks[k], lo, hi) && StoredPrice(ticks[k].price) == p;
      var m := FormatPrice(ticks[k].price);
      assert LoggedIn(ticks, lo, hi, m);
      assert m in reply;
      var i :| 0 <= i < |reply| && reply[i] == m;
      assert data[i].price == p;
    }
  }

  // ---------------------------------------------------------------- the average against the log

  /** texts lists the price texts logged in the window once each, in some order. */
  ghost predicate ListsLogged(ticks: seq<MarketData>, lo: real, hi: real, texts: seq<Member>) {
    && (forall i, j :: 0 <= i < j < |texts| ==> texts[i] != texts[j])
    && (forall m :: m in texts <==> LoggedIn(ticks, lo, hi, m))
  }

  function TextTotal(texts: seq<Member>): real {
    if texts == [] then 0.0 else TextTotal(texts[..|texts| - 1]) + ParsePrice(texts[|texts| - 1])
  }

  /** a is the mean of the distinct price texts logged in the window, rounded to cents. */
  ghost predicate AverageLogged(ticks: seq<MarketData>, lo: real, hi: real, a: real) {
    exists texts :: ListsLogged(ticks, lo, hi, texts) && texts != [] && a == RoundedMean(texts)
  }

  /** a is the rounded mean of some stored forms of logged prices. */
  ghost predicate AverageFromLog(ticks: seq<MarketData>, a: real) {
    exists data: seq<MarketData> ::
      data != [] && a == Rounding.RoundTo(Mean(data), Rounding.Cents)
      && forall d :: d in data ==> FromLog(ticks, d.price)
  }

  function RoundedMean(texts: seq<Member>): real
    requires texts != []
  {
    Rounding.RoundTo(TextTotal(texts) / |texts| as real, Rounding.Cents)
  }

  lemma {:induction false} TotalOfReply(data: seq<MarketData>, reply: seq<Member>)
    requires |data| == |reply| && forall i :: 0 <= i < |data| ==> data[i].price == ParsePrice(reply[i])
    ensures Total(data) == TextTotal(reply)
  {
    if data != [] {
      TotalOfReply(data[..|data| - 1], reply[..|reply| - 1]);
    }
  }

  function Without(texts: seq<Member>, i: nat): seq<Member>
    requires i < |texts|
  {
    texts[..i] + texts[i + 1..]
  }

  lemma {:induction false} TotalWithout(texts: seq<Member>, i: nat)
    requires i < |texts|
    ensures TextTotal(texts) == TextTotal(Without(texts, i)) + ParsePrice(texts[i])
  {
    hide ParsePrice;
    var n := |texts| - 1;
    if i == n {
      assert Without(texts, i) == texts[..n];
    } else {
      TotalWithout(texts[..n], i);
      assert Without(texts, i)[..n - 1] == Without(texts[..n], i);
    }
  }

  /** Two listings of the same texts are equally long and have the same total. */
  lemma {:induction false} TotalIgnoresOrder(a: seq<Member>, b: seq<Member>)
    requires forall i, j :: 0 <= i < j < |a| ==> a[i] != a[j]
    requires forall i, j :: 0 <= i < j < |b| ==> b[i] != b[j]
    requires forall m :: m in a <==> m in b
    ensures |a| == |b| && TextTotal(a) == TextTotal(b)
  {
    hide ParsePrice;
    if b != [] {
      assert b[0] in a;
    }
    if a != [] {
      var n := |a| - 1;
      assert a[n] in b;
      var i :| 0 <= i < |b| && b[i] == a[n];
      var rest := Without(b, i);
      assert rest == b[..i] + b[i + 1..];
      forall m
        ensures m in a[..n] <==> m in rest
      {
        assert m in a <==> m in a[..n] || m == a[n];
        assert m in b <==> m in rest || m == b[i];
        assert a[n] !in a[..n] && b[i] !in rest;
      }
      TotalIgnoresOrder(a[..n], rest);
      TotalWithout(b, i);
    }
  }

  /** The order of a reply does not show in the average: the log determines it. */
  lemma AverageIsUnique(ticks: seq<MarketData>, lo: real, hi: real, a: real, b: real)
    requires AverageLogged(ticks, lo, hi, a) && AverageLogged(ticks, lo, hi, b)
    ensures a == b
  {
    hide RoundedMean, LoggedIn;
    var s :| ListsLogged(ticks, lo, hi, s) && s != [] && a == RoundedMean(s);
    var t :| ListsLogged(ticks, lo, hi, t) && t != [] && b == RoundedMean(t);
    TotalIgnoresOrder(s, t);
    SameTotalSameMean(s, t);
  }

  lemma SameTotalSameMean(s: seq<Member>, t: seq<Member>)
    requires s != [] && |s| == |t| && TextTotal(s) == TextTotal(t)
    ensures t != [] && RoundedMean(s) == RoundedMean(t)
  {
  }

  lemma AverageMatchesLog(log: seq<Command>, now: real, period: real, symbol: string, exchange: string,
                          reply: seq<Member>)
    requires Faithful(log, now, TimeSeriesKey(symbol, exchange), period)
    requires
      var scores := Scores(Replay(log), now, TimeSeriesKey(symbol, exchange));
      IsReply(scores, (now - period).Floor as real, now.Floor as real, reply)
    requires reply != []
    ensures
      var key := TimeSeriesKey(symbol, exchange);
      var data := Entries(symbol, exchange, Scores(Replay(log), now, key), reply, {});
      && data != []
      && AverageLogged(Ticks(log, key), (now - period).Floor as real, now.Floor as real,
                       Rounding.RoundTo(Mean(data), Rounding.Cents))
  {
    hide FormatPrice, ParsePrice, Score, Replay, TimeSeriesKey, Faithful, Truncate, LoggedIn, Rounding.RoundTo;
    var key := TimeSeriesKey(symbol, exchange);
    var scores := Scores(Replay(log), now, key);
    EntriesOfReply(symbol, exchange, scores, reply, {});
    TotalOfReply(Entries(symbol, exchange, scores, reply, {}), reply);
    ReplyIsLogged(log, now, period, key, reply);
  }

  // ---------------------------------------------------------------- across exchanges

  /** One key's contribution is what the single-exchange query returns for its exchange. */
  lemma KeyPartIsExchange(db: Db, now: real, symbol: string, exchange: string, replies: map<string, seq<Member>>,
                          from: int, to: int, f: ReadFaults)
    requires AreReplies(db, now, from, to, replies)
    requires ColonFree(symbol) && ColonFree(exchange) && exchange != ""
    requires TimeSeriesKey(symbol, exchange) in replies
    requires f.rangeFail == {} && f.scoreFail == {}
    ensures
      var key := TimeSeriesKey(symbol, exchange);
      && IsReply(Scores(db, now, key), from as real, to as real, replies[key])
      && KeyPart(db, now, symbol, key, replies, from, to, f) ==
        Entries(symbol, exchange, Scores(db, now, key), replies[key], {})
  {
    var key := TimeSeriesKey(symbol, exchange);
    SeriesKeyParts(symbol, exchange);
    assert IsReply(Scores(db, now, key), from as real, to as real, replies[key]);
    EntriesOfReply(symbol, exchange, Scores(db, now, key), replies[key], {});
    assert f.Lost(key) == {};
  }

  /** A key whose exchange name is empty is skipped. */
  lemma NamelessExchangeSkipped(db: Db, now: real, symbol: string, replies: map<string, seq<Member>>, from: int,
                                to: int, f: ReadFaults)
    requires AreReplies(db, now, from, to, replies) && ColonFree(symbol)
    ensures KeyPart(db, now, symbol, TimeSeriesKey(symbol, ""), replies, from, to, f) == []
  {
    SeriesKeyParts(symbol, "");
  }

  predicate SamePrices(a: seq<MarketData>, b: seq<MarketData>) {
    |a| == |b| && forall i :: 0 <= i < |a| ==> a[i].price == b[i].price
  }

  lemma PartKeepsPrices(db: Db, now: real, symbol: string, key: string, replies: map<string, seq<Member>>,
                        from: int, to: int, f: ReadFaults)
    requires AreReplies(db, now, from, to, replies) && f.rangeFail == {}
    ensures SamePrices(KeyPart(db, now, symbol, key, replies, from, to, f),
                       KeyPart(db, now, symbol, key, replies, from, to, NO_READ_FAULTS))
  {
    hide Split, Scores, ParsePrice, Estimate, Truncate;
  }

  lemma SamePricesSameExtremes(a: seq<MarketData>, b: seq<MarketData>, p: real)
    requires SamePrices(a, b)
    ensures IsHighest(a, p) <==> IsHighest(b, p)
    ensures IsLowest(a, p) <==> IsLowest(b, p)
  {
    if i :| 0 <= i < |a| && a[i].price == p {
      assert b[i].price == p;
    }
    if i :| 0 <= i < |b| && b[i].price == p {
      assert a[i].price == p;
    }
  }

  lemma SamePricesSameMean(a: seq<MarketData>, b: seq<MarketData>)
    requires SamePrices(a, b) && a != []
    ensures b != [] && Mean(a) == Mean(b)
  {
    SamePricesSameTotal(a, b);
  }

  /** Failed score lookups cost a cross-exchange answer no price. */
  lemma {:induction false} LookupsCostNoPrice(db: Db, now: real, symbol: string, keys: seq<string>,
                                              replies: map<string, seq<Member>>, from: int, to: int, f: ReadFaults)
    requires AreReplies(db, now, from, to, replies) && f.rangeFail == {}
    ensures
      var all := AllParts(db, now, symbol, keys, replies, from, to, f);
      var unfailing := AllParts(db, now, symbol, keys, replies, from, to, NO_READ_FAULTS);
      SamePrices(all, unfailing) && Total(all) == Total(unfailing)
  {
    hide KeyPart, Total;
    if keys != [] {
      var n := |keys| - 1;
      LookupsCostNoPrice(db, now, symbol, keys[..n], replies, from, to, f);
      var part := KeyPart(db, now, symbol, keys[n], replies, from, to, f);
      var unfailing := KeyPart(db, now, symbol, keys[n], replies, from, to, NO_READ_FAULTS);
      PartKeepsPrices(db, now, symbol, keys[n], replies, from, to, f);
      SamePricesSameTotal(part, unfailing);
      TotalConcat(AllParts(db, now, symbol, keys[..n], replies, from, to, f), part);
      TotalConcat(AllParts(db, now, symbol, keys[..n], replies, from, to, NO_READ_FAULTS), unfailing);
    }
  }

  lemma {:induction false} SamePricesSameTotal(a: seq<MarketData>, b: seq<MarketData>)
    requires SamePrices(a, b)
    ensures Total(a) == Total(b)
  {
    if a != [] {
      SamePricesSameTotal(a[..|a| - 1], b[..|b| - 1]);
    }
  }

  /** An entry belongs to the cross-exchange answer iff some key contributes it. */
  lemma {:induction false} PartsMembership(db: Db, now: real, symbol: string, keys: seq<string>,
                                           replies: map<string, seq<Member>>,
                                           from: int, to: int, f: ReadFaults, d: MarketData)
    requires AreReplies(db, now, from, to, replies)
    ensures d in AllParts(db, now, symbol, keys, replies, from, to, f) <==>
            exists i :: 0 <= i < |keys| && d in KeyPart(db, now, symbol, keys[i], replies, from, to, f)
  {
    if keys != [] {
      var n := |keys| - 1;
      PartsMembership(db, now, symbol, keys[..n], replies, from, to, f, d);
      if d in AllParts(db, now, symbol, keys[..n], replies, from, to, f) {
        var i :| 0 <= i < n && d in KeyPart(db, now, symbol, keys[..n][i], replies, from, to, f);
        assert keys[i] == keys[..n][i];
      }
      if i :| 0 <= i < n && d in KeyPart(db, now, symbol, keys[i], replies, from, to, f) {
        assert keys[..n][i] == keys[i];
      }
    }
  }

  /** The prices of the cross-exchange answer are those the keys contribute. */
  lemma PricesOfParts(db: Db, now: real, symbol: string, keys: seq<string>, replies: map<string, seq<Member>>,
                      from: int, to: int, f: ReadFaults, p: real)
    requires AreReplies(db, now, from, to, replies)
    ensures p in Prices(AllParts(db, now, symbol, keys, replies, from, to, f)) <==>
            exists i :: 0 <= i < |keys| && p in Prices(KeyPart(db, now, symbol, keys[i], replies, from, to, f))
  {
    var all := AllParts(db, now, symbol, keys, replies, from, to, f);
    if p in Prices(all) {
      var d :| d in all && d.price == p;
      PartsMembership(db, now, symbol, keys, replies, from, to, f, d);
      var i :| 0 <= i < |keys| && d in KeyPart(db, now, symbol, keys[i], replies, from, to, f);
      assert p in Prices(KeyPart(db, now, symbol, keys[i], replies, from, to, f));
    }
    if i :| 0 <= i < |keys| && p in Prices(KeyPart(db, now, symbol, keys[i], replies, from, to, f)) {
      var d :| d in KeyPart(db, now, symbol, keys[i], replies, from, to, f) && d.price == p;
      PartsMembership(db, now, symbol, keys, replies, from, to, f, d);
    }
  }

  lemma HighestOfPrices(data: seq<MarketData>, h: real)
    ensures IsHighest(data, h) <==> h in Prices(data) && forall p :: p in Prices(data) ==> p <= h
  {
    if h in Prices(data) && forall p :: p in Prices(data) ==> p <= h {
      forall i | 0 <= i < |data| ensures data[i].price <= h {
        assert data[i].price in Prices(data);
      }
    }
  }

  lemma LowestOfPrices(data: seq<MarketData>, l: real)
    ensures IsLowest(data, l) <==> l in Prices(data) && forall p :: p in Prices(data) ==> l <= p
  {
    if l in Prices(data) && forall p :: p in Prices(data) ==> l <= p {
      forall i | 0 <= i < |data| ensures l <= data[i].price {
        assert data[i].price in Prices(data);
      }
    }
  }

  /** all carries the prices of the parts and no other. */
  ghost predicate MadeOf(all: seq<MarketData>, parts: seq<seq<MarketData>>) {
    forall p :: p in Prices(all) <==> exists i :: 0 <= i < |parts| && p in Prices(parts[i])
  }

  lemma HighestOfParts(all: seq<MarketData>, parts: seq<seq<MarketData>>, h: real)
    requires MadeOf(all, parts)
    ensures IsHighest(all, h) <==>
            && (exists i :: 0 <= i < |parts| && IsHighest(parts[i], h))
            && (forall i, g :: 0 <= i < |parts| && IsHighest(parts[i], g) ==> g <= h)
  {
    hide IsHighest, Prices;
    HighestOfPrices(all, h);
    if IsHighest(all, h) {
      var i :| 0 <= i < |parts| && h in Prices(parts[i]);
      forall p | p in Prices(parts[i])
        ensures p <= h
      {
        assert p in Prices(all);
      }
      HighestOfPrices(parts[i], h);
      assert IsHighest(parts[i], h);
      forall j, g | 0 <= j < |parts| && IsHighest(parts[j], g)
        ensures g <= h
      {
        HighestOfPrices(parts[j], g);
        assert g in Prices(parts[j]);
        assert g in Prices(all);
      }
    }
    if i :| 0 <= i < |parts| && IsHighest(parts[i], h) {
      HighestOfPrices(parts[i], h);
      if forall j, g :: 0 <= j < |parts| && IsHighest(parts[j], g) ==> g <= h {
        forall p | p in Prices(all)
          ensures p <= h
        {
          var j :| 0 <= j < |parts| && p in Prices(parts[j]);
          var g := SomeHighest(parts[j], p);
        }
      }
    }
  }

  lemma LowestOfParts(all: seq<MarketData>, parts: seq<seq<MarketData>>, l: real)
    requires MadeOf(all, parts)
    ensures IsLowest(all, l) <==>
            && (exists i :: 0 <= i < |parts| && IsLowest(parts[i], l))
            && (forall i, g :: 0 <= i < |parts| && IsLowest(parts[i], g) ==> l <= g)
  {
    hide IsLowest, Prices;
    LowestOfPrices(all, l);
    if IsLowest(all, l) {
      var i :| 0 <= i < |parts| && l in Prices(parts[i]);
      forall p | p in Prices(parts[i])
        ensures l <= p
      {
        assert p in Prices(all);
      }
      LowestOfPrices(parts[i], l);
      assert IsLowest(parts[i], l);
      forall j, g | 0 <= j < |parts| && IsLowest(parts[j], g)
        ensures l <= g
      {
        LowestOfPrices(parts[j], g);
        assert g in Prices(parts[j]);
        assert g in Prices(all);
      }
    }
    if i :| 0 <= i < |parts| && IsLowest(parts[i], l) {
      LowestOfPrices(parts[i], l);
      if forall j, g :: 0 <= j < |parts| && IsLowest(parts[j], g) ==> l <= g {
        forall p | p in Prices(all)
          ensures l <= p
        {
          var j :| 0 <= j < |parts| && p in Prices(parts[j]);
          var g := SomeLowest(parts[j], p);
        }
      }
    }
  }

  /** The cross-exchange highest is the highest of the per-key highest prices. */
  lemma CrossHighest(db: Db, now: real, symbol: string, keys: seq<string>, replies: map<string, seq<Member>>,
                     from: int, to: int, f: ReadFaults, h: real)
    requires AreReplies(db, now, from, to, replies)
    ensures IsHighest(AllParts(db, now, symbol, keys, replies, from, to, f), h) <==>
            && (exists i :: 0 <= i < |keys| && IsHighest(KeyPart(db, now, symbol, keys[i], replies, from, to, f), h))
            && (forall i, g ::
                  0 <= i < |keys| && IsHighest(KeyPart(db, now, symbol, keys[i], replies, from, to, f), g) ==> g <= h)
  {
    hide IsHighest, AllParts, Prices, AreReplies, KeyPart;
    var all := AllParts(db, now, symbol, keys, replies, from, to, f);
    var parts := seq(|keys|, i requires 0 <= i < |keys| => KeyPart(db, now, symbol, keys[i], replies, from, to, f));
    forall p {
      PricesOfParts(db, now, symbol, keys, replies, from, to, f, p);
    }
    assert forall i :: 0 <= i < |keys| ==> parts[i] == KeyPart(db, now, symbol, keys[i], replies, from, to, f);
    assert MadeOf(all, parts);
    HighestOfParts(all, parts, h);
  }

  /** The cross-exchange lowest is the lowest of the per-key lowest prices. */
  lemma CrossLowest(db: Db, now: real, symbol: string, keys: seq<string>, replies: map<string, seq<Member>>,
                    from: int, to: int, f: ReadFaults, l: real)
    requires AreReplies(db, now, from, to, replies)
    ensures IsLowest(AllParts(db, now, symbol, keys, replies, from, to, f), l) <==>
            && (exists i :: 0 <= i < |keys| && IsLowest(KeyPart(db, now, symbol, keys[i], replies, from, to, f), l))
            && (forall i, g ::
                  0 <= i < |keys| && IsLowest(KeyPart(db, now, symbol, keys[i], replies, from, to, f), g) ==> l <= g)
  {
    hide IsLowest, AllParts, Prices, AreReplies, KeyPart;
    var all := AllParts(db, now, symbol, keys, replies, from, to, f);
    var parts := seq(|keys|, i requires 0 <= i < |keys| => KeyPart(db, now, symbol, keys[i], replies, from, to, f));
    forall p {
      PricesOfParts(db, now, symbol, keys, replies, from, to, f, p);
    }
    assert forall i :: 0 <= i < |keys| ==> parts[i] == KeyPart(db, now, symbol, keys[i], replies, from, to, f);
    assert MadeOf(all, parts);
    LowestOfParts(all, parts, l);
  }

  lemma {:induction false} SomeHighest(data: seq<MarketData>, p: real) returns (h: real)
    requires p in Prices(data)
    ensures IsHighest(data, h) && p <= h
  {
    var n := |data| - 1;
    h := data[n].price;
    assert data == data[..n] + [data[n]];
    if n > 0 {
      var g := SomeHighest(data[..n], data[..n][0].price);
      HighestOfPrices(data[..n], g);
      if g > h {
        h := g;
      }
    }
    HighestOfPrices(data, h);
  }

  lemma {:induction false} SomeLowest(data: seq<MarketData>, p: real) returns (l: real)
    requires p in Prices(data)
    ensures IsLowest(data, l) && l <= p
  {
    var n := |data| - 1;
    l := data[n].price;
    assert data == data[..n] + [data[n]];
    if n > 0 {
      var g := SomeLowest(data[..n], data[..n][0].price);
      LowestOfPrices(data[..n], g);
      if g < l {
        l := g;
      }
    }
    LowestOfPrices(data, l);
  }

  function Weight(part: seq<MarketData>): real
    requires part != []
  {
    Mean(part) * |part| as real
  }

  /** Sum over the keys of mean times count, and of counts. */
  ghost function WeightedMeans(db: Db, now: real, symbol: string, keys: seq<string>, replies: map<string, seq<Member>>,
                         from: int, to: int, f: ReadFaults): (real, nat)
    requires AreReplies(db, now, from, to, replies)
  {
    if keys == [] then (0.0, 0)
    else
      var before := WeightedMeans(db, now, symbol, keys[..|keys| - 1], replies, from, to, f);
      var part := KeyPart(db, now, symbol, keys[|keys| - 1], replies, from, to, f);
      if part == [] then before else (before.0 + Weight(part), before.1 + |part|)
  }

  lemma WeightIsTotal(part: seq<MarketData>)
    requires part != []
    ensures Weight(part) == Total(part)
  {
    PriceStats.QuotientTimes(Total(part), |part| as real);
  }

  /** The cross-exchange mean is the count-weighted mean of the per-key means. */
  lemma {:induction false} CrossMean(db: Db, now: real, symbol: string, keys: seq<string>,
                                     replies: map<string, seq<Member>>,
                                     from: int, to: int, f: ReadFaults)
    requires AreReplies(db, now, from, to, replies)
    ensures
      var all := AllParts(db, now, symbol, keys, replies, from, to, f);
      && |all| == WeightedMeans(db, now, symbol, keys, replies, from, to, f).1
      && Total(all) == WeightedMeans(db, now, symbol, keys, replies, from, to, f).0
    ensures
      var all := AllParts(db, now, symbol, keys, replies, from, to, f);
      var sums := WeightedMeans(db, now, symbol, keys, replies, from, to, f);
      all != [] ==> sums.1 > 0 && Mean(all) == sums.0 / sums.1 as real
  {
    if keys != [] {
      var n := |keys| - 1;
      var part := KeyPart(db, now, symbol, keys[n], replies, from, to, f);
      CrossMean(db, now, symbol, keys[..n], replies, from, to, f);
      TotalConcat(AllParts(db, now, symbol, keys[..n], replies, from, to, f), part);
      if part != [] {
        WeightIsTotal(part);
      }
    }
  }

  // ---------------------------------------------------------------- across exchanges against the log

  predicate GoodName(symbol: string, exchange: string) {
    ColonFree(symbol) && ColonFree(exchange) && exchange != ""
  }

  ghost predicate WellNamed(log: seq<Command>) {
    forall i :: 0 <= i < |log| && log[i].AddTick? ==> GoodName(log[i].data.symbol, log[i].data.exchange)
  }

  /** A key exists only because some tick was stored under it. */
  lemma {:induction false} KeyHasTick(log: seq<Command>, key: string) returns (d: MarketData)
    requires WellNamed(log) && key in Replay(log).series
    ensures SeriesKeyOf(d) == key && GoodName(d.symbol, d.exchange)
  {
    hide TimeSeriesKey, FormatPrice, Score;
    var n := |log| - 1;
    SeriesAfter(Replay(log[..n]), log[n], key);
    if Stores(log[n], key) {
      d := log[n].data;
    } else {
      d := KeyHasTick(log[..n], key);
    }
  }

  /** The symbol's live keys are the keys of its exchanges. */
  lemma LiveKeyNamesExchange(log: seq<Command>, now: real, symbol: string, key: string) returns (exchange: string)
    requires WellNamed(log) && ColonFree(symbol)
    requires key in LiveSeriesKeys(Replay(log), now, TimeSeriesKey(symbol, ""))
    ensures GoodName(symbol, exchange) && key == TimeSeriesKey(symbol, exchange)
  {
    var d := KeyHasTick(log, key);
    SymbolOfKey(symbol, d.symbol, d.exchange);
    exchange := d.exchange;
  }

  /** Nothing in the window is logged under a key that is no longer live. */
  lemma DeadKeyHasNoTicks(log: seq<Command>, now: real, period: real, symbol: string, exchange: string)
    requires Faithful(log, now, TimeSeriesKey(symbol, exchange), period)
    requires !HasSeries(Replay(log), now, TimeSeriesKey(symbol, exchange))
    ensures NothingLogged(Ticks(log, TimeSeriesKey(symbol, exchange)), (now - period).Floor as real, now.Floor as real)
  {
    hide Faithful, Replay, TimeSeriesKey, FormatPrice, Score;
    var key := TimeSeriesKey(symbol, exchange);
    assert Window(Scores(Replay(log), now, key), (now - period).Floor as real, now.Floor as real) == map[];
    QueryMatchesLog(log, now, period, symbol, exchange, [], {});
    SamePricesSameEmptiness([], Ticks(log, key), (now - period).Floor as real, now.Floor as real);
  }

  /** Every exchange of the symbol meets the conditions of QueryMatchesLog. */
  ghost predicate AllFaithful(log: seq<Command>, now: real, symbol: string, period: real) {
    && WellNamed(log) && ColonFree(symbol)
    && forall exchange: string :: GoodName(symbol, exchange) ==>
      Faithful(log, now, TimeSeriesKey(symbol, exchange), period)
  }

  /** What the cache may answer to a cross-exchange query when no command fails. */
  ghost predicate CrossReply(log: seq<Command>, now: real, symbol: string, period: real, keys: seq<string>,
                             replies: map<string, seq<Member>>) {
    && Enumerates(keys, LiveSeriesKeys(Replay(log), now, TimeSeriesKey(symbol, "")))
    && AreReplies(Replay(log), now, (now - period).Floor, now.Floor, replies)
    && forall k :: k in keys && |Split(k)| >= 3 ==> k in replies
  }

  /** p is the stored form of a price logged for the symbol on the exchange in the last period. */
  ghost predicate LoggedOn(log: seq<Command>, symbol: string, exchange: string, now: real, period: real, p: real) {
    && GoodName(symbol, exchange)
    && p in LoggedPrices(Ticks(log, TimeSeriesKey(symbol, exchange)), (now - period).Floor as real, now.Floor as real)
  }

  ghost predicate LoggedSomewhere(log: seq<Command>, symbol: string, now: real, period: real, p: real) {
    exists exchange: string :: LoggedOn(log, symbol, exchange, now, period, p)
  }

  ghost predicate NamesExchange(symbol: string, key: string) {
    exists exchange: string :: GoodName(symbol, exchange) && key == TimeSeriesKey(symbol, exchange)
  }

  lemma ListedKeyIsLive(keys: seq<string>, ks: set<string>, k: string)
    requires Enumerates(keys, ks)
    ensures k in keys <==> k in ks
  {
  }

  /** One exchange's contribution carries exactly the prices logged for it in the window. */
  lemma PartMatchesLog(log: seq<Command>, now: real, period: real, symbol: string, exchange: string,
                       replies: map<string, seq<Member>>)
    requires GoodName(symbol, exchange) && Faithful(log, now, TimeSeriesKey(symbol, exchange), period)
    requires AreReplies(Replay(log), now, (now - period).Floor, now.Floor, replies)
    requires |Split(TimeSeriesKey(symbol, exchange))| >= 3 ==> TimeSeriesKey(symbol, exchange) in replies
    ensures
      var key := TimeSeriesKey(symbol, exchange);
      Prices(KeyPart(Replay(log), now, symbol, key, replies, (now - period).Floor, now.Floor, NO_READ_FAULTS))
      == LoggedPrices(Ticks(log, key), (now - period).Floor as real, now.Floor as real)
  {
    SeriesKeyParts(symbol, exchange);
    hide Faithful, Replay, TimeSeriesKey, LoggedPrices, Prices, KeyPart;
    KeyPartIsExchange(Replay(log), now, symbol, exchange, replies, (now - period).Floor, now.Floor, NO_READ_FAULTS);
    QueryMatchesLog(log, now, period, symbol, exchange, replies[TimeSeriesKey(symbol, exchange)], {});
  }

  /** A live key of the symbol is that of an exchange, and contributes what was logged there. */
  lemma ListedPartMatchesLog(log: seq<Command>, now: real, period: real, symbol: string,
                             keys: seq<string>, replies: map<string, seq<Member>>, key: string)
    returns (exchange: string)
    requires AllFaithful(log, now, symbol, period) && CrossReply(log, now, symbol, period, keys, replies)
    requires key in keys
    ensures GoodName(symbol, exchange) && key == TimeSeriesKey(symbol, exchange) && key in replies
    ensures Prices(KeyPart(Replay(log), now, symbol, key, replies, (now - period).Floor, now.Floor, NO_READ_FAULTS))
         == LoggedPrices(Ticks(log, key), (now - period).Floor as real, now.Floor as real)
  {
    ListedKeyIsLive(keys, LiveSeriesKeys(Replay(log), now, TimeSeriesKey(symbol, "")), key);
    exchange := LiveKeyNamesExchange(log, now, symbol, key);
    SeriesKeyParts(symbol, exchange);
    hide Replay, LoggedPrices, Prices, KeyPart, LiveSeriesKeys, Enumerates, Faithful;
    PartMatchesLog(log, now, period, symbol, exchange, replies);
  }

  /** What an exchange logged in the window is under a live key. */
  lemma LoggedKeyIsListed(log: seq<Command>, now: real, period: real, symbol: string,
                          keys: seq<string>, replies: map<string, seq<Member>>, exchange: string, p: real)
    requires AllFaithful(log, now, symbol, period) && CrossReply(log, now, symbol, period, keys, replies)
    requires LoggedOn(log, symbol, exchange, now, period, p)
    ensures TimeSeriesKey(symbol, exchange) in keys
  {
    var key := TimeSeriesKey(symbol, exchange);
    assert key == TimeSeriesKey(symbol, "") + exchange;
    hide Replay, TimeSeriesKey, StoredPrice, InWindow, Faithful, AreReplies;
    if !HasSeries(Replay(log), now, key) {
      DeadKeyHasNoTicks(log, now, period, symbol, exchange);
    }
    ListedKeyIsLive(keys, LiveSeriesKeys(Replay(log), now, TimeSeriesKey(symbol, "")), key);
  }

  /** The prices of a cross-exchange answer are exactly the stored forms of the prices logged for the
      symbol in the window, on any exchange. */
  lemma CrossMatchesLog(log: seq<Command>, now: real, period: real, symbol: string,
                        keys: seq<string>, replies: map<string, seq<Member>>, p: real)
    requires AllFaithful(log, now, symbol, period) && CrossReply(log, now, symbol, period, keys, replies)
    ensures p in Prices(AllParts(Replay(log), now, symbol, keys, replies, (now - period).Floor, now.Floor,
                                 NO_READ_FAULTS))
            <==> LoggedSomewhere(log, symbol, now, period, p)
  {
    var db, from, to := Replay(log), (now - period).Floor, now.Floor;
    hide Replay, LoggedPrices, Prices, KeyPart, AllParts, AllFaithful, TimeSeriesKey, GoodName;
    PricesOfParts(db, now, symbol, keys, replies, from, to, NO_READ_FAULTS, p);
    if i :| 0 <= i < |keys| && p in Prices(KeyPart(db, now, symbol, keys[i], replies, from, to, NO_READ_FAULTS)) {
      var exchange := ListedPartMatchesLog(log, now, period, symbol, keys, replies, keys[i]);
      assert LoggedOn(log, symbol, exchange, now, period, p);
    }
    if LoggedSomewhere(log, symbol, now, period, p) {
      var exchange :| LoggedOn(log, symbol, exchange, now, period, p);
      LoggedKeyIsListed(log, now, period, symbol, keys, replies, exchange, p);
      var i :| 0 <= i < |keys| && keys[i] == TimeSeriesKey(symbol, exchange);
      var same := ListedPartMatchesLog(log, now, period, symbol, keys, replies, keys[i]);
    }
  }

  /** So its highest price is the highest stored form of all, and its lowest the lowest. */
  lemma CrossHighestMatchesLog(log: seq<Command>, now: real, period: real, symbol: string,
                               keys: seq<string>, replies: map<string, seq<Member>>, h: real)
    requires AllFaithful(log, now, symbol, period) && CrossReply(log, now, symbol, period, keys, replies)
    ensures
      var all := AllParts(Replay(log), now, symbol, keys, replies, (now - period).Floor, now.Floor, NO_READ_FAULTS);
      IsHighest(all, h) <==>
      && LoggedSomewhere(log, symbol, now, period, h)
      && forall p :: LoggedSomewhere(log, symbol, now, period, p) ==> p <= h
  {
    var all := AllParts(Replay(log), now, symbol, keys, replies, (now - period).Floor, now.Floor, NO_READ_FAULTS);
    hide Replay, AllParts, AllFaithful, CrossReply, LoggedSomewhere, Prices, IsHighest;
    forall p
      ensures p in Prices(all) <==> LoggedSomewhere(log, symbol, now, period, p)
    {
      CrossMatchesLog(log, now, period, symbol, keys, replies, p);
    }
    HighestOfPrices(all, h);
  }

  lemma CrossLowestMatchesLog(log: seq<Command>, now: real, period: real, symbol: string,
                              keys: seq<string>, replies: map<string, seq<Member>>, l: real)
    requires AllFaithful(log, now, symbol, period) && CrossReply(log, now, symbol, period, keys, replies)
    ensures
      var all := AllParts(Replay(log), now, symbol, keys, replies, (now - period).Floor, now.Floor, NO_READ_FAULTS);
      IsLowest(all, l) <==>
      && LoggedSomewhere(log, symbol, now, period, l)
      && forall p :: LoggedSomewhere(log, symbol, now, period, p) ==> l <= p
  {
    var all := AllParts(Replay(log), now, symbol, keys, replies, (now - period).Floor, now.Floor, NO_READ_FAULTS);
    hide Replay, AllParts, AllFaithful, CrossReply, LoggedSomewhere, Prices, IsLowest;
    forall p
      ensures p in Prices(all) <==> LoggedSomewhere(log, symbol, now, period, p)
    {
      CrossMatchesLog(log, now, period, symbol, keys, replies, p);
    }
    LowestOfPrices(all, l);
  }

  // ---------------------------------------------------------------- the average across exchanges

  /** The listings of the keys' texts, one after the other. */
  function AllTexts(keys: seq<string>, replies: map<string, seq<Member>>): seq<Member>
    requires forall k :: k in keys ==> k in replies
  {
    if keys == [] then [] else AllTexts(keys[..|keys| - 1], replies) + replies[keys[|keys| - 1]]
  }

  lemma {:induction false} TextTotalConcat(a: seq<Member>, b: seq<Member>)
    ensures TextTotal(a + b) == TextTotal(a) + TextTotal(b)
  {
    hide ParsePrice;
    if b == [] {
      assert a + b == a;
    } else {
      TextTotalConcat(a, b[..|b| - 1]);
      assert (a + b)[..|a + b| - 1] == a + b[..|b| - 1];
    }
  }

  lemma {:induction false} AllPartsTotal(db: Db, now: real, symbol: string, keys: seq<string>,
                                         replies: map<string, seq<Member>>, from: int, to: int)
    requires AreReplies(db, now, from, to, replies)
    requires forall k :: k in keys ==> k in replies && |Split(k)| >= 3
    ensures
      var all := AllParts(db, now, symbol, keys, replies, from, to, NO_READ_FAULTS);
      |all| == |AllTexts(keys, replies)| && Total(all) == TextTotal(AllTexts(keys, replies))
  {
    if keys != [] {
      var n := |keys| - 1;
      var part := KeyPart(db, now, symbol, keys[n], replies, from, to, NO_READ_FAULTS);
      AllPartsTotal(db, now, symbol, keys[..n], replies, from, to);
      hide ParsePrice, Split, Scores;
      assert IsReply(Scores(db, now, keys[n]), from as real, to as real, replies[keys[n]]);
      TotalOfReply(part, replies[keys[n]]);
      TotalConcat(AllParts(db, now, symbol, keys[..n], replies, from, to, NO_READ_FAULTS), part);
      TextTotalConcat(AllTexts(keys[..n], replies), replies[keys[n]]);
    }
  }

  /** The cross-exchange average is the rounded mean over all pairs of an exchange and a price text logged
      there in the window: every listed key is an exchange's and lists the texts logged there, and no
      exchange with a logged price is missing. */
  lemma CrossAverageMatchesLog(log: seq<Command>, now: real, period: real, symbol: string, keys: seq<string>,
                               replies: map<string, seq<Member>>)
    requires AllFaithful(log, now, symbol, period) && CrossReply(log, now, symbol, period, keys, replies)
    ensures forall k :: k in keys ==>
      && k in replies && ListsLogged(Ticks(log, k), (now - period).Floor as real, now.Floor as real, replies[k])
      && NamesExchange(symbol, k)
    ensures forall exchange: string, p: real ::
      LoggedOn(log, symbol, exchange, now, period, p) ==> TimeSeriesKey(symbol, exchange) in keys
    ensures
      var all := AllParts(Replay(log), now, symbol, keys, replies, (now - period).Floor, now.Floor, NO_READ_FAULTS);
      all != [] ==>
        AllTexts(keys, replies) != []
        && Rounding.RoundTo(Mean(all), Rounding.Cents) == RoundedMean(AllTexts(keys, replies))
  {
    forall k | k in keys
      ensures k in replies && |Split(k)| >= 3
      ensures ListsLogged(Ticks(log, k), (now - period).Floor as real, now.Floor as real, replies[k])
      ensures NamesExchange(symbol, k)
    {
      ListedTextsMatchLog(log, now, period, symbol, keys, replies, k);
    }
    hide Replay, AllParts, LoggedPrices, ListsLogged, Split, Rounding.RoundTo, LoggedOn, NamesExchange, TimeSeriesKey;
    forall exchange: string, p: real | LoggedOn(log, symbol, exchange, now, period, p)
      ensures TimeSeriesKey(symbol, exchange) in keys
    {
      LoggedKeyIsListed(log, now, period, symbol, keys, replies, exchange, p);
    }
    AllPartsTotal(Replay(log), now, symbol, keys, replies, (now - period).Floor, now.Floor);
  }

  lemma ListedTextsMatchLog(log: seq<Command>, now: real, period: real, symbol: string, keys: seq<string>,
                            replies: map<string, seq<Member>>, k: string)
    requires AllFaithful(log, now, symbol, period) && CrossReply(log, now, symbol, period, keys, replies) && k in keys
    ensures k in replies && |Split(k)| >= 3
    ensures ListsLogged(Ticks(log, k), (now - period).Floor as real, now.Floor as real, replies[k])
    ensures NamesExchange(symbol, k)
  {
    var exchange := ListedPartMatchesLog(log, now, period, symbol, keys, replies, k);
    SeriesKeyParts(symbol, exchange);
    hide Replay, ListsLogged, Faithful, Prices, LoggedPrices, KeyPart, IsReply, Split, TimeSeriesKey;
    assert IsReply(Scores(Replay(log), now, k), (now - period).Floor as real, now.Floor as real, replies[k]);
    ReplyIsLogged(log, now, period, k, replies[k]);
  }

  // ---------------------------------------------------------------- timestamps

  lemma Fractions(i: real, j: real, n: real)
    requires 0.0 <= i <= j <= n && n > 0.0
    ensures 0.0 <= i / n <= j / n <= 1.0
  {
    assert j / n * n == j && i / n * n == i;
  }

  lemma Scaled(a: real, b: real, width: real)
    requires 0.0 <= a <= b <= 1.0 && width >= 0.0
    ensures 0.0 <= a * width <= b * width <= width
  {
    assert (b - a) * width >= 0.0 && (1.0 - b) * width >= 0.0;
  }

  lemma ShareInWidth(i: nat, j: nat, total: nat, width: real)
    requires total > 1 && i <= j < total && width >= 0.0
    ensures 0.0 <= Share(i, total, width) <= Share(j, total, width) <= width
  {
    var n := (total - 1) as real;
    Fractions(i as real, j as real, n);
    Scaled(i as real / n, j as real / n, width);
  }

  /** Estimated timestamps stay inside the window and do not decrease with position. */
  lemma EstimateInWindow(i: nat, j: nat, total: nat, from: real, to: real)
    requires i <= j < total && from <= to
    ensures from <= Estimate(i, total, from, to) <= Estimate(j, total, from, to) <= to
  {
    hide Share;
    if total > 1 {
      ShareInWidth(i, j, total, to - from);
    }
  }

  lemma ShareSteps(i: real, n: real, width: real)
    requires n > 0.0
    ensures (i + 1.0) / n * width == i / n * width + width / n
  {
    assert (i + 1.0) / n == i / n + 1.0 / n;
    assert 1.0 / n * width == width / n;
  }

  /** The first estimate is the window's start, the last its end, and they are evenly spaced. */
  lemma EstimateSpacing(i: nat, total: nat, from: real, to: real)
    requires i + 1 < total
    ensures Estimate(0, total, from, to) == from && Estimate(total - 1, total, from, to) == to
    ensures Estimate(i + 1, total, from, to) - Estimate(i, total, from, to) == (to - from) / (total - 1) as real
  {
    ShareSteps(i as real, (total - 1) as real, to - from);
  }

  /** What a key contributes for each text of its reply: the price, and the whole second of its score, or of
      a time as far into the window as the text is into the reply if the lookup failed. */
  lemma EntryOfKey(db: Db, now: real, symbol: string, key: string, replies: map<string, seq<Member>>, from: int,
                   to: int, f: ReadFaults, i: nat)
    requires AreReplies(db, now, from, to, replies) && 0 <= from <= to
    requires |Split(key)| >= 3 && key !in f.rangeFail && key in replies && i < |replies[key]|
    ensures
      var reply, part := replies[key], KeyPart(db, now, symbol, key, replies, from, to, f);
      && |part| == |reply| && reply[i] in Scores(db, now, key)
      && part[i] == MarketData(symbol, ParsePrice(reply[i]), part[i].timestamp, Split(key)[2])
      && ((key, reply[i]) !in f.scoreFail ==> part[i].timestamp == Scores(db, now, key)[reply[i]].Floor)
      && ((key, reply[i]) in f.scoreFail && |reply| == 1 ==> part[i].timestamp == from)
      && ((key, reply[i]) in f.scoreFail && |reply| > 1 ==>
            part[i].timestamp == (from as real + i as real / (|reply| - 1) as real * (to - from) as real).Floor)
  {
    var reply := replies[key];
    assert IsReply(Scores(db, now, key), from as real, to as real, reply);
    assert reply[i] in reply && reply[i] in Window(Scores(db, now, key), from as real, to as real);
    assert reply[i] in f.Lost(key) <==> (key, reply[i]) in f.scoreFail;
    EstimateInWindow(i, i, |reply|, from as real, to as real);
    hide Split, ParsePrice, Scores;
  }

  lemma TruncateBetween(x: real, lo: int, hi: int)
    requires lo as real <= x <= hi as real
    ensures lo <= Truncate(x) <= hi
  {
  }

  /** Every timestamp a key contributes lies in the whole seconds of the query, on the looked-up and
      on the estimated path. */
  lemma PartTimestampsInWindow(db: Db, now: real, symbol: string, key: string, replies: map<string, seq<Member>>,
                               from: int, to: int, f: ReadFaults, i: nat)
    requires AreReplies(db, now, from, to, replies)
    requires i < |KeyPart(db, now, symbol, key, replies, from, to, f)|
    ensures from <= KeyPart(db, now, symbol, key, replies, from, to, f)[i].timestamp <= to
  {
    var scores, reply := Scores(db, now, key), replies[key];
    assert IsReply(scores, from as real, to as real, reply);
    assert reply[i] in reply;
    assert reply[i] in Window(scores, from as real, to as real);
    EstimateInWindow(i, i, |reply|, from as real, to as real);
    TruncateBetween(if reply[i] in f.Lost(key) then Estimate(i, |reply|, from as real, to as real)
                    else scores[reply[i]], from, to);
  }

  lemma CrossTimestampsInWindow(db: Db, now: real, symbol: string, keys: seq<string>, replies: map<string, seq<Member>>,
                                from: int, to: int, f: ReadFaults, d: MarketData)
    requires AreReplies(db, now, from, to, replies)
    requires d in AllParts(db, now, symbol, keys, replies, from, to, f)
    ensures from <= d.timestamp <= to
  {
    PartsMembership(db, now, symbol, keys, replies, from, to, f, d);
    var i :| 0 <= i < |keys| && d in KeyPart(db, now, symbol, keys[i], replies, from, to, f);
    var part := KeyPart(db, now, symbol, keys[i], replies, from, to, f);
    var k :| 0 <= k < |part| && part[k] == d;
    PartTimestampsInWindow(db, now, symbol, keys[i], replies, from, to, f, k);
  }
}
