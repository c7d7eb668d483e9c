/** How far the reported statistics are from the prices logged, which the cache keeps as six-decimal text. */
module PriceAccuracy {
  import opened Market
  import opened Store
  import opened Keys
  import opened CacheLog
  import opened Cache
  import opened CacheRefinement
  import opened PriceStats
  import opened PriceQueries
  import Rounding

  const HALF_MICRO := 0.0000005

  // ---------------------------------------------------------------- the average of one exchange

  /** One tick of the window for each price text logged in it. */
  ghost predicate OnePerText(ticks: seq<MarketData>, lo: real, hi: real, picks: seq<MarketData>) {
    && (forall i :: 0 <= i < |picks| ==> picks[i] in ticks && InWindow(picks[i], lo, hi))
    && (forall i, j :: 0 <= i < j < |picks| ==> FormatPrice(picks[i].price) != FormatPrice(picks[j].price))
    && (forall t :: t in ticks && InWindow(t, lo, hi) ==> HasText(picks, FormatPrice(t.price)))
  }

  ghost predicate HasText(picks: seq<MarketData>, m: Member) {
    exists i :: 0 <= i < |picks| && FormatPrice(picks[i].price) == m
  }

  /** Half a micro for storing the prices as text, half a cent for rounding their mean. */
  predicate NearMean(average: real, mean: real) {
    -0.0050005 <= average - mean <= 0.0050005
  }

  /** a is near the mean of the prices logged in the window, taken one per text. */
  ghost predicate AverageNear(ticks: seq<MarketData>, lo: real, hi: real, a: real) {
    exists picks: seq<MarketData> :: OnePerText(ticks, lo, hi, picks) && picks != [] && NearMean(a, Mean(picks))
  }

  /** A tick of the window for each of these texts, and the total they deviate by. */
  lemma {:induction false} PickTicks(ticks: seq<MarketData>, lo: real, hi: real, texts: seq<Member>)
    returns (picks: seq<MarketData>)
    requires forall m :: m in texts ==> LoggedIn(ticks, lo, hi, m)
    ensures |picks| == |texts|
    ensures forall i :: 0 <= i < |picks| ==>
      picks[i] in ticks && InWindow(picks[i], lo, hi) && FormatPrice(picks[i].price) == texts[i]
    ensures TotalsNear(TextTotal(texts), Total(picks), |texts|)
  {
    hide FormatPrice, ParsePrice, Score;
    picks := [];
    if texts != [] {
      var n := |texts| - 1;
      var earlier := PickTicks(ticks, lo, hi, texts[..n]);
      assert texts[n] in texts;
      var i :| 0 <= i < |ticks| && FormatPrice(ticks[i].price) == texts[n] && lo <= Score(ticks[i]) <= hi;
      picks := earlier + [ticks[i]];
      assert picks[..n] == earlier;
      StoredNear(ticks[i].price);
      assert Near(ParsePrice(texts[n]), ticks[i].price);
    }
  }

  predicate TotalsNear(x: real, y: real, n: nat) {
    x - y <= HALF_MICRO * n as real && y - x <= HALF_MICRO * n as real
  }

  lemma NearTotalsNearMeans(x: real, y: real, n: nat)
    requires n > 0 && TotalsNear(x, y, n)
    ensures Near(x / n as real, y / n as real)
  {
    var a := Quotient(x, n as real);
    var b := Quotient(y, n as real);
    WithinFactor(a, b, n as real, x, y);
  }

  lemma WithinFactor(a: real, b: real, k: real, x: real, y: real)
    requires k > 0.0 && a * k == x && b * k == y && x - y <= HALF_MICRO * k && y - x <= HALF_MICRO * k
    ensures Near(a, b)
  {
    CancelFactor(a, b, k, x - y);
    CancelFactor(b, a, k, y - x);
  }

  lemma CancelFactor(a: real, b: real, k: real, difference: real)
    requires k > 0.0 && a * k - b * k == difference <= HALF_MICRO * k
    ensures a - b <= HALF_MICRO
  {
    if a - b > HALF_MICRO {
      PositiveProduct(a - b - HALF_MICRO, k);
    }
  }

  lemma PositiveProduct(x: real, y: real)
    requires x > 0.0 && y > 0.0
    ensures x * y > 0.0
  {
  }

  lemma RoundedMeanNear(texts: seq<Member>, picks: seq<MarketData>)
    requires texts != [] && |picks| == |texts| && TotalsNear(TextTotal(texts), Total(picks), |texts|)
    ensures NearMean(RoundedMean(texts), Mean(picks))
  {
    NearTotalsNearMeans(TextTotal(texts), Total(picks), |texts|);
    Rounding.RoundToNearest(TextTotal(texts) / |texts| as real, Rounding.Cents);
  }

  /** The reported average is within half a cent and half a micro of the mean of the prices logged in the
      window, taken one per text. */
  lemma AverageIsNear(ticks: seq<MarketData>, lo: real, hi: real, a: real)
    requires AverageLogged(ticks, lo, hi, a)
    ensures AverageNear(ticks, lo, hi, a)
  {
    hide FormatPrice, Score, RoundedMean, Mean, NearMean;
    var texts :| ListsLogged(ticks, lo, hi, texts) && texts != [] && a == RoundedMean(texts);
    var picks := PickTicks(ticks, lo, hi, texts);
    RoundedMeanNear(texts, picks);
    forall t | t in ticks && InWindow(t, lo, hi)
      ensures HasText(picks, FormatPrice(t.price))
    {
      var k :| 0 <= k < |ticks| && ticks[k] == t;
      assert LoggedIn(ticks, lo, hi, FormatPrice(t.price));
      var i :| 0 <= i < |texts| && texts[i] == FormatPrice(t.price);
    }
    assert OnePerText(ticks, lo, hi, picks);
  }

  // ---------------------------------------------------------------- ticks by name

  /** The command logs a tick of the symbol, on whatever exchange, scored in the window. */
  predicate Quotes(c: Command, symbol: string, lo: real, hi: real) {
    c.AddTick? && c.data.symbol == symbol && InWindow(c.data, lo, hi)
  }

  ghost predicate NothingQuoted(log: seq<Command>, symbol: string, lo: real, hi: real) {
    forall i :: 0 <= i < |log| ==> !Quotes(log[i], symbol, lo, hi)
  }

  /** p is the highest price logged for the symbol in the window. */
  ghost predicate TopQuoted(log: seq<Command>, symbol: string, lo: real, hi: real, p: real) {
    && (exists i :: 0 <= i < |log| && Quotes(log[i], symbol, lo, hi) && log[i].data.price == p)
    && (forall i :: 0 <= i < |log| && Quotes(log[i], symbol, lo, hi) ==> log[i].data.price <= p)
  }

  ghost predicate BottomQuoted(log: seq<Command>, symbol: string, lo: real, hi: real, p: real) {
    && (exists i :: 0 <= i < |log| && Quotes(log[i], symbol, lo, hi) && log[i].data.price == p)
    && (forall i :: 0 <= i < |log| && Quotes(log[i], symbol, lo, hi) ==> p <= log[i].data.price)
  }

  lemma {:induction false} TopExists(log: seq<Command>, symbol: string, lo: real, hi: real) returns (p: real)
    requires !NothingQuoted(log, symbol, lo, hi)
    ensures TopQuoted(log, symbol, lo, hi, p)
  {
    hide InWindow;
    var n := |log| - 1;
    assert forall i :: 0 <= i < n ==> log[..n][i] == log[i];
    if NothingQuoted(log[..n], symbol, lo, hi) {
      p := log[n].data.price;
    } else {
      p := TopExists(log[..n], symbol, lo, hi);
      if Quotes(log[n], symbol, lo, hi) && p < log[n].data.price {
        p := log[n].data.price;
      }
    }
  }

  lemma {:induction false} BottomExists(log: seq<Command>, symbol: string, lo: real, hi: real) returns (p: real)
    requires !NothingQuoted(log, symbol, lo, hi)
    ensures BottomQuoted(log, symbol, lo, hi, p)
  {
    hide InWindow;
    var n := |log| - 1;
    assert forall i :: 0 <= i < n ==> log[..n][i] == log[i];
    if NothingQuoted(log[..n], symbol, lo, hi) {
      p := log[n].data.price;
    } else {
      p := BottomExists(log[..n], symbol, lo, hi);
      if Quotes(log[n], symbol, lo, hi) && log[n].data.price < p {
        p := log[n].data.price;
      }
    }
  }

  /** The ticks of a key are those its commands stored. */
  lemma {:induction false} TickIsStored(log: seq<Command>, key: string, t: MarketData) returns (i: nat)
    requires t in Ticks(log, key)
    ensures i < |log| && Stores(log[i], key) && log[i].data == t
  {
    hide SeriesKeyOf;
    var n := |log| - 1;
    if Stores(log[n], key) && log[n].data == t {
      i := n;
    } else {
      i := TickIsStored(log[..n], key, t);
    }
  }

  lemma {:induction false} StoredIsTick(log: seq<Command>, key: string, i: nat)
    requires i < |log| && Stores(log[i], key)
    ensures log[i].data in Ticks(log, key)
  {
    hide SeriesKeyOf;
    var n := |log| - 1;
    if i == n {
      assert Ticks(log, key)[|Ticks(log[..n], key)|] == log[n].data;
    } else {
      StoredIsTick(log[..n], key, i);
    }
  }

  /** A tick under the key of a symbol and an exchange was logged for these names. */
  lemma TickIsQuoted(log: seq<Command>, symbol: string, exchange: string, t: MarketData) returns (i: nat)
    requires WellNamed(log) && GoodName(symbol, exchange) && t in Ticks(log, TimeSeriesKey(symbol, exchange))
    ensures i < |log| && log[i].AddTick? && log[i].data == t && t.symbol == symbol && t.exchange == exchange
  {
    i := TickIsStored(log, TimeSeriesKey(symbol, exchange), t);
    assert TimeSeriesKey(symbol, exchange) == TimeSeriesKey(symbol, "") + exchange;
    SymbolOfKey(symbol, t.symbol, t.exchange);
    SeriesKeyParts(symbol, exchange);
    SeriesKeyParts(symbol, t.exchange);
    assert Split(TimeSeriesKey(symbol, exchange))[2] == exchange;
  }

  /** And the other way round. */
  lemma QuotedIsTick(log: seq<Command>, symbol: string, lo: real, hi: real, i: nat)
    requires WellNamed(log) && i < |log| && Quotes(log[i], symbol, lo, hi)
    ensures GoodName(symbol, log[i].data.exchange)
    ensures log[i].data in Ticks(log, TimeSeriesKey(symbol, log[i].data.exchange))
  {
    StoredIsTick(log, TimeSeriesKey(symbol, log[i].data.exchange), i);
  }

  lemma SomewhereIsQuoted(log: seq<Command>, symbol: string, now: real, period: real, p: real) returns (i: nat)
    requires WellNamed(log) && LoggedSomewhere(log, symbol, now, period, p)
    ensures i < |log| && Quotes(log[i], symbol, (now - period).Floor as real, now.Floor as real)
    ensures p == StoredPrice(log[i].data.price)
  {
    hide StoredPrice, InWindow, TimeSeriesKey;
    var exchange: string :| LoggedOn(log, symbol, exchange, now, period, p);
    var t :| t in Ticks(log, TimeSeriesKey(symbol, exchange)) && p == StoredPrice(t.price)
             && InWindow(t, (now - period).Floor as real, now.Floor as real);
    i := TickIsQuoted(log, symbol, exchange, t);
  }

  lemma QuotedIsSomewhere(log: seq<Command>, symbol: string, now: real, period: real, i: nat)
    requires WellNamed(log) && i < |log| && Quotes(log[i], symbol, (now - period).Floor as real, now.Floor as real)
    ensures LoggedSomewhere(log, symbol, now, period, StoredPrice(log[i].data.price))
  {
    QuotedIsTick(log, symbol, (now - period).Floor as real, now.Floor as real, i);
    hide StoredPrice, InWindow, TimeSeriesKey;
    assert LoggedOn(log, symbol, log[i].data.exchange, now, period, StoredPrice(log[i].data.price));
  }

  // ---------------------------------------------------------------- across exchanges

  /** What a query that lists the keys and reads every range gets is such an answer, but for the timestamps
      of failed lookups. */
  lemma AnswerIsCrossReply(log: seq<Command>, now: real, period: real, symbol: string, keys: seq<string>,
                           replies: map<string, seq<Member>>, f: ReadFaults)
    requires f.rangeFail == {} && Enumerates(keys, LiveSeriesKeys(Replay(log), now, TimeSeriesKey(symbol, "")))
    requires AreReplies(Replay(log), now, (now - period).Floor, now.Floor, replies)
    requires forall k :: k in keys && |Split(k)| >= 3 && k !in f.rangeFail ==> k in replies
    ensures CrossReply(log, now, symbol, period, keys, replies)
    ensures
      var all := AllParts(Replay(log), now, symbol, keys, replies, (now - period).Floor, now.Floor, f);
      var unfailing :=
        AllParts(Replay(log), now, symbol, keys, replies, (now - period).Floor, now.Floor, NO_READ_FAULTS);
      SamePrices(all, unfailing)
  {
    LookupsCostNoPrice(Replay(log), now, symbol, keys, replies, (now - period).Floor, now.Floor, f);
  }

  /** A cross-exchange answer is empty exactly when nothing of the symbol was logged in the window. */
  lemma CrossEmptyIff(log: seq<Command>, now: real, period: real, symbol: string, keys: seq<string>,
                      replies: map<string, seq<Member>>)
    requires AllFaithful(log, now, symbol, period) && CrossReply(log, now, symbol, period, keys, replies)
    ensures
      AllParts(Replay(log), now, symbol, keys, replies, (now - period).Floor, now.Floor, NO_READ_FAULTS) == [] <==>
      NothingQuoted(log, symbol, (now - period).Floor as real, now.Floor as real)
  {
    hide Replay, AllParts, LoggedSomewhere;
    var all := AllParts(Replay(log), now, symbol, keys, replies, (now - period).Floor, now.Floor, NO_READ_FAULTS);
    if all != [] {
      var p := all[0].price;
      assert all[0] in all && p in Prices(all);
      CrossMatchesLog(log, now, period, symbol, keys, replies, p);
      var i := SomewhereIsQuoted(log, symbol, now, period, p);
    }
    if i :| 0 <= i < |log| && Quotes(log[i], symbol, (now - period).Floor as real, now.Floor as real) {
      QuotedIsSomewhere(log, symbol, now, period, i);
      CrossMatchesLog(log, now, period, symbol, keys, replies, StoredPrice(log[i].data.price));
    }
  }

  /** The highest price of a cross-exchange answer is within half a micro of the highest price logged for
      the symbol, and is that price when it is a whole number of micros. */
  lemma CrossHighestNear(log: seq<Command>, now: real, period: real, symbol: string, keys: seq<string>,
                         replies: map<string, seq<Member>>, h: real) returns (p: real)
    requires AllFaithful(log, now, symbol, period) && CrossReply(log, now, symbol, period, keys, replies)
    requires
      IsHighest(AllParts(Replay(log), now, symbol, keys, replies, (now - period).Floor, now.Floor, NO_READ_FAULTS), h)
    ensures TopQuoted(log, symbol, (now - period).Floor as real, now.Floor as real, p)
    ensures Near(h, p) && (WholeMicros(p) ==> h == p)
  {
    CrossHighestMatchesLog(log, now, period, symbol, keys, replies, h);
    hide Replay, AllParts, CrossReply, LoggedSomewhere, InWindow, StoredPrice, IsHighest;
    var lo, hi := (now - period).Floor as real, now.Floor as real;
    var i := SomewhereIsQuoted(log, symbol, now, period, h);
    p := TopExists(log, symbol, lo, hi);
    TextMonotone(log[i].data.price, p);
    var k :| 0 <= k < |log| && Quotes(log[k], symbol, lo, hi) && log[k].data.price == p;
    QuotedIsSomewhere(log, symbol, now, period, k);
    StoredNear(p);
    StoredExactIff(p);
  }

  lemma CrossLowestNear(log: seq<Command>, now: real, period: real, symbol: string, keys: seq<string>,
                        replies: map<string, seq<Member>>, l: real) returns (p: real)
    requires AllFaithful(log, now, symbol, period) && CrossReply(log, now, symbol, period, keys, replies)
    requires
      IsLowest(AllParts(Replay(log), now, symbol, keys, replies, (now - period).Floor, now.Floor, NO_READ_FAULTS), l)
    ensures BottomQuoted(log, symbol, (now - period).Floor as real, now.Floor as real, p)
    ensures Near(l, p) && (WholeMicros(p) ==> l == p)
  {
    CrossLowestMatchesLog(log, now, period, symbol, keys, replies, l);
    hide Replay, AllParts, CrossReply, LoggedSomewhere, InWindow, StoredPrice, IsLowest;
    var lo, hi := (now - period).Floor as real, now.Floor as real;
    var i := SomewhereIsQuoted(log, symbol, now, period, l);
    p := BottomExists(log, symbol, lo, hi);
    TextMonotone(p, log[i].data.price);
    var k :| 0 <= k < |log| && Quotes(log[k], symbol, lo, hi) && log[k].data.price == p;
    QuotedIsSomewhere(log, symbol, now, period, k);
    StoredNear(p);
    StoredExactIff(p);
  }

  /** One tick of the symbol in the window for each exchange and price text logged there. */
  ghost predicate OnePerPair(log: seq<Command>, symbol: string, lo: real, hi: real, picks: seq<MarketData>) {
    && (forall i :: 0 <= i < |picks| ==> picks[i].symbol == symbol && IsQuoted(log, lo, hi, picks[i]))
    && (forall i, j :: 0 <= i < j < |picks| ==> PairOf(picks[i]) != PairOf(picks[j]))
    && (forall i :: 0 <= i < |log| && Quotes(log[i], symbol, lo, hi) ==> HasPair(picks, log[i].data))
  }

  function PairOf(t: MarketData): (string, Member) {
    (t.exchange, FormatPrice(t.price))
  }

  ghost predicate IsQuoted(log: seq<Command>, lo: real, hi: real, t: MarketData) {
    InWindow(t, lo, hi) && exists i :: 0 <= i < |log| && log[i].AddTick? && log[i].data == t
  }

  ghost predicate HasPair(picks: seq<MarketData>, t: MarketData) {
    exists i :: 0 <= i < |picks| && PairOf(picks[i]) == PairOf(t)
  }

  ghost predicate HasTick(picks: seq<MarketData>, t: MarketData) {
    exists i :: 0 <= i < |picks| && SeriesKeyOf(picks[i]) == SeriesKeyOf(t)
                && FormatPrice(picks[i].price) == FormatPrice(t.price)
  }

  /** The ticks picked for a list of keys: of these keys, in the window, one for each text of a key. */
  ghost predicate PickedFor(log: seq<Command>, lo: real, hi: real, keys: seq<string>, picks: seq<MarketData>) {
    && (forall i :: 0 <= i < |picks| ==>
          SeriesKeyOf(picks[i]) in keys && InWindow(picks[i], lo, hi) && picks[i] in Ticks(log, SeriesKeyOf(picks[i])))
    && (forall i, j :: 0 <= i < j < |picks| ==>
          SeriesKeyOf(picks[i]) != SeriesKeyOf(picks[j]) || FormatPrice(picks[i].price) != FormatPrice(picks[j].price))
    && (forall t :: SeriesKeyOf(t) in keys && t in Ticks(log, SeriesKeyOf(t)) && InWindow(t, lo, hi) ==>
          HasTick(picks, t))
  }

  lemma PickKey(log: seq<Command>, lo: real, hi: real, key: string, texts: seq<Member>)
    returns (picks: seq<MarketData>)
    requires ListsLogged(Ticks(log, key), lo, hi, texts)
    ensures |picks| == |texts| && TotalsNear(TextTotal(texts), Total(picks), |texts|)
    ensures PickedFor(log, lo, hi, [key], picks)
  {
    hide FormatPrice, SeriesKeyOf, TotalsNear, Ticks, InWindow, LoggedIn, HasTick;
    var ticks := Ticks(log, key);
    picks := PickTicks(ticks, lo, hi, texts);
    forall i | 0 <= i < |picks|
      ensures SeriesKeyOf(picks[i]) == key
    {
      var k := TickIsStored(log, key, picks[i]);
    }
    forall t | SeriesKeyOf(t) == key && t in ticks && InWindow(t, lo, hi)
      ensures HasTick(picks, t)
    {
      WindowTickIsLogged(ticks, lo, hi, t);
      HasTextHasTick(picks, texts, key, t);
    }
  }

  lemma WindowTickIsLogged(ticks: seq<MarketData>, lo: real, hi: real, t: MarketData)
    requires t in ticks && InWindow(t, lo, hi)
    ensures LoggedIn(ticks, lo, hi, FormatPrice(t.price))
  {
    hide FormatPrice, Score;
    var k :| 0 <= k < |ticks| && ticks[k] == t;
  }

  lemma HasTextHasTick(picks: seq<MarketData>, texts: seq<Member>, key: string, t: MarketData)
    requires |picks| == |texts| && FormatPrice(t.price) in texts && SeriesKeyOf(t) == key
    requires forall i :: 0 <= i < |picks| ==> FormatPrice(picks[i].price) == texts[i] && SeriesKeyOf(picks[i]) == key
    ensures HasTick(picks, t)
  {
    hide FormatPrice, SeriesKeyOf;
    var i :| 0 <= i < |texts| && texts[i] == FormatPrice(t.price);
    assert FormatPrice(picks[i].price) == texts[i];
  }

  lemma PickBoth(log: seq<Command>, lo: real, hi: real, keys: seq<string>, key: string, a: seq<MarketData>,
                 b: seq<MarketData>)
    requires key !in keys && PickedFor(log, lo, hi, keys, a) && PickedFor(log, lo, hi, [key], b)
    ensures PickedFor(log, lo, hi, keys + [key], a + b)
  {
    hide FormatPrice, InWindow, SeriesKeyOf, Ticks;
    forall t | SeriesKeyOf(t) in keys + [key] && t in Ticks(log, SeriesKeyOf(t)) && InWindow(t, lo, hi)
      ensures HasTick(a + b, t)
    {
      if SeriesKeyOf(t) in keys {
        var i :| 0 <= i < |a| && SeriesKeyOf(a[i]) == SeriesKeyOf(t) && FormatPrice(a[i].price) == FormatPrice(t.price);
        assert (a + b)[i] == a[i];
      } else {
        assert SeriesKeyOf(t) in [key];
        var i :| 0 <= i < |b| && SeriesKeyOf(b[i]) == SeriesKeyOf(t) && FormatPrice(b[i].price) == FormatPrice(t.price);
        assert (a + b)[|a| + i] == b[i];
      }
    }
  }

  lemma {:induction false} PickAll(log: seq<Command>, lo: real, hi: real, keys: seq<string>,
                                   replies: map<string, seq<Member>>) returns (picks: seq<MarketData>)
    requires forall i, j :: 0 <= i < j < |keys| ==> keys[i] != keys[j]
    requires forall k :: k in keys ==> k in replies && ListsLogged(Ticks(log, k), lo, hi, replies[k])
    ensures |picks| == |AllTexts(keys, replies)|
    ensures TotalsNear(TextTotal(AllTexts(keys, replies)), Total(picks), |picks|)
    ensures PickedFor(log, lo, hi, keys, picks)
  {
    hide PickedFor, ListsLogged, Ticks;
    if keys == [] {
      picks := [];
      NothingPicked(log, lo, hi);
    } else {
      var n := |keys| - 1;
      var earlier := PickAll(log, lo, hi, keys[..n], replies);
      var last := PickKey(log, lo, hi, keys[n], replies[keys[n]]);
      picks := earlier + last;
      PickBoth(log, lo, hi, keys[..n], keys[n], earlier, last);
      assert keys[..n] + [keys[n]] == keys;
      TotalConcat(earlier, last);
      TextTotalConcat(AllTexts(keys[..n], replies), replies[keys[n]]);
    }
  }

  lemma NothingPicked(log: seq<Command>, lo: real, hi: real)
    ensures PickedFor(log, lo, hi, [], [])
  {
  }

  /** The cross-exchange average is near the mean of the prices logged for the symbol in the window, taken
      one per exchange and text. */
  lemma CrossAverageNear(log: seq<Command>, now: real, period: real, symbol: string, keys: seq<string>,
                         replies: map<string, seq<Member>>) returns (picks: seq<MarketData>)
    requires AllFaithful(log, now, symbol, period) && CrossReply(log, now, symbol, period, keys, replies)
    requires AllParts(Replay(log), now, symbol, keys, replies, (now - period).Floor, now.Floor, NO_READ_FAULTS) != []
    ensures OnePerPair(log, symbol, (now - period).Floor as real, now.Floor as real, picks) && picks != []
    ensures
      var all := AllParts(Replay(log), now, symbol, keys, replies, (now - period).Floor, now.Floor, NO_READ_FAULTS);
      NearMean(Rounding.RoundTo(Mean(all), Rounding.Cents), Mean(picks))
  {
    hide Replay, AllParts, ListsLogged, PickedFor, Ticks, RoundedMean, Mean, NearMean, Rounding.RoundTo, OnePerPair,
      LoggedOn;
    CrossAverageMatchesLog(log, now, period, symbol, keys, replies);
    var lo, hi := (now - period).Floor as real, now.Floor as real;
    picks := PickAll(log, lo, hi, keys, replies);
    RoundedMeanNear(AllTexts(keys, replies), picks);
    PickedIsOnePerPair(log, now, period, symbol, keys, picks);
  }

  ghost predicate AverageNearAcross(log: seq<Command>, symbol: string, lo: real, hi: real, a: real) {
    exists picks: seq<MarketData> :: OnePerPair(log, symbol, lo, hi, picks) && picks != [] && NearMean(a, Mean(picks))
  }

  lemma AverageIsNearAcross(log: seq<Command>, now: real, period: real, symbol: string, keys: seq<string>,
                            replies: map<string, seq<Member>>)
    requires AllFaithful(log, now, symbol, period) && CrossReply(log, now, symbol, period, keys, replies)
    requires AllParts(Replay(log), now, symbol, keys, replies, (now - period).Floor, now.Floor, NO_READ_FAULTS) != []
    ensures
      var all := AllParts(Replay(log), now, symbol, keys, replies, (now - period).Floor, now.Floor, NO_READ_FAULTS);
      AverageNearAcross(log, symbol, (now - period).Floor as real, now.Floor as real,
                        Rounding.RoundTo(Mean(all), Rounding.Cents))
  {
    var picks := CrossAverageNear(log, now, period, symbol, keys, replies);
  }

  lemma PickedIsQuoted(log: seq<Command>, lo: real, hi: real, symbol: string, t: MarketData)
    requires WellNamed(log) && NamesExchange(symbol, SeriesKeyOf(t)) && t in Ticks(log, SeriesKeyOf(t))
    requires InWindow(t, lo, hi)
    ensures t.symbol == symbol && IsQuoted(log, lo, hi, t)
  {
    hide InWindow, TimeSeriesKey, Ticks;
    var exchange: string :| GoodName(symbol, exchange) && SeriesKeyOf(t) == TimeSeriesKey(symbol, exchange);
    var i := TickIsQuoted(log, symbol, exchange, t);
  }

  lemma TickHasPair(log: seq<Command>, symbol: string, lo: real, hi: real, keys: seq<string>, picks: seq<MarketData>,
                    t: MarketData)
    requires WellNamed(log) && PickedFor(log, lo, hi, keys, picks) && GoodName(symbol, t.exchange)
    requires t.symbol == symbol && HasTick(picks, t)
    ensures HasPair(picks, t)
  {
    hide FormatPrice, InWindow, TimeSeriesKey, Ticks;
    var k :| 0 <= k < |picks| && SeriesKeyOf(picks[k]) == SeriesKeyOf(t)
             && FormatPrice(picks[k].price) == FormatPrice(t.price);
    var i := TickIsQuoted(log, symbol, t.exchange, picks[k]);
    assert PairOf(picks[k]) == PairOf(t);
  }

  lemma PickedIsOnePerPair(log: seq<Command>, now: real, period: real, symbol: string, keys: seq<string>,
                           picks: seq<MarketData>)
    requires WellNamed(log) && forall k :: k in keys ==> NamesExchange(symbol, k)
    requires forall exchange: string, p: real ::
      LoggedOn(log, symbol, exchange, now, period, p) ==> TimeSeriesKey(symbol, exchange) in keys
    requires PickedFor(log, (now - period).Floor as real, now.Floor as real, keys, picks)
    ensures OnePerPair(log, symbol, (now - period).Floor as real, now.Floor as real, picks)
  {
    hide FormatPrice, InWindow, TimeSeriesKey, StoredPrice, Ticks, NamesExchange, HasTick, HasPair, IsQuoted, WellNamed;
    var lo, hi := (now - period).Floor as real, now.Floor as real;
    forall i | 0 <= i < |picks|
      ensures picks[i].symbol == symbol && IsQuoted(log, lo, hi, picks[i])
    {
      PickedIsQuoted(log, lo, hi, symbol, picks[i]);
    }
    forall i | 0 <= i < |log| && Quotes(log[i], symbol, lo, hi)
      ensures HasPair(picks, log[i].data)
    {
      var t := log[i].data;
      QuotedIsTick(log, symbol, lo, hi, i);
      assert LoggedOn(log, symbol, t.exchange, now, period, StoredPrice(t.price));
      assert HasTick(picks, t);
      TickHasPair(log, symbol, lo, hi, keys, picks, t);
    }
  }
}
