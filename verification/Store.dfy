/** The Redis commands the cache uses, over an abstract database: string values with a time to
    live, and sorted sets of price texts scored by time. Times and scores are seconds. */
module Store {
  import opened Market

  // ---------------------------------------------------------------- price texts

  /** The text fmt's %f prints: a sign and a number of micros. Negative zero is a text of its own. */
  datatype Member = Member(negative: bool, micros: nat)

  /** Nearest whole number, ties to even. */
  function HalfEven(x: real): nat
    requires x >= 0.0
  {
    var f := x.Floor;
    var rest := x - f as real;
    if rest < 0.5 || (rest == 0.5 && f % 2 == 0) then f else f + 1
  }

  function FormatPrice(price: real): Member {
    if price < 0.0 then Member(true, HalfEven(-price * 1000000.0)) else Member(false, HalfEven(price * 1000000.0))
  }

  function ParsePrice(m: Member): real {
    (if m.negative then -(m.micros as int) else m.micros as int) as real / 1000000.0
  }

  /** A price after it has been stored as text and read back: six decimals. */
  function StoredPrice(price: real): real {
    ParsePrice(FormatPrice(price))
  }

  lemma HalfEvenWithinHalf(x: real)
    requires x >= 0.0
    ensures -0.5 <= HalfEven(x) as real - x <= 0.5
    ensures HalfEven(x) as real == x <==> x.Floor as real == x
  {
  }

  /** At most half a micro apart. */
  predicate Near(a: real, b: real) {
    -0.0000005 <= a - b <= 0.0000005
  }

  predicate WholeMicros(price: real) {
    (price * 1000000.0).Floor as real == price * 1000000.0
  }

  /** Storing moves a price by at most half a micro. */
  lemma StoredNear(price: real)
    ensures Near(StoredPrice(price), price)
  {
    HalfEvenWithinHalf(if price < 0.0 then -price * 1000000.0 else price * 1000000.0);
    hide HalfEven;
  }

  lemma NegatedFloor(x: real)
    ensures (-x).Floor as real == -x <==> x.Floor as real == x
  {
    if x.Floor as real == x {
      assert -x == (-x.Floor) as real;
    }
    if (-x).Floor as real == -x {
      assert x == (-((-x).Floor)) as real;
    }
  }

  /** It leaves exactly the whole numbers of micros alone. */
  lemma StoredExactIff(price: real)
    ensures StoredPrice(price) == price <==> WholeMicros(price)
  {
    var x := price * 1000000.0;
    NegatedFloor(x);
    HalfEvenWithinHalf(if price < 0.0 then -price * 1000000.0 else x);
    hide HalfEven;
  }

  lemma HalfEvenMonotone(x: real, y: real)
    requires 0.0 <= x <= y
    ensures HalfEven(x) <= HalfEven(y)
  {
    assert x.Floor <= y.Floor;
  }

  /** Storing and reading back keeps the order of prices. */
  lemma TextMonotone(p: real, q: real)
    requires p <= q
    ensures StoredPrice(p) <= StoredPrice(q)
  {
    if 0.0 <= p {
      HalfEvenMonotone(p * 1000000.0, q * 1000000.0);
    } else if q < 0.0 {
      HalfEvenMonotone(-q * 1000000.0, -p * 1000000.0);
    }
  }

  // ---------------------------------------------------------------- database

  datatype Series = Series(scores: map<Member, real>, expiry: Option<real>)

  datatype Stamped = Stamped(data: MarketData, expiry: real)

  datatype Db = Db(series: map<string, Series>, latest: map<string, Stamped>)

  const EMPTY_DB := Db(map[], map[])

  predicate Live(s: Series, now: real) {
    s.expiry.None? || now <= s.expiry.value
  }

  predicate HasSeries(db: Db, now: real, key: string) {
    key in db.series && Live(db.series[key], now)
  }

  /** What a reader sees under a series key: nothing once the key has expired. */
  function Scores(db: Db, now: real, key: string): map<Member, real> {
    if HasSeries(db, now, key) then db.series[key].scores else map[]
  }

  function ZAdd(db: Db, now: real, key: string, score: real, member: Member): Db {
    var kept := if HasSeries(db, now, key) then db.series[key] else Series(map[], None);
    db.(series := db.series[key := kept.(scores := kept.scores[member := score])])
  }

  function Expire(db: Db, now: real, key: string, ttl: real): Db {
    if HasSeries(db, now, key)
    then db.(series := db.series[key := db.series[key].(expiry := Some(now + ttl))])
    else db
  }

  /** The entries of a sorted set scored inside [lo, hi]. */
  function Window(scores: map<Member, real>, lo: real, hi: real): map<Member, real> {
    map m | m in scores && lo <= scores[m] <= hi :: scores[m]
  }

  /** Removes the entries scored inside [lo, hi]; an emptied set disappears with its expiry. */
  function ZRemRangeByScore(db: Db, now: real, key: string, lo: real, hi: real): Db {
    if !HasSeries(db, now, key) then db
    else
      var s := db.series[key];
      var kept := s.scores - Window(s.scores, lo, hi).Keys;
      if kept == map[] then db.(series := db.series - {key})
      else db.(series := db.series[key := s.(scores := kept)])
  }

  function Set(db: Db, now: real, key: string, data: MarketData, ttl: real): Db {
    db.(latest := db.latest[key := Stamped(data, now + ttl)])
  }

  function Get(db: Db, now: real, key: string): Option<MarketData> {
    if key in db.latest && now <= db.latest[key].expiry then Some(db.latest[key].data) else None
  }

  function Del(db: Db, key: string): Db {
    db.(latest := db.latest - {key})
  }

  predicate StartsWith(s: string, prefix: string) {
    prefix <= s
  }

  function LiveSeriesKeys(db: Db, now: real, prefix: string): set<string> {
    set k | k in db.series && Live(db.series[k], now) && StartsWith(k, prefix)
  }

  function LiveLatestKeys(db: Db, now: real, prefix: string): set<string> {
    set k | k in db.latest && now <= db.latest[k].expiry && StartsWith(k, prefix)
  }

  // ---------------------------------------------------------------- replies

  /** keys lists ks once each, in whatever order the store enumerates them. */
  ghost predicate Enumerates<T(!new)>(keys: seq<T>, ks: set<T>) {
    && (forall i, j :: 0 <= i < j < |keys| ==> keys[i] != keys[j])
    && (forall k :: k in ks <==> k in keys)
  }

  method Enumerate(ks: set<string>) returns (keys: seq<string>)
    ensures Enumerates(keys, ks)
  {
    keys := [];
    var rest := ks;
    while rest != {}
      invariant rest <= ks
      invariant Enumerates(keys, ks - rest)
    {
      var k :| k in rest;
      keys := keys + [k];
      rest := rest - {k};
    }
  }

  /** A reply of ZRANGEBYSCORE: the texts scored inside [lo, hi], once each, lowest score first. */
  ghost predicate IsReply(scores: map<Member, real>, lo: real, hi: real, reply: seq<Member>) {
    && Enumerates(reply, Window(scores, lo, hi).Keys)
    && ByScore(scores, reply)
  }

  ghost predicate ByScore(scores: map<Member, real>, reply: seq<Member>) {
    && (forall i :: 0 <= i < |reply| ==> reply[i] in scores)
    && (forall i, j :: 0 <= i < j < |reply| ==> scores[reply[i]] <= scores[reply[j]])
  }

  method ZRangeByScore(scores: map<Member, real>, lo: real, hi: real) returns (reply: seq<Member>)
    ensures IsReply(scores, lo, hi, reply)
  {
    reply := [];
    var all := Window(scores, lo, hi).Keys;
    var rest := all;
    while rest != {}
      invariant rest <= all
      invariant Enumerates(reply, all - rest)
      invariant ByScore(scores, reply)
      invariant forall i, m :: 0 <= i < |reply| && m in rest ==> scores[reply[i]] <= scores[m]
    {
      var m := LowestOf(scores, rest);
      reply := reply + [m];
      rest := rest - {m};
    }
  }

  method LowestOf(scores: map<Member, real>, ms: set<Member>) returns (best: Member)
    requires ms != {} && ms <= scores.Keys
    ensures best in ms && forall m :: m in ms ==> scores[best] <= scores[m]
  {
    best :| best in ms;
    var rest := ms - {best};
    while rest != {}
      invariant rest <= ms && best in ms
      invariant forall m :: m in ms - rest ==> scores[best] <= scores[m]
    {
      var m :| m in rest;
      if scores[m] < scores[best] {
        best := m;
      }
      rest := rest - {m};
    }
  }
}
