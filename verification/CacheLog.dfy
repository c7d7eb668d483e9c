/** The log of store commands: the programs of the two goroutines that share the store without a lock, the
    consumer that writes ticks and the cleanup routine, their interleavings, and what a log has stored. */
module CacheLog {
  import opened Market
  import opened Store
  import opened Keys

  /** Two minutes: the time to live of every key and the age cleanup removes. */
  const RETENTION := 120.0

  const SERIES_PREFIX := "timeseries:"
  const LATEST_PREFIX := "latest:"

  // ---------------------------------------------------------------- commands

  /** Timestamps above 10^12 are milliseconds; scores are seconds. */
  function Score(data: MarketData): real {
    if data.timestamp > 1000000000000 then data.timestamp as real / 1000.0 else data.timestamp as real
  }

  /** Which stamps are read in the right unit: those in seconds up to 10^12, those in milliseconds above. */
  lemma UnitReadIff(data: MarketData, stamp: int)
    ensures Score(data.(timestamp := stamp)) == stamp as real <==> stamp <= 1000000000000
    ensures Score(data.(timestamp := stamp)) == stamp as real / 1000.0 <==> stamp > 1000000000000 || stamp == 0
    ensures 1000000000 < stamp <= 1000000000000 ==>
      Score(data.(timestamp := 1000 * stamp)) == Score(data.(timestamp := stamp))
  {
    assert (1000 * stamp) as real == 1000.0 * stamp as real;
  }

  function SeriesKeyOf(data: MarketData): string {
    TimeSeriesKey(data.symbol, data.exchange)
  }

  function LatestKeyOf(data: MarketData): string {
    LatestKey(data.symbol, data.exchange)
  }

  /** A command the store executes, and when. */
  datatype Command =
    // the consumer, storing a tick
    | SetLatest(now: real, data: MarketData)
    | AddTick(now: real, data: MarketData)
    | RenewSeries(now: real, key: string)
    // the cleanup routine
    | ListSeries(now: real, cutoff: real)
    | TrimSeries(now: real, key: string, upTo: real)
    | ListLatest(now: real)
    | ReadLatest(now: real, key: string)
    | DropLatest(now: real, key: string)

  predicate Writes(c: Command) {
    c.SetLatest? || c.AddTick? || c.RenewSeries?
  }

  function Apply(db: Db, c: Command): Db {
    match c
    case SetLatest(now, data) => Set(db, now, LatestKeyOf(data), data, RETENTION)
    case AddTick(now, data) => ZAdd(db, now, SeriesKeyOf(data), Score(data), FormatPrice(data.price))
    case RenewSeries(now, key) => Expire(db, now, key, RETENTION)
    case TrimSeries(now, key, upTo) => ZRemRangeByScore(db, now, key, 0.0, upTo)
    case DropLatest(_, key) => Del(db, key)
    case ListSeries(_, _) => db
    case ListLatest(_) => db
    case ReadLatest(_, _) => db
  }

  /** The database after a history of commands. */
  function Replay(log: seq<Command>): Db {
    if log == [] then EMPTY_DB else Apply(Replay(log[..|log| - 1]), log[|log| - 1])
  }

  // ---------------------------------------------------------------- the two programs

  /** Where the consumer stands in storing a tick. A failed command sends it back to the start. */
  datatype Writer = Ready | LatestSet(data: MarketData) | TickAdded(data: MarketData)

  /** Where the cleanup routine stands: the cutoff it computed, the keys it has still to visit, and the
      key whose record it has found too old. A failed command makes it pass over a key. */
  datatype Cleaner =
    | Resting
    | Trimming(cutoff: real, todo: set<string>)
    | Checking(cutoff: real, todo: set<string>)
    | Deleting(cutoff: real, todo: set<string>, key: string)

  predicate WriterAllows(w: Writer, c: Command) {
    match c
    case SetLatest(_, _) => true
    case AddTick(_, data) => w == LatestSet(data)
    case RenewSeries(_, key) => w.TickAdded? && key == SeriesKeyOf(w.data)
    case _ => false
  }

  function WriterNext(w: Writer, c: Command): Writer {
    match c
    case SetLatest(_, data) => LatestSet(data)
    case AddTick(_, data) => TickAdded(data)
    case RenewSeries(_, _) => Ready
    case _ => w
  }

  predicate CleanerAllows(cl: Cleaner, c: Command) {
    match c
    case ListSeries(_, _) => true
    case TrimSeries(_, key, upTo) => cl.Trimming? && key in cl.todo && upTo == cl.cutoff.Floor as real
    case ListLatest(_) => cl.Trimming?
    case ReadLatest(_, key) => (cl.Checking? || cl.Deleting?) && key in cl.todo
    case DropLatest(_, key) => cl.Deleting? && key == cl.key
    case _ => false
  }

  /** A record's raw timestamp, read as seconds, is before the cutoff. */
  predicate Outdated(found: Option<MarketData>, cutoff: real) {
    found.Some? && found.value.timestamp as real < cutoff
  }

  /** What the cleanup routine does next, given the database its command finds. */
  function CleanerNext(db: Db, cl: Cleaner, c: Command): Cleaner {
    match c
    case ListSeries(now, cutoff) => Trimming(cutoff, LiveSeriesKeys(db, now, SERIES_PREFIX))
    case TrimSeries(_, key, _) => if cl.Trimming? then Trimming(cl.cutoff, cl.todo - {key}) else cl
    case ListLatest(now) => if cl.Trimming? then Checking(cl.cutoff, LiveLatestKeys(db, now, LATEST_PREFIX)) else cl
    case ReadLatest(now, key) =>
      if cl.Checking? || cl.Deleting? then
        if Outdated(Get(db, now, key), cl.cutoff) then Deleting(cl.cutoff, cl.todo - {key}, key)
        else Checking(cl.cutoff, cl.todo - {key})
      else cl
    case DropLatest(_, _) => if cl.Deleting? then Checking(cl.cutoff, cl.todo) else cl
    case _ => cl
  }

  function WriterAfter(log: seq<Command>): Writer {
    if log == [] then Ready else WriterNext(WriterAfter(log[..|log| - 1]), log[|log| - 1])
  }

  function CleanerAfter(log: seq<Command>): Cleaner {
    if log == [] then Resting
    else
      var before := log[..|log| - 1];
      CleanerNext(Replay(before), CleanerAfter(before), log[|log| - 1])
  }

  predicate Allowed(log: seq<Command>, c: Command) {
    WriterAllows(WriterAfter(log), c) || CleanerAllows(CleanerAfter(log), c)
  }

  /** An interleaving of the two programs. */
  predicate Run(log: seq<Command>) {
    log == [] || (Run(log[..|log| - 1]) && Allowed(log[..|log| - 1], log[|log| - 1]))
  }

  lemma OneMore(log: seq<Command>, c: Command)
    ensures (log + [c])[..|log|] == log && (log + [c])[|log|] == c
    ensures Replay(log + [c]) == Apply(Replay(log), c)
    ensures WriterAfter(log + [c]) == WriterNext(WriterAfter(log), c)
    ensures CleanerAfter(log + [c]) == CleanerNext(Replay(log), CleanerAfter(log), c)
    ensures Run(log + [c]) <==> Run(log) && Allowed(log, c)
  {
    assert (log + [c])[..|log|] == log;
  }

  /** The commands of one of the two programs. */
  function CommandsOf(log: seq<Command>, writer: bool): seq<Command> {
    if log == [] then []
    else
      var c := log[|log| - 1];
      CommandsOf(log[..|log| - 1], writer) + if Writes(c) == writer then [c] else []
  }

  lemma {:induction false} ConcatCommands(a: seq<Command>, b: seq<Command>, writer: bool)
    ensures CommandsOf(a + b, writer) == CommandsOf(a, writer) + CommandsOf(b, writer)
  {
    if b == [] {
      assert a + b == a;
      assert CommandsOf(a, writer) + [] == CommandsOf(a, writer);
    } else {
      ConcatCommands(a, b[..|b| - 1], writer);
      assert (a + b)[..|a + b| - 1] == a + b[..|b| - 1];
    }
  }

  /** A command of the other program leaves a program where it is. */
  lemma OthersLeave(log: seq<Command>, c: Command)
    ensures !Writes(c) ==> WriterAfter(log + [c]) == WriterAfter(log)
    ensures Writes(c) ==> CleanerAfter(log + [c]) == CleanerAfter(log)
  {
    OneMore(log, c);
  }

  // ---------------------------------------------------------------- what a log has stored

  predicate Stores(c: Command, key: string) {
    c.AddTick? && SeriesKeyOf(c.data) == key
  }

  /** The ticks logged under a series key, in writing order. */
  function Ticks(log: seq<Command>, key: string): seq<MarketData> {
    if log == [] then []
    else
      var n := |log| - 1;
      Ticks(log[..n], key) + if Stores(log[n], key) then [log[n].data] else []
  }

  /** Splitting a log splits its ticks. */
  lemma {:induction false} TicksConcat(a: seq<Command>, b: seq<Command>, key: string)
    ensures Ticks(a + b, key) == Ticks(a, key) + Ticks(b, key)
  {
    if b == [] {
      assert a + b == a && Ticks(a, key) + [] == Ticks(a, key);
    } else {
      TicksConcat(a, b[..|b| - 1], key);
      assert (a + b)[..|a + b| - 1] == a + b[..|b| - 1];
    }
  }

  predicate Stamps(c: Command, key: string) {
    c.SetLatest? && LatestKeyOf(c.data) == key
  }

  predicate Drops(c: Command, key: string) {
    c.DropLatest? && c.key == key
  }

  /** Where the record under a latest key was last written. */
  function LastWrite(log: seq<Command>, key: string): (w: Option<nat>)
    ensures w.Some? ==>
      w.value < |log| && Stamps(log[w.value], key) && forall i :: w.value < i < |log| ==> !Stamps(log[i], key)
    ensures w.None? ==> forall i :: 0 <= i < |log| ==> !Stamps(log[i], key)
  {
    if log == [] then None
    else if Stamps(log[|log| - 1], key) then Some(|log| - 1)
    else LastWrite(log[..|log| - 1], key)
  }

  ghost predicate DroppedAfter(log: seq<Command>, key: string, w: nat) {
    exists d :: w < d < |log| && Drops(log[d], key)
  }

  /** The record under a key is the one last written, and it is there until a deletion follows. */
  ghost predicate RecordInvariant(log: seq<Command>, key: string) {
    var latest, w := Replay(log).latest, LastWrite(log, key);
    && (w.None? ==> key !in latest)
    && (w.Some? ==> (key in latest <==> !DroppedAfter(log, key, w.value)))
    && (w.Some? && key in latest ==> latest[key] == Stamped(log[w.value].data, log[w.value].now + RETENTION))
  }

  lemma LatestAfter(db: Db, c: Command, key: string)
    ensures Stamps(c, key) ==>
      key in Apply(db, c).latest && Apply(db, c).latest[key] == Stamped(c.data, c.now + RETENTION)
    ensures Drops(c, key) ==> key !in Apply(db, c).latest
    ensures !Stamps(c, key) && !Drops(c, key) ==> (key in Apply(db, c).latest <==> key in db.latest)
    ensures !Stamps(c, key) && key in Apply(db, c).latest ==>
      key in db.latest && Apply(db, c).latest[key] == db.latest[key]
  {
    hide FormatPrice, Score, SeriesKeyOf, LatestKeyOf;
  }

  lemma CommandKeepsRecord(log: seq<Command>, c: Command, key: string)
    requires RecordInvariant(log, key)
    ensures RecordInvariant(log + [c], key)
  {
    var longer := log + [c];
    OneMore(log, c);
    LatestAfter(Replay(log), c, key);
    assert LastWrite(longer, key) == if Stamps(c, key) then Some(|log|) else LastWrite(log, key);
    hide Stamps, Drops, Replay, Apply, LastWrite;
    if !Stamps(c, key) && LastWrite(log, key).Some? {
      var w := LastWrite(log, key).value;
      if DroppedAfter(log, key, w) {
        var d :| w < d < |log| && Drops(log[d], key);
        assert Drops(longer[d], key);
      }
      if DroppedAfter(longer, key, w) && !Drops(c, key) {
        var d :| w < d < |longer| && Drops(longer[d], key);
        assert Drops(log[d], key);
      }
      assert Drops(c, key) ==> Drops(longer[|log|], key);
    }
  }

  lemma {:induction false} AlwaysLastWritten(log: seq<Command>, key: string)
    ensures RecordInvariant(log, key)
  {
    if log != [] {
      var n := |log| - 1;
      AlwaysLastWritten(log[..n], key);
      CommandKeepsRecord(log[..n], log[n], key);
      assert log == log[..n] + [log[n]];
    }
  }

  /** What a stretch of the log adds when at most its last command is the consumer's. */
  lemma {:induction false} OneWrite(before: seq<Command>, log: seq<Command>, c: Command, key: string)
    requires before <= log
    requires forall g :: |before| <= g < |log| ==> !Writes(log[g]) || (g == |log| - 1 && log[g] == c)
    ensures
      var written := |before| < |log| && log[|log| - 1] == c;
      && Ticks(log, key) == Ticks(before, key) + (if written && Stores(c, key) then [c.data] else [])
      && LastWrite(log, key) == if written && Stamps(c, key) then Some(|log| - 1) else LastWrite(before, key)
  {
    hide SeriesKeyOf, LatestKeyOf;
    if log == before {
      assert Ticks(log, key) + [] == Ticks(log, key);
    } else {
      var n := |log| - 1;
      assert before <= log[..n];
      OneWrite(before, log[..n], log[n], key);
      assert Ticks(log[..n], key) == Ticks(before, key);
    }
  }

  // ---------------------------------------------------------------- records by name

  /** Every record was written for a symbol without ':'. */
  ghost predicate SymbolsColonFree(log: seq<Command>) {
    forall i :: 0 <= i < |log| && log[i].SetLatest? ==> ColonFree(log[i].data.symbol)
  }

  predicate Records(c: Command, symbol: string, exchange: string) {
    c.SetLatest? && c.data.symbol == symbol && c.data.exchange == exchange
  }

  /** The last record written for this symbol and exchange is the one at position w. */
  ghost predicate LastRecordOf(log: seq<Command>, symbol: string, exchange: string, w: nat) {
    w < |log| && Records(log[w], symbol, exchange) && forall i :: w < i < |log| ==> !Records(log[i], symbol, exchange)
  }

  lemma StampsAreRecords(log: seq<Command>, symbol: string, exchange: string, i: nat)
    requires SymbolsColonFree(log) && ColonFree(symbol) && i < |log|
    ensures Stamps(log[i], LatestKey(symbol, exchange)) <==> Records(log[i], symbol, exchange)
  {
    if log[i].SetLatest? {
      LatestKeyNames(log[i].data.symbol, log[i].data.exchange, symbol, exchange);
    }
  }

  /** The record read for a symbol and an exchange is the last one written for those names. */
  lemma ReadIsLastRecord(log: seq<Command>, now: real, symbol: string, exchange: string) returns (w: nat)
    requires SymbolsColonFree(log) && ColonFree(symbol)
    requires Get(Replay(log), now, LatestKey(symbol, exchange)).Some?
    ensures LastRecordOf(log, symbol, exchange, w)
    ensures Get(Replay(log), now, LatestKey(symbol, exchange)) == Some(log[w].data)
  {
    var key := LatestKey(symbol, exchange);
    AlwaysLastWritten(log, key);
    w := LastWrite(log, key).value;
    hide Replay, LastWrite, LatestKey, Stamps;
    forall i | 0 <= i < |log|
      ensures Stamps(log[i], key) <==> Records(log[i], symbol, exchange)
    {
      StampsAreRecords(log, symbol, exchange, i);
    }
  }

  /** What is found under a key that starts like the symbol's keys is that symbol's record. */
  lemma ListedIsLastRecord(log: seq<Command>, now: real, symbol: string, key: string) returns (w: nat)
    requires SymbolsColonFree(log) && ColonFree(symbol)
    requires key in LiveLatestKeys(Replay(log), now, LatestKey(symbol, ""))
    ensures w < |log| && log[w].SetLatest? && LastRecordOf(log, symbol, log[w].data.exchange, w)
    ensures Get(Replay(log), now, key) == Some(log[w].data)
  {
    AlwaysLastWritten(log, key);
    w := LastWrite(log, key).value;
    var d := log[w].data;
    LatestPrefixNames(symbol, d.symbol, d.exchange);
    assert key == LatestKey(symbol, d.exchange);
    w := ReadIsLastRecord(log, now, symbol, d.exchange);
  }
}
