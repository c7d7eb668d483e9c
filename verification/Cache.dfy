/** The cache adapter (redis.go): an object over the store, with the specification functions its
    methods are proved against. */
module Cache {
  import opened Market
  import opened Store
  import opened Keys
  import opened CacheLog

  // ---------------------------------------------------------------- what the methods send

  /** When a goroutine's next command reaches the store, and which commands the other goroutine tries
      before it. What the other program does not allow at that point does not happen. */
  datatype Turn = Turn(now: real, others: seq<Command>)

  /** What becomes of a command: executed and answered, not executed, or executed with the answer lost. */
  datatype Reply = Answered | Refused | Lost

  datatype WriteReplies = WriteReplies(stamp: Reply, zadd: Reply, expire: Reply)

  function Executed(r: Reply, c: Command): seq<Command> {
    if r.Refused? then [] else [c]
  }

  /** The consumer's commands for one tick. Without an answer to the first or second it gives up. */
  function SetPriceCommands(data: MarketData, turns: seq<Turn>, r: WriteReplies): seq<Command>
    requires |turns| == 3
  {
    Executed(r.stamp, SetLatest(turns[0].now, data)) +
    if !r.stamp.Answered? then []
    else
      Executed(r.zadd, AddTick(turns[1].now, data)) +
      if !r.zadd.Answered? then [] else Executed(r.expire, RenewSeries(turns[2].now, SeriesKeyOf(data)))
  }

  /** Which commands of a cleanup are refused. */
  datatype CleanupFaults = CleanupFaults(keysOk: bool, zremFail: set<string>, latestKeysOk: bool,
                                         getFail: set<string>, delFail: set<string>)

  /** One trim per listed key, in order, starting with the given turn. */
  function TrimCommands(keys: seq<string>, fail: set<string>, upTo: real, turns: nat -> Turn,
                        first: nat): seq<Command> {
    if keys == [] then []
    else
      var n := |keys| - 1;
      TrimCommands(keys[..n], fail, upTo, turns, first)
      + if keys[n] in fail then [] else [TrimSeries(turns(first + n).now, keys[n], upTo)]
  }

  /** One read per listed key, followed by its deletion when the record read was too old. */
  function RecordCommands(keys: seq<string>, f: CleanupFaults, outdated: set<string>, turns: nat -> Turn,
                          first: nat): seq<Command> {
    if keys == [] then []
    else
      var n := |keys| - 1;
      RecordCommands(keys[..n], f, outdated, turns, first)
        + RecordCommandsFor(keys[n], f, outdated, turns, first + 2 * n)
  }

  function RecordCommandsFor(key: string, f: CleanupFaults, outdated: set<string>, turns: nat -> Turn,
                             turn: nat): seq<Command> {
    if key in f.getFail then []
    else
      [ReadLatest(turns(turn).now, key)]
      + if key in outdated && key !in f.delFail then [DropLatest(turns(turn + 1).now, key)] else []
  }

  /** What a cleanup came across: where in the log it listed the keys, which they were, and whose
      records it read as too old. */
  datatype Visit = Visit(seriesAt: nat, keys: seq<string>, latestAt: nat, records: seq<string>, outdated: set<string>)

  /** The cleanup's own commands. */
  function CleanupCommands(v: Visit, cutoff: real, f: CleanupFaults, turns: nat -> Turn): seq<Command> {
    if !f.keysOk then []
    else
      [ListSeries(turns(0).now, cutoff)]
      + TrimCommands(v.keys, f.zremFail, cutoff.Floor as real, turns, 1)
      + if !f.latestKeysOk then []
        else [ListLatest(turns(1 + |v.keys|).now)] + RecordCommands(v.records, f, v.outdated, turns, 2 + |v.keys|)
  }

  /** Every listed key was live when it was listed. */
  ghost predicate ListedLive(log: seq<Command>, v: Visit, f: CleanupFaults) {
    f.keysOk ==>
      && v.seriesAt < |log| && log[v.seriesAt].ListSeries?
      && Enumerates(v.keys, LiveSeriesKeys(Replay(log[..v.seriesAt]), log[v.seriesAt].now, SERIES_PREFIX))
      && (f.latestKeysOk ==>
            && v.latestAt < |log| && log[v.latestAt].ListLatest?
            && Enumerates(v.records, LiveLatestKeys(Replay(log[..v.latestAt]), log[v.latestAt].now, LATEST_PREFIX)))
  }

  /** From position start on, a key counts as outdated exactly when the record read under it was. */
  ghost predicate OutdatedAsRead(log: seq<Command>, start: nat, outdated: set<string>, cutoff: real) {
    forall g :: start <= g < |log| && log[g].ReadLatest? ==>
      (log[g].key in outdated <==> Outdated(Get(Replay(log[..g]), log[g].now, log[g].key), cutoff))
  }

  /** At position g the key is trimmed: what a reader saw scored from 0 up to the cutoff's second is gone,
      the rest is left as it was. */
  ghost predicate TrimsAt(log: seq<Command>, g: nat, key: string, cutoff: real) {
    && g < |log| && log[g].TrimSeries? && log[g].key == key
    && var before, after := Scores(Replay(log[..g]), log[g].now, key), Scores(Replay(log[..g + 1]), log[g].now, key);
       && (forall m :: m in after <==> m in before && !(0.0 <= before[m] <= cutoff.Floor as real))
       && (forall m :: m in after ==> after[m] == before[m])
  }

  ghost predicate TrimmedSince(log: seq<Command>, start: nat, key: string, cutoff: real) {
    exists g :: start <= g && TrimsAt(log, g, key, cutoff)
  }

  /** At position h the record under the key is deleted. */
  ghost predicate DeletesAt(log: seq<Command>, h: nat, key: string) {
    h < |log| && log[h].DropLatest? && log[h].key == key && key !in Replay(log[..h + 1]).latest
  }

  ghost predicate DeletedAfter(log: seq<Command>, g: nat, key: string) {
    exists h :: g < h && DeletesAt(log, h, key)
  }

  /** From position start on, every record read as too old is deleted, unless its deletion is refused. */
  ghost predicate OutdatedDeleted(log: seq<Command>, start: nat, fail: set<string>, cutoff: real) {
    forall g :: start <= g < |log| && log[g].ReadLatest? && log[g].key !in fail
                && Outdated(Get(Replay(log[..g]), log[g].now, log[g].key), cutoff) ==>
      DeletedAfter(log, g, log[g].key)
  }

  /** From position start on, the record under the key is read. */
  ghost predicate ReadSince(log: seq<Command>, start: nat, key: string) {
    exists g :: start <= g < |log| && log[g].ReadLatest? && log[g].key == key
  }

  lemma TrimStays(log: seq<Command>, longer: seq<Command>, start: nat, key: string, cutoff: real)
    requires log <= longer && TrimmedSince(log, start, key, cutoff)
    ensures TrimmedSince(longer, start, key, cutoff)
  {
    hide Replay, Scores;
    var g :| start <= g && TrimsAt(log, g, key, cutoff);
    assert log[..g] == longer[..g] && log[..g + 1] == longer[..g + 1] && log[g] == longer[g];
    assert TrimsAt(longer, g, key, cutoff);
  }

  lemma DeletionStays(log: seq<Command>, longer: seq<Command>, g: nat, key: string)
    requires log <= longer && DeletedAfter(log, g, key)
    ensures DeletedAfter(longer, g, key)
  {
    hide Replay;
    var h :| g < h && DeletesAt(log, h, key);
    assert log[..h + 1] == longer[..h + 1] && log[h] == longer[h];
    assert DeletesAt(longer, h, key);
  }

  lemma TrimTakesEffect(log: seq<Command>, now: real, key: string, cutoff: real)
    requires log != [] && log[|log| - 1] == TrimSeries(now, key, cutoff.Floor as real)
    ensures TrimsAt(log, |log| - 1, key, cutoff)
  {
    assert log[..|log|] == log;
  }

  lemma DeletionTakesEffect(log: seq<Command>, now: real, key: string)
    requires log != [] && log[|log| - 1] == DropLatest(now, key)
    ensures DeletesAt(log, |log| - 1, key)
  {
    assert log[..|log|] == log;
  }

  /** One record read, and deleted by the last command if too old. */
  lemma ReadsAnswered(log: seq<Command>, start: nat, key: string, outdated: bool, fail: set<string>, cutoff: real)
    requires forall g :: start <= g < |log| && log[g].ReadLatest? ==>
      log[g].key == key && (outdated <==> Outdated(Get(Replay(log[..g]), log[g].now, key), cutoff))
    requires outdated && key !in fail ==> log != [] && DeletesAt(log, |log| - 1, key)
    ensures OutdatedDeleted(log, start, fail, cutoff)
  {
    hide Replay, Outdated, Get;
  }

  /** A log that keeps the promise, and a stretch that does. */
  lemma DeletedInBoth(before: seq<Command>, log: seq<Command>, start: nat, fail: set<string>, cutoff: real)
    requires start <= |before| && before <= log
    requires OutdatedDeleted(before, start, fail, cutoff) && OutdatedDeleted(log, |before|, fail, cutoff)
    ensures OutdatedDeleted(log, start, fail, cutoff)
  {
    hide Replay, Outdated, DeletedAfter;
    forall g | start <= g < |log| && log[g].ReadLatest? && log[g].key !in fail
               && Outdated(Get(Replay(log[..g]), log[g].now, log[g].key), cutoff)
      ensures DeletedAfter(log, g, log[g].key)
    {
      if g < |before| {
        assert log[..g] == before[..g] && log[g] == before[g];
        DeletionStays(before, log, g, log[g].key);
      }
    }
  }

  /** What a log has stored since start: the tick's record, if recorded, the last one written under its key,
      and the tick itself, if added, under its series key; nothing else under any key. */
  ghost predicate Stored(start: seq<Command>, log: seq<Command>, t: real, data: MarketData, recorded: bool,
                         added: bool) {
    && start <= log
    && (forall key :: key != LatestKeyOf(data) || !recorded ==> LastWrite(log, key) == LastWrite(start, key))
    && (recorded ==> RecordWritten(log, |start|, t, data))
    && (forall key :: Ticks(log, key) ==
          Ticks(start, key) + if added && key == SeriesKeyOf(data) then [data] else [])
  }

  /** The tick's record is the last written under its key, and it was written since start. */
  ghost predicate RecordWritten(log: seq<Command>, start: nat, t: real, data: MarketData) {
    var w := LastWrite(log, LatestKeyOf(data));
    w.Some? && start <= w.value && log[w.value] == SetLatest(t, data)
  }

  /** The tick is added and later its key renewed. */
  ghost predicate AddedThenRenewed(log: seq<Command>, start: nat, t: real, u: real, data: MarketData) {
    exists a, b :: start <= a < b < |log| && log[a] == AddTick(t, data) && log[b] == RenewSeries(u, SeriesKeyOf(data))
  }

  /** A log grown in two stages holds the commands of the first, then those of the second. */
  lemma GrownCommands(start: seq<Command>, before: seq<Command>, log: seq<Command>, writer: bool)
    requires start <= before <= log
    ensures CommandsOf(log[|start|..], writer) ==
      CommandsOf(before[|start|..], writer) + CommandsOf(log[|before|..], writer)
  {
    assert log[|start|..] == before[|start|..] + log[|before|..];
    ConcatCommands(before[|start|..], log[|before|..], writer);
  }

  lemma OneMoreCommand(start: seq<Command>, before: seq<Command>, c: Command, writer: bool)
    requires start <= before
    ensures CommandsOf((before + [c])[|start|..], writer) ==
      CommandsOf(before[|start|..], writer) + if Writes(c) == writer then [c] else []
  {
    GrownCommands(start, before, before + [c], writer);
    assert (before + [c])[|before|..] == [c] && [c][..0] == [];
  }

  // ---------------------------------------------------------------- reading

  /** Conversion of a float to a whole number drops the fraction. */
  function Truncate(x: real): int {
    if x >= 0.0 then x.Floor else -((-x).Floor)
  }

  /** Which store commands fail during a read. */
  datatype ReadFaults = ReadFaults(keysOk: bool, existsOk: bool, rangeFail: set<string>,
                                   scoreFail: set<(string, Member)>) {
    function Lost(key: string): set<Member> {
      set p | p in scoreFail && p.0 == key :: p.1
    }
  }

  const NO_READ_FAULTS := ReadFaults(true, true, {}, {})

  function Entry(symbol: string, exchange: string, m: Member, score: real): MarketData {
    MarketData(symbol, ParsePrice(m), Truncate(score), exchange)
  }

  /** One exchange: the entries of a reply, those with a failed score lookup left out. */
  function Entries(symbol: string, exchange: string, scores: map<Member, real>, reply: seq<Member>,
                   lost: set<Member>): seq<MarketData>
    requires forall i :: 0 <= i < |reply| ==> reply[i] in scores
  {
    if reply == [] then []
    else
      var n := |reply| - 1;
      var before := Entries(symbol, exchange, scores, reply[..n], lost);
      if reply[n] in lost then before
      else before + [Entry(symbol, exchange, reply[n], scores[reply[n]])]
  }

  /** The part of width that position i of total takes up. */
  function Share(i: nat, total: nat, width: real): real
    requires total > 1
  {
    i as real / (total - 1) as real * width
  }

  /** The position-based estimate used when a score lookup fails in the cross-exchange query. */
  function Estimate(i: nat, total: nat, from: real, to: real): real {
    if total > 1 then from + Share(i, total, to - from) else from
  }

  /** All exchanges, one key: every entry of the reply, estimated where the lookup fails. */
  function KeyEntries(symbol: string, exchange: string, scores: map<Member, real>, reply: seq<Member>,
                      from: real, to: real, lost: set<Member>): seq<MarketData>
    requires forall i :: 0 <= i < |reply| ==> reply[i] in scores
  {
    seq(|reply|, i requires 0 <= i < |reply| =>
      Entry(symbol, exchange, reply[i], if reply[i] in lost then Estimate(i, |reply|, from, to) else scores[reply[i]]))
  }

  ghost predicate AreReplies(db: Db, now: real, from: int, to: int, replies: map<string, seq<Member>>) {
    forall k :: k in replies ==> IsReply(Scores(db, now, k), from as real, to as real, replies[k])
  }

  /** What one key contributes to the cross-exchange query. */
  function KeyPart(db: Db, now: real, symbol: string, key: string, replies: map<string, seq<Member>>,
                   from: int, to: int, f: ReadFaults): seq<MarketData>
    requires AreReplies(db, now, from, to, replies)
  {
    if |Split(key)| < 3 || key in f.rangeFail || key !in replies then []
    else KeyEntries(symbol, Split(key)[2], Scores(db, now, key), replies[key], from as real, to as real, f.Lost(key))
  }

  /** The contributions of the keys, in the order the store listed them. */
  function AllParts(db: Db, now: real, symbol: string, keys: seq<string>, replies: map<string, seq<Member>>,
                    from: int, to: int, f: ReadFaults): seq<MarketData>
    requires AreReplies(db, now, from, to, replies)
  {
    if keys == [] then []
    else
      AllParts(db, now, symbol, keys[..|keys| - 1], replies, from, to, f)
      + KeyPart(db, now, symbol, keys[|keys| - 1], replies, from, to, f)
  }

  /** d is stored under a live, readable key of the symbol and carries a positive timestamp. */
  ghost predicate Candidate(db: Db, now: real, symbol: string, unreadable: set<string>, d: MarketData) {
    exists k :: k in LiveLatestKeys(db, now, LatestKey(symbol, "")) - unreadable && Get(db, now, k) == Some(d)
      && d.timestamp > 0
  }

  // ---------------------------------------------------------------- the adapter

  class RedisAdapter {
    var db: Db
    var log: seq<Command>

    ghost predicate Valid()
      reads this
    {
      db == Replay(log) && Run(log)
    }

    constructor ()
      ensures Valid() && log == []
    {
      db := EMPTY_DB;
      log := [];
    }

    /** The store executes a command one of the two programs has come to. */
    method Execute(c: Command)
      requires Valid() && Allowed(log, c)
      modifies this
      ensures Valid() && log == old(log) + [c]
    {
      OneMore(log, c);
      db := Apply(db, c);
      log := log + [c];
    }

    /** Waiting for a turn while the other goroutine goes on: the waiting program stays where it is. */
    method Await(turn: Turn, writer: bool)
      requires Valid()
      modifies this
      ensures Valid() && old(log) <= log && CommandsOf(log[|old(log)|..], writer) == []
      ensures forall g :: |old(log)| <= g < |log| ==> Writes(log[g]) != writer
      ensures writer ==> WriterAfter(log) == old(WriterAfter(log))
      ensures !writer ==> CleanerAfter(log) == old(CleanerAfter(log))
      ensures turn.others == [] ==> log == old(log)
    {
      hide Replay, Run, Allowed, WriterAfter, CleanerAfter, CommandsOf, Apply;
      NothingYet(log, 0.0);
      for i := 0 to |turn.others|
        invariant Valid() && old(log) <= log && CommandsOf(log[|old(log)|..], writer) == []
        invariant forall g :: |old(log)| <= g < |log| ==> Writes(log[g]) != writer
        invariant writer ==> WriterAfter(log) == old(WriterAfter(log))
        invariant !writer ==> CleanerAfter(log) == old(CleanerAfter(log))
        invariant turn.others == [] ==> log == old(log)
      {
        var c := turn.others[i];
        if Writes(c) != writer && Allowed(log, c) {
          OthersLeave(log, c);
          OneMoreCommand(old(log), log, c, writer);
          Execute(c);
        }
      }
    }

    /** One turn: the command reaches the store unless it is refused. */
    method Send(turn: Turn, reply: Reply, c: Command)
      requires Valid() && c.now == turn.now
      requires Writes(c) ==> WriterAllows(WriterAfter(log), c)
      requires !Writes(c) ==> CleanerAllows(CleanerAfter(log), c)
      modifies this
      ensures Valid() && old(log) <= log && CommandsOf(log[|old(log)|..], Writes(c)) == Executed(reply, c)
      ensures forall g :: |old(log)| <= g < |log| ==>
        Writes(log[g]) != Writes(c) || (!reply.Refused? && g == |log| - 1 && log[g] == c)
      ensures reply.Refused? && Writes(c) ==> WriterAfter(log) == old(WriterAfter(log))
      ensures reply.Refused? && !Writes(c) ==> CleanerAfter(log) == old(CleanerAfter(log))
      ensures !reply.Refused? ==> |old(log)| < |log| && log[|log| - 1] == c
      ensures !reply.Refused? && (c.ListSeries? || c.ListLatest? || c.ReadLatest?) ==> db == Replay(log[..|log| - 1])
      ensures !reply.Refused? && Writes(c) ==> WriterAfter(log) == WriterNext(old(WriterAfter(log)), c)
      ensures !reply.Refused? && !Writes(c) ==>
        CleanerAfter(log) == CleanerNext(Replay(log[..|log| - 1]), old(CleanerAfter(log)), c)
      ensures turn.others == [] ==> log == old(log) + Executed(reply, c)
    {
      hide Replay, Run, WriterAfter, CleanerAfter, CommandsOf;
      Await(turn, Writes(c));
      if !reply.Refused? {
        OneMore(log, c);
        OneMoreCommand(old(log), log, c, Writes(c));
        Execute(c);
      }
    }

    /** Stores a tick. A missing answer is reported for the first two commands only. The record is written
        unless the first command is refused, the tick logged under its key unless the first has no answer
        or the second is refused, and the key renewed after that if the second has one. When everything is
        answered, nothing comes in between and the key does not expire meanwhile, a reader finds the tick
        and the key lives for two minutes more. */
    method SetPrice(data: MarketData, turns: seq<Turn>, replies: WriteReplies) returns (ok: bool)
      requires Valid() && |turns| == 3
      modifies this
      ensures Valid() && old(log) <= log
      ensures CommandsOf(log[|old(log)|..], true) == SetPriceCommands(data, turns, replies)
      ensures ok <==> replies.stamp.Answered? && replies.zadd.Answered?
      ensures
        var added := replies.stamp.Answered? && !replies.zadd.Refused?;
        Stored(old(log), log, turns[0].now, data, !replies.stamp.Refused?, added)
      ensures ok && !replies.expire.Refused? ==>
        AddedThenRenewed(log, |old(log)|, turns[1].now, turns[2].now, data)
      ensures
        var key := SeriesKeyOf(data);
        ok && replies.expire.Answered? && turns[0].others == turns[1].others == turns[2].others == []
        && (HasSeries(old(db), turns[1].now, key) ==> HasSeries(old(db), turns[2].now, key)) ==>
          && key in db.series && db.series[key].expiry == Some(turns[2].now + RETENTION)
          && Scores(db, turns[2].now, key)
             == Scores(old(db), turns[1].now, key)[FormatPrice(data.price) := Score(data)]
    {
      hide Replay, Run, WriterAfter, CleanerAfter, CommandsOf, Apply, TimeSeriesKey, Stored, AddedThenRenewed,
        FormatPrice, Score, Scores, HasSeries;
      Send(turns[0], replies.stamp, SetLatest(turns[0].now, data));
      ghost var stamped := log;
      AfterSet(old(log), log, turns[0].now, data, !replies.stamp.Refused?);
      if !replies.stamp.Answered? {
        return false;
      }
      Send(turns[1], replies.zadd, AddTick(turns[1].now, data));
      ghost var added := log;
      GrownCommands(old(log), stamped, log, true);
      AfterAdd(old(log), stamped, log, turns[0].now, turns[1].now, data, !replies.zadd.Refused?);
      if !replies.zadd.Answered? {
        return false;
      }
      Send(turns[2], replies.expire, RenewSeries(turns[2].now, TimeSeriesKey(data.symbol, data.exchange)));
      GrownCommands(old(log), added, log, true);
      AfterRenewal(old(log), stamped, added, log, turns[0].now, turns[1].now, turns[2].now, data,
                   !replies.expire.Refused?);
      if replies.expire.Answered? && turns[0].others == turns[1].others == turns[2].others == [] {
        TickReadable(old(log), turns[0].now, turns[1].now, turns[2].now, data);
      }
      return true;
    }

    /** KEYS timeseries:* and KEYS latest:*, in whatever order the store lists them. */
    method ListKeys(turn: Turn, cutoff: real) returns (keys: seq<string>)
      requires Valid()
      modifies this
      ensures Valid() && old(log) < log && log[|log| - 1] == ListSeries(turn.now, cutoff)
      ensures CommandsOf(log[|old(log)|..], false) == [ListSeries(turn.now, cutoff)]
      ensures forall g :: |old(log)| <= g < |log| ==> !log[g].ReadLatest?
      ensures Enumerates(keys, LiveSeriesKeys(Replay(log[..|log| - 1]), turn.now, SERIES_PREFIX))
      ensures CleanerAfter(log).Trimming? && CleanerAfter(log).cutoff == cutoff
      ensures forall k :: k in keys ==> k in CleanerAfter(log).todo
    {
      Send(turn, Answered, ListSeries(turn.now, cutoff));
      keys := Enumerate(LiveSeriesKeys(db, turn.now, SERIES_PREFIX));
    }

    method ListRecords(turn: Turn) returns (keys: seq<string>)
      requires Valid() && CleanerAfter(log).Trimming?
      modifies this
      ensures Valid() && old(log) < log && log[|log| - 1] == ListLatest(turn.now)
      ensures CommandsOf(log[|old(log)|..], false) == [ListLatest(turn.now)]
      ensures forall g :: |old(log)| <= g < |log| ==> !log[g].ReadLatest?
      ensures Enumerates(keys, LiveLatestKeys(Replay(log[..|log| - 1]), turn.now, LATEST_PREFIX))
      ensures CleanerAfter(log).Checking? && CleanerAfter(log).cutoff == old(CleanerAfter(log).cutoff)
      ensures forall k :: k in keys ==> k in CleanerAfter(log).todo
    {
      Send(turn, Answered, ListLatest(turn.now));
      keys := Enumerate(LiveLatestKeys(db, turn.now, LATEST_PREFIX));
    }

    method RemoveOldEntries(keys: seq<string>, cutoff: real, turns: nat -> Turn, fail: set<string>)
      requires Valid() && CleanerAfter(log).Trimming? && CleanerAfter(log).cutoff == cutoff
      requires forall i, j :: 0 <= i < j < |keys| ==> keys[i] != keys[j]
      requires forall k :: k in keys ==> k in CleanerAfter(log).todo
      modifies this
      ensures Valid() && old(log) <= log
      ensures CommandsOf(log[|old(log)|..], false) == TrimCommands(keys, fail, cutoff.Floor as real, turns, 1)
      ensures forall g :: |old(log)| <= g < |log| ==> !log[g].ReadLatest?
      ensures forall k :: k in keys && k !in fail ==> TrimmedSince(log, |old(log)|, k, cutoff)
      ensures CleanerAfter(log).Trimming? && CleanerAfter(log).cutoff == cutoff
    {
      hide Replay, Run, WriterAfter, CleanerAfter, CommandsOf, Apply, TrimsAt, TrimmedSince;
      NothingYet(log, cutoff);
      var cutoffScore := cutoff.Floor as real;
      for i := 0 to |keys|
        invariant Valid() && old(log) <= log
        invariant CommandsOf(log[|old(log)|..], false) == TrimCommands(keys[..i], fail, cutoffScore, turns, 1)
        invariant forall g :: |old(log)| <= g < |log| ==> !log[g].ReadLatest?
        invariant forall j :: 0 <= j < i && keys[j] !in fail ==> TrimmedSince(log, |old(log)|, keys[j], cutoff)
        invariant CleanerAfter(log).Trimming? && CleanerAfter(log).cutoff == cutoff
        invariant forall j :: i <= j < |keys| ==> keys[j] in CleanerAfter(log).todo
      {
        ghost var before := log;
        Send(turns(1 + i), if keys[i] in fail then Refused else Answered,
             TrimSeries(turns(1 + i).now, keys[i], cutoffScore));
        GrownCommands(old(log), before, log, false);
        TrimsGrow(before, log, |old(log)|, keys, i, turns(1 + i).now, fail, cutoff);
        assert keys[..i + 1][..i] == keys[..i];
      }
      assert keys[..|keys|] == keys;
    }

    /** GET of one record. */
    method ReadRecord(turn: Turn, key: string) returns (found: Option<MarketData>)
      requires Valid() && (CleanerAfter(log).Checking? || CleanerAfter(log).Deleting?) && key in CleanerAfter(log).todo
      modifies this
      ensures Valid() && old(log) < log && log[|log| - 1] == ReadLatest(turn.now, key)
      ensures CommandsOf(log[|old(log)|..], false) == [ReadLatest(turn.now, key)]
      ensures forall g :: |old(log)| <= g < |log| - 1 ==> !log[g].ReadLatest?
      ensures found == Get(Replay(log[..|log| - 1]), turn.now, key)
      ensures
        var before := old(CleanerAfter(log));
        CleanerAfter(log) ==
        if Outdated(found, before.cutoff) then Deleting(before.cutoff, before.todo - {key}, key)
        else Checking(before.cutoff, before.todo - {key})
    {
      hide Replay, Run, WriterAfter, CleanerAfter, CommandsOf, Apply, LiveLatestKeys, LiveSeriesKeys, Outdated, Get;
      Send(turn, Answered, ReadLatest(turn.now, key));
      found := Get(db, turn.now, key);
    }

    /** DEL of the record read last. */
    method DropRecord(turn: Turn, key: string, refused: bool)
      requires Valid() && CleanerAfter(log).Deleting? && CleanerAfter(log).key == key
      modifies this
      ensures Valid() && old(log) <= log
      ensures CommandsOf(log[|old(log)|..], false) == if refused then [] else [DropLatest(turn.now, key)]
      ensures forall g :: |old(log)| <= g < |log| ==> !log[g].ReadLatest?
      ensures !refused ==> log != [] && DeletesAt(log, |log| - 1, key)
      ensures CleanerAfter(log).Checking? || CleanerAfter(log).Deleting?
      ensures CleanerAfter(log).cutoff == old(CleanerAfter(log).cutoff)
      ensures CleanerAfter(log).todo == old(CleanerAfter(log).todo)
    {
      hide Replay, Run, WriterAfter, CleanerAfter, CommandsOf, Apply, LiveLatestKeys, LiveSeriesKeys, Outdated, Get,
        DeletesAt;
      Send(turn, if refused then Refused else Answered, DropLatest(turn.now, key));
      if !refused {
        DeletionTakesEffect(log, turn.now, key);
      }
    }

    /** One record: read, and deleted if too old by then. */
    method RemoveIfOld(key: string, cutoff: real, turns: nat -> Turn, turn: nat, f: CleanupFaults)
      returns (ghost outdated: bool)
      requires Valid() && (CleanerAfter(log).Checking? || CleanerAfter(log).Deleting?)
      requires CleanerAfter(log).cutoff == cutoff
      requires key in CleanerAfter(log).todo
      modifies this
      ensures Valid() && old(log) <= log
      ensures CommandsOf(log[|old(log)|..], false) ==
        RecordCommandsFor(key, f, if outdated then {key} else {}, turns, turn)
      ensures forall g :: |old(log)| <= g < |log| && log[g].ReadLatest? ==>
        log[g].key == key && (outdated <==> Outdated(Get(Replay(log[..g]), log[g].now, key), cutoff))
      ensures OutdatedDeleted(log, |old(log)|, f.delFail, cutoff)
      ensures key !in f.getFail ==> ReadSince(log, |old(log)|, key)
      ensures (CleanerAfter(log).Checking? || CleanerAfter(log).Deleting?) && CleanerAfter(log).cutoff == cutoff
      ensures CleanerAfter(log).todo >= old(CleanerAfter(log).todo) - {key}
    {
      hide Replay, Run, WriterAfter, CleanerAfter, CommandsOf, Apply, LiveLatestKeys, LiveSeriesKeys, DeletesAt,
        OutdatedDeleted, Get, WriterAllows, WriterNext, Scores;
      outdated := false;
      if key in f.getFail {
        Send(turns(turn), Refused, ReadLatest(turns(turn).now, key));
        ReadsAnswered(log, |old(log)|, key, outdated, f.delFail, cutoff);
        return;
      }
      var found := ReadRecord(turns(turn), key);
      ghost var read := log;
      outdated := Outdated(found, cutoff);
      if found.Some? && found.value.timestamp as real < cutoff {
        DropRecord(turns(turn + 1), key, key in f.delFail);
        GrownCommands(old(log), read, log, false);
        assert log[..|read| - 1] == read[..|read| - 1];
      }
      ReadsAnswered(log, |old(log)|, key, outdated, f.delFail, cutoff);
    }

    method RemoveOldRecords(keys: seq<string>, cutoff: real, turns: nat -> Turn, first: nat, f: CleanupFaults)
      returns (ghost outdated: set<string>)
      requires Valid() && CleanerAfter(log).Checking? && CleanerAfter(log).cutoff == cutoff
      requires forall i, j :: 0 <= i < j < |keys| ==> keys[i] != keys[j]
      requires forall k :: k in keys ==> k in CleanerAfter(log).todo
      modifies this
      ensures Valid() && old(log) <= log
      ensures CommandsOf(log[|old(log)|..], false) == RecordCommands(keys, f, outdated, turns, first)
      ensures OutdatedAsRead(log, |old(log)|, outdated, cutoff)
      ensures OutdatedDeleted(log, |old(log)|, f.delFail, cutoff)
      ensures forall k :: k in keys && k !in f.getFail ==> ReadSince(log, |old(log)|, k)
    {
      hide Replay, Run, WriterAfter, CleanerAfter, CommandsOf, Apply, CleanerNext, Outdated, OutdatedAsRead,
        OutdatedDeleted, RecordCommands, RecordCommandsFor, ReadSince;
      NothingYet(log, cutoff);
      outdated := {};
      NoRecordCommands(f, outdated, turns, first);
      for i := 0 to |keys|
        invariant Valid() && old(log) <= log
        invariant CommandsOf(log[|old(log)|..], false) == RecordCommands(keys[..i], f, outdated, turns, first)
        invariant OutdatedAsRead(log, |old(log)|, outdated, cutoff)
        invariant OutdatedDeleted(log, |old(log)|, f.delFail, cutoff)
        invariant forall j :: 0 <= j < i && keys[j] !in f.getFail ==> ReadSince(log, |old(log)|, keys[j])
        invariant forall g :: |old(log)| <= g < |log| && log[g].ReadLatest? ==> log[g].key in keys[..i]
        invariant forall k :: k in outdated ==> k in keys[..i]
        invariant (CleanerAfter(log).Checking? || CleanerAfter(log).Deleting?) && CleanerAfter(log).cutoff == cutoff
        invariant forall j :: i <= j < |keys| ==> keys[j] in CleanerAfter(log).todo
      {
        ghost var before := log;
        assert keys[i] !in keys[..i];
        ghost var tooOld := RemoveIfOld(keys[i], cutoff, turns, first + 2 * i, f);
        GrownCommands(old(log), before, log, false);
        DeletedInBoth(before, log, |old(log)|, f.delFail, cutoff);
        ReadsGrow(before, log, |old(log)|, keys, i, f.getFail);
        ghost var grown := if tooOld then outdated + {keys[i]} else outdated;
        OneMoreRecord(keys, i, f, outdated, tooOld, turns, first);
        assert keys[..i + 1] == keys[..i] + [keys[i]];
        OutdatedGrows(before, log, |old(log)|, keys[i], outdated, grown, cutoff);
        outdated := grown;
      }
      assert keys[..|keys|] == keys;
    }

    /** Removes entries older than the given age from every series, then latest records too old,
        while ticks go on being stored. */
    method CleanupOldData(now: real, olderThan: real, turns: nat -> Turn, f: CleanupFaults)
      returns (ok: bool, ghost visit: Visit)
      requires Valid()
      modifies this
      ensures Valid() && old(log) <= log && ok == f.keysOk
      ensures CommandsOf(log[|old(log)|..], false) == CleanupCommands(visit, now - olderThan, f, turns)
      ensures ListedLive(log, visit, f)
      ensures OutdatedAsRead(log, |old(log)|, visit.outdated, now - olderThan)
      ensures ok ==> forall k :: k in visit.keys && k !in f.zremFail ==>
        TrimmedSince(log, |old(log)|, k, now - olderThan)
      ensures ok && f.latestKeysOk ==> forall k :: k in visit.records && k !in f.getFail ==>
        ReadSince(log, |old(log)|, k)
      ensures OutdatedDeleted(log, |old(log)|, f.delFail, now - olderThan)
    {
      hide Replay, Run, WriterAfter, CleanerAfter, CommandsOf, Apply, CleanerNext, Outdated, RecordCommands,
        TrimCommands, TrimmedSince, DeletedAfter;
      var cutoffTime := now - olderThan;
      NothingYet(log, cutoffTime);
      visit := Visit(0, [], 0, [], {});
      if !f.keysOk {
        return false, visit;
      }
      var keys := ListKeys(turns(0), cutoffTime);
      ghost var listed := log;
      visit := visit.(seriesAt := |log| - 1, keys := keys);
      RemoveOldEntries(keys, cutoffTime, turns, f.zremFail);
      ghost var trimmed := log;
      TrimmedEarlier(log, |listed|, |old(log)|, keys, f.zremFail, cutoffTime);
      GrownCommands(old(log), listed, log, false);
      assert log[..visit.seriesAt] == listed[..visit.seriesAt];
      if f.latestKeysOk {
        var records := ListRecords(turns(1 + |keys|));
        ghost var checked := log;
        GrownCommands(old(log), trimmed, log, false);
        visit := visit.(latestAt := |log| - 1, records := records);
        ghost var outdated := RemoveOldRecords(records, cutoffTime, turns, 2 + |keys|, f);
        visit := visit.(outdated := outdated);
        GrownCommands(old(log), checked, log, false);
        TrimsStay(trimmed, log, |old(log)|, keys, f.zremFail, cutoffTime);
        DeletedInBoth(checked, log, |old(log)|, f.delFail, cutoffTime);
        assert log[..visit.seriesAt] == listed[..visit.seriesAt] && log[..visit.latestAt] == checked[..visit.latestAt];
      }
      return true, visit;
    }

    /** The most recent tick of a symbol over all exchanges, by raw timestamp: the last record written for
        that symbol on one of them. */
    method GetLatestPrice(now: real, symbol: string, keysOk: bool, unreadable: set<string>)
      returns (r: Result<MarketData>)
      requires Valid()
      ensures r.Ok? && SymbolsColonFree(log) && ColonFree(symbol) ==>
        exists w: nat :: LastRecordOf(log, symbol, r.value.exchange, w) && log[w].data == r.value
      ensures r.Ok? ==> Candidate(db, now, symbol, unreadable, r.value)
      ensures r.Ok? ==> forall d :: Candidate(db, now, symbol, unreadable, d) ==> d.timestamp <= r.value.timestamp
      ensures r.Err? <==> (!keysOk || !exists d :: Candidate(db, now, symbol, unreadable, d))
    {
      if !keysOk {
        return Err("failed to get keys");
      }
      var live := LiveLatestKeys(db, now, LatestKey(symbol, ""));
      var keys := Enumerate(live);
      if |keys| == 0 {
        return Err("no price data found");
      }
      var latestData: Option<MarketData> := None;
      var latestTimestamp := 0;
      for i := 0 to |keys|
        invariant latestData.None? ==> latestTimestamp == 0
        invariant latestData.Some? ==>
          Candidate(db, now, symbol, unreadable, latestData.value) && latestData.value.timestamp == latestTimestamp > 0
        invariant forall j :: 0 <= j < i && keys[j] !in unreadable && Get(db, now, keys[j]).Some? ==>
          Get(db, now, keys[j]).value.timestamp <= latestTimestamp
      {
        assert keys[i] in keys;
        var found := if keys[i] in unreadable then None else Get(db, now, keys[i]);
        if found.Some? && found.value.timestamp > latestTimestamp {
          latestTimestamp := found.value.timestamp;
          latestData := found;
        }
      }
      forall d | Candidate(db, now, symbol, unreadable, d)
        ensures latestData.Some? && d.timestamp <= latestTimestamp
      {
        var k :| k in live - unreadable && Get(db, now, k) == Some(d) && d.timestamp > 0;
        assert k in keys;
      }
      r := if latestData.None? then Err("no valid price data found") else Ok(latestData.value);
      if r.Ok? && SymbolsColonFree(log) && ColonFree(symbol) {
        ghost var k :| k in live - unreadable && Get(db, now, k) == Some(r.value) && r.value.timestamp > 0;
        ghost var w := ListedIsLastRecord(log, now, symbol, k);
      }
    }

    /** The last record written for that symbol and exchange, while it is stored. */
    method GetLatestPriceByExchange(now: real, symbol: string, exchange: string, getOk: bool)
      returns (r: Result<MarketData>)
      requires Valid()
      ensures r.Ok? && SymbolsColonFree(log) && ColonFree(symbol) ==>
        exists w: nat :: LastRecordOf(log, symbol, exchange, w) && log[w].data == r.value
      ensures r.Ok? ==> Get(db, now, LatestKey(symbol, exchange)) == Some(r.value)
      ensures r.Err? <==> (!getOk || Get(db, now, LatestKey(symbol, exchange)).None?)
    {
      var found := if getOk then Get(db, now, LatestKey(symbol, exchange)) else None;
      r := if found.None? then Err("no price data found") else Ok(found.value);
      if r.Ok? && SymbolsColonFree(log) && ColonFree(symbol) {
        ghost var w := ReadIsLastRecord(log, now, symbol, exchange);
      }
    }

    /** One exchange: the prices scored in the whole seconds from..to. */
    method GetPricesInRangeByExchange(now: real, symbol: string, exchange: string, from: real, to: real, f: ReadFaults)
      returns (r: Result<seq<MarketData>>, ghost reply: seq<Member>)
      ensures r.Err? <==>
        (!f.existsOk
         || (HasSeries(db, now, TimeSeriesKey(symbol, exchange)) && TimeSeriesKey(symbol, exchange) in f.rangeFail))
      ensures r.Ok? ==>
        var key := TimeSeriesKey(symbol, exchange);
        && IsReply(Scores(db, now, key), from.Floor as real, to.Floor as real, reply)
        && r.value == Entries(symbol, exchange, Scores(db, now, key), reply, f.Lost(key))
    {
      var key := TimeSeriesKey(symbol, exchange);
      reply := [];
      if !f.existsOk {
        return Err("failed to check key existence"), [];
      }
      if !HasSeries(db, now, key) {
        return Ok([]), [];
      }
      if key in f.rangeFail {
        return Err("failed to get prices in range"), [];
      }
      var scores := Scores(db, now, key);
      var results := ZRangeByScore(scores, from.Floor as real, to.Floor as real);
      var data := [];
      for i := 0 to |results|
        invariant data == Entries(symbol, exchange, scores, results[..i], f.Lost(key))
      {
        assert results[..i + 1][..i] == results[..i];
        if results[i] !in f.Lost(key) {
          data := data + [Entry(symbol, exchange, results[i], scores[results[i]])];
        }
      }
      assert results[..|results|] == results;
      return Ok(data), results;
    }

    /** All exchanges: the contributions of every series key of the symbol, one after the other. */
    method GetPricesInRange(now: real, symbol: string, from: real, to: real, f: ReadFaults)
      returns (r: Result<seq<MarketData>>, ghost keys: seq<string>, ghost replies: map<string, seq<Member>>)
      ensures r.Err? <==> !f.keysOk
      ensures r.Ok? ==>
        && Enumerates(keys, LiveSeriesKeys(db, now, TimeSeriesKey(symbol, "")))
        && (forall k :: k in keys && |Split(k)| >= 3 && k !in f.rangeFail ==> k in replies)
        && AreReplies(db, now, from.Floor, to.Floor, replies)
        && r.value == AllParts(db, now, symbol, keys, replies, from.Floor, to.Floor, f)
    {
      keys, replies := [], map[];
      if !f.keysOk {
        return Err("failed to get timeseries keys"), [], map[];
      }
      var found := Enumerate(LiveSeriesKeys(db, now, TimeSeriesKey(symbol, "")));
      var allData := [];
      for i := 0 to |found|
        invariant AreReplies(db, now, from.Floor, to.Floor, replies)
        invariant forall k :: k in found[..i] && |Split(k)| >= 3 && k !in f.rangeFail ==> k in replies
        invariant forall k :: k in replies ==> k in found[..i]
        invariant allData == AllParts(db, now, symbol, found[..i], replies, from.Floor, to.Floor, f)
      {
        var key := found[i];
        assert found[..i + 1][..i] == found[..i] && found[..i + 1][i] == key;
        assert key !in found[..i];
        var parts := ParseTimeSeriesKey(key);
        if |parts| >= 3 && key !in f.rangeFail {
          var scores := Scores(db, now, key);
          var results := ZRangeByScore(scores, from.Floor as real, to.Floor as real);
          PartsIgnoreNewReply(db, now, symbol, found[..i], replies, key, results, from.Floor, to.Floor, f);
          replies := replies[key := results];
          allData := allData
            + KeyEntries(symbol, parts[2], scores, results, from.Floor as real, to.Floor as real, f.Lost(key));
        }
      }
      assert found[..|found|] == found;
      return Ok(allData), found, replies;
    }
  }

  // ---------------------------------------------------------------- steps of storing a tick

  /** The stretch from before to log holds at most one command of the consumer, c, its last, if sent. */
  ghost predicate SendsOne(before: seq<Command>, log: seq<Command>, c: Command, sent: bool) {
    && before <= log
    && (forall g :: |before| <= g < |log| ==> !Writes(log[g]) || (sent && g == |log| - 1 && log[g] == c))
    && (sent ==> |before| < |log| && log[|log| - 1] == c)
  }

  lemma AfterSending(before: seq<Command>, log: seq<Command>, c: Command, sent: bool, key: string)
    requires SendsOne(before, log, c, sent) && Writes(c)
    ensures Ticks(log, key) == Ticks(before, key) + if sent && Stores(c, key) then [c.data] else []
    ensures LastWrite(log, key) == if sent && Stamps(c, key) then Some(|log| - 1) else LastWrite(before, key)
  {
    hide LastWrite, Ticks, Stores, Stamps;
    OneWrite(before, log, c, key);
  }

  lemma AfterSet(before: seq<Command>, log: seq<Command>, t: real, data: MarketData, sent: bool)
    requires SendsOne(before, log, SetLatest(t, data), sent)
    ensures Stored(before, log, t, data, sent, false)
  {
    hide LatestKeyOf, SeriesKeyOf, LastWrite, Ticks, SendsOne;
    forall key
      ensures Ticks(log, key) == Ticks(before, key) + []
      ensures LastWrite(log, key) ==
        if sent && key == LatestKeyOf(data) then Some(|log| - 1) else LastWrite(before, key)
    {
      AfterSending(before, log, SetLatest(t, data), sent, key);
    }
    SendsLast(before, log, SetLatest(t, data), sent);
  }

  lemma SendsLast(before: seq<Command>, log: seq<Command>, c: Command, sent: bool)
    requires SendsOne(before, log, c, sent)
    ensures before <= log && (sent ==> |before| < |log| && log[|log| - 1] == c)
  {
  }

  lemma AfterAdd(start: seq<Command>, before: seq<Command>, log: seq<Command>, t: real, u: real, data: MarketData,
                 sent: bool)
    requires Stored(start, before, t, data, true, false) && SendsOne(before, log, AddTick(u, data), sent)
    ensures Stored(start, log, t, data, true, sent)
  {
    hide LatestKeyOf, SeriesKeyOf, LastWrite, Ticks, SendsOne;
    forall key
      ensures Ticks(log, key) == Ticks(start, key) + if sent && key == SeriesKeyOf(data) then [data] else []
      ensures LastWrite(log, key) == LastWrite(before, key)
    {
      AfterSending(before, log, AddTick(u, data), sent, key);
      assert Ticks(start, key) + [] == Ticks(start, key);
    }
    SendsLast(before, log, AddTick(u, data), sent);
  }

  lemma AfterRenewal(start: seq<Command>, stamped: seq<Command>, added: seq<Command>, log: seq<Command>, t: real,
                     u: real, v: real, data: MarketData, sent: bool)
    requires start <= stamped && Stored(start, added, t, data, true, true)
    requires SendsOne(stamped, added, AddTick(u, data), true)
    requires SendsOne(added, log, RenewSeries(v, SeriesKeyOf(data)), sent)
    ensures Stored(start, log, t, data, true, true)
    ensures sent ==> AddedThenRenewed(log, |start|, u, v, data)
  {
    hide LatestKeyOf, SeriesKeyOf, LastWrite, Ticks, SendsOne;
    forall key
      ensures LastWrite(log, key) == LastWrite(added, key) && Ticks(log, key) == Ticks(added, key)
    {
      AfterSending(added, log, RenewSeries(v, SeriesKeyOf(data)), sent, key);
      assert Ticks(added, key) + [] == Ticks(added, key);
    }
    SendsLast(stamped, added, AddTick(u, data), true);
    SendsLast(added, log, RenewSeries(v, SeriesKeyOf(data)), sent);
    assert log[|added| - 1] == added[|added| - 1];
  }

  /** A tick stored without interruption is read with its score, under a key renewed. */
  lemma TickReadable(log: seq<Command>, t: real, u: real, v: real, data: MarketData)
    ensures
      var key := SeriesKeyOf(data);
      var db := Replay(log + [SetLatest(t, data)] + [AddTick(u, data)] + [RenewSeries(v, key)]);
      (HasSeries(Replay(log), u, key) ==> HasSeries(Replay(log), v, key)) ==>
        && key in db.series && db.series[key].expiry == Some(v + RETENTION)
        && Scores(db, v, key) == Scores(Replay(log), u, key)[FormatPrice(data.price) := Score(data)]
  {
    hide FormatPrice, Score, SeriesKeyOf, LatestKeyOf;
    var stamped := log + [SetLatest(t, data)];
    OneMore(log, SetLatest(t, data));
    OneMore(stamped, AddTick(u, data));
    OneMore(stamped + [AddTick(u, data)], RenewSeries(v, SeriesKeyOf(data)));
  }

  // ---------------------------------------------------------------- steps of the loops

  lemma ReadsGrow(before: seq<Command>, log: seq<Command>, start: nat, keys: seq<string>, i: nat, fail: set<string>)
    requires start <= |before| && before <= log && i < |keys|
    requires forall j :: 0 <= j < i && keys[j] !in fail ==> ReadSince(before, start, keys[j])
    requires keys[i] !in fail ==> ReadSince(log, |before|, keys[i])
    ensures forall j :: 0 <= j <= i && keys[j] !in fail ==> ReadSince(log, start, keys[j])
  {
    forall j | 0 <= j < i && keys[j] !in fail
      ensures ReadSince(log, start, keys[j])
    {
      var g :| start <= g < |before| && before[g].ReadLatest? && before[g].key == keys[j];
      assert log[g] == before[g];
    }
  }

  lemma TrimsGrow(before: seq<Command>, log: seq<Command>, start: nat, keys: seq<string>, i: nat, now: real,
                  fail: set<string>, cutoff: real)
    requires start <= |before| && before <= log && i < |keys|
    requires forall j :: 0 <= j < i && keys[j] !in fail ==> TrimmedSince(before, start, keys[j], cutoff)
    requires keys[i] !in fail ==>
      |before| < |log| && log[|log| - 1] == TrimSeries(now, keys[i], cutoff.Floor as real)
    ensures forall j :: 0 <= j <= i && keys[j] !in fail ==> TrimmedSince(log, start, keys[j], cutoff)
  {
    hide Replay, TrimsAt;
    forall j | 0 <= j <= i && keys[j] !in fail
      ensures TrimmedSince(log, start, keys[j], cutoff)
    {
      if j < i {
        TrimStays(before, log, start, keys[j], cutoff);
      } else {
        TrimTakesEffect(log, now, keys[i], cutoff);
      }
    }
  }

  lemma TrimsStay(before: seq<Command>, log: seq<Command>, start: nat, keys: seq<string>, fail: set<string>,
                  cutoff: real)
    requires before <= log && forall k :: k in keys && k !in fail ==> TrimmedSince(before, start, k, cutoff)
    ensures forall k :: k in keys && k !in fail ==> TrimmedSince(log, start, k, cutoff)
  {
    forall k | k in keys && k !in fail
      ensures TrimmedSince(log, start, k, cutoff)
    {
      TrimStays(before, log, start, k, cutoff);
    }
  }

  lemma TrimmedEarlier(log: seq<Command>, start: nat, earlier: nat, keys: seq<string>, fail: set<string>, cutoff: real)
    requires earlier <= start && forall k :: k in keys && k !in fail ==> TrimmedSince(log, start, k, cutoff)
    ensures forall k :: k in keys && k !in fail ==> TrimmedSince(log, earlier, k, cutoff)
  {
    hide TrimsAt;
  }

  /** Whether keys not listed count as outdated makes no difference to the commands. */
  lemma {:induction false} RecordsIgnoreOthers(keys: seq<string>, f: CleanupFaults, a: set<string>, b: set<string>,
                                               turns: nat -> Turn, first: nat)
    requires forall k :: k in keys ==> (k in a <==> k in b)
    ensures RecordCommands(keys, f, a, turns, first) == RecordCommands(keys, f, b, turns, first)
  {
    if keys != [] {
      RecordsIgnoreOthers(keys[..|keys| - 1], f, a, b, turns, first);
    }
  }

  lemma NothingYet(log: seq<Command>, cutoff: real)
    ensures CommandsOf(log[|log|..], true) == CommandsOf(log[|log|..], false) == []
    ensures OutdatedAsRead(log, |log|, {}, cutoff)
    ensures forall fail :: OutdatedDeleted(log, |log|, fail, cutoff)
  {
  }

  lemma NoRecordCommands(f: CleanupFaults, outdated: set<string>, turns: nat -> Turn, first: nat)
    ensures RecordCommands([], f, outdated, turns, first) == []
  {
  }

  lemma SameForKey(key: string, f: CleanupFaults, outdated: set<string>, tooOld: bool, turns: nat -> Turn, turn: nat)
    requires key !in outdated
    ensures RecordCommandsFor(key, f, if tooOld then outdated + {key} else outdated, turns, turn)
         == RecordCommandsFor(key, f, if tooOld then {key} else {}, turns, turn)
  {
  }

  lemma OneMoreRecord(keys: seq<string>, i: nat, f: CleanupFaults, outdated: set<string>, tooOld: bool,
                      turns: nat -> Turn, first: nat)
    requires i < |keys| && keys[i] !in keys[..i] && forall k :: k in outdated ==> k in keys[..i]
    ensures RecordCommands(keys[..i + 1], f, if tooOld then outdated + {keys[i]} else outdated, turns, first)
         == RecordCommands(keys[..i], f, outdated, turns, first)
            + RecordCommandsFor(keys[i], f, if tooOld then {keys[i]} else {}, turns, first + 2 * i)
  {
    assert keys[..i + 1][..i] == keys[..i];
    assert keys[..i + 1][i] == keys[i];
    hide RecordCommandsFor;
    SameForKey(keys[i], f, outdated, tooOld, turns, first + 2 * i);
    RecordsIgnoreOthers(keys[..i], f, outdated, if tooOld then outdated + {keys[i]} else outdated, turns, first);
  }

  lemma OutdatedGrows(before: seq<Command>, log: seq<Command>, start: nat, key: string, a: set<string>,
                      b: set<string>, cutoff: real)
    requires start <= |before| && before <= log && OutdatedAsRead(before, start, a, cutoff)
    requires key !in a && (b == a || b == a + {key})
    requires forall g :: start <= g < |before| && before[g].ReadLatest? ==> before[g].key != key
    requires forall g :: |before| <= g < |log| && log[g].ReadLatest? ==>
               log[g].key == key && (key in b <==> Outdated(Get(Replay(log[..g]), log[g].now, key), cutoff))
    ensures OutdatedAsRead(log, start, b, cutoff)
  {
    hide Replay, Outdated;
    forall g | start <= g < |log| && log[g].ReadLatest?
      ensures log[g].key in b <==> Outdated(Get(Replay(log[..g]), log[g].now, log[g].key), cutoff)
    {
      if g < |before| {
        assert log[..g] == before[..g] && log[g] == before[g];
      }
    }
  }

  /** A reply for a key not listed yet changes nothing listed so far. */
  lemma {:induction false} PartsIgnoreNewReply(db: Db, now: real, symbol: string, keys: seq<string>,
                                               replies: map<string, seq<Member>>, key: string, reply: seq<Member>,
                                               from: int, to: int, f: ReadFaults)
    requires AreReplies(db, now, from, to, replies) && AreReplies(db, now, from, to, replies[key := reply])
    requires key !in keys
    ensures AllParts(db, now, symbol, keys, replies[key := reply], from, to, f) ==
      AllParts(db, now, symbol, keys, replies, from, to, f)
  {
    if keys != [] {
      PartsIgnoreNewReply(db, now, symbol, keys[..|keys| - 1], replies, key, reply, from, to, f);
    }
  }
}
