/** The evicting, deduplicating cache against the log of ticks stored in it, over every interleaving of
    the consumer's and the cleanup routine's store commands. */
module CacheRefinement {
  import opened Market
  import opened Store
  import opened CacheLog

  // ---------------------------------------------------------------- the log and the ideal index

  /** An index that never evicts: every price text with the last score written for it. */
  function Ideal(ticks: seq<MarketData>): map<Member, real> {
    if ticks == [] then map[]
    else
      var t := ticks[|ticks| - 1];
      Ideal(ticks[..|ticks| - 1])[FormatPrice(t.price) := Score(t)]
  }

  lemma TicksAppend(log: seq<Command>, c: Command, key: string)
    ensures Ticks(log + [c], key) == Ticks(log, key) + if Stores(c, key) then [c.data] else []
    ensures Ideal(Ticks(log + [c], key)) ==
            if Stores(c, key) then Ideal(Ticks(log, key))[FormatPrice(c.data.price) := Score(c.data)]
            else Ideal(Ticks(log, key))
  {
    assert (log + [c])[..|log|] == log;
    if Stores(c, key) {
      assert (Ticks(log, key) + [c.data])[..|Ticks(log, key)|] == Ticks(log, key);
    } else {
      assert Ticks(log, key) + [] == Ticks(log, key);
    }
  }

  /** Later ticks override the scores of earlier ones. */
  lemma {:induction false} IdealConcat(a: seq<MarketData>, b: seq<MarketData>)
    ensures Ideal(a + b) == Ideal(a) + Ideal(b)
  {
    hide FormatPrice, Score;
    if b == [] {
      assert a + b == a && Ideal(a) + map[] == Ideal(a);
    } else {
      IdealConcat(a, b[..|b| - 1]);
      assert (a + b)[..|a + b| - 1] == a + b[..|b| - 1];
    }
  }

  /** A text logged in the end part of a log has its last score there. */
  lemma IdealOfSuffix(log: seq<Command>, k: nat, key: string)
    requires k <= |log|
    ensures Ideal(Ticks(log, key)) == Ideal(Ticks(log[..k], key)) + Ideal(Ticks(log[k..], key))
  {
    assert log == log[..k] + log[k..];
    TicksConcat(log[..k], log[k..], key);
    IdealConcat(Ticks(log[..k], key), Ticks(log[k..], key));
  }

  // ---------------------------------------------------------------- runs

  /** An interleaving of the two programs whose commands happen in time order, none after now, and whose
      cleanups remove what is at least the retention old when they start. */
  ghost predicate Timely(log: seq<Command>, now: real) {
    log != [] ==>
      var before, c := log[..|log| - 1], log[|log| - 1];
      && Allowed(before, c) && c.now <= now && Timely(before, c.now)
      && (c.ListSeries? ==> c.cutoff <= c.now - RETENTION)
  }

  lemma {:induction false} TimelyRuns(log: seq<Command>, now: real)
    requires Timely(log, now)
    ensures Run(log)
  {
    if log != [] {
      TimelyRuns(log[..|log| - 1], log[|log| - 1].now);
    }
  }

  lemma {:induction false} TimelyPrefix(log: seq<Command>, now: real, k: nat)
    requires Timely(log, now) && k < |log|
    ensures Timely(log[..k], log[k].now) && log[k].now <= now
  {
    if k < |log| - 1 {
      TimelyPrefix(log[..|log| - 1], log[|log| - 1].now, k);
      assert log[..|log| - 1][..k] == log[..k];
    }
  }

  lemma InTimeOrder(log: seq<Command>, now: real, i: nat, j: nat)
    requires Timely(log, now) && i <= j < |log|
    ensures log[i].now <= log[j].now <= now
  {
    TimelyPrefix(log, now, j);
    if i < j {
      TimelyPrefix(log[..j], log[j].now, i);
    }
  }

  /** However late a trim or a deletion comes, its cutoff is the one computed when the cleanup began. */
  lemma {:induction false} CutoffIsOld(log: seq<Command>, now: real)
    requires Timely(log, now) && !CleanerAfter(log).Resting?
    ensures CleanerAfter(log).cutoff <= now - RETENTION
  {
    hide LiveSeriesKeys, LiveLatestKeys, Replay, Outdated;
    var before, c := log[..|log| - 1], log[|log| - 1];
    if !CleanerAfter(before).Resting? {
      CutoffIsOld(before, c.now);
    }
  }

  // ---------------------------------------------------------------- expiry

  predicate Expired(db: Db, now: real, key: string) {
    key in db.series && !Live(db.series[key], now)
  }

  /** How far into the log the key's last expiry up to now reaches: what was stored before that is lost. */
  function ExpiredUpTo(log: seq<Command>, now: real, key: string): (k: nat)
    ensures k <= |log|
  {
    if Expired(Replay(log), now, key) then |log|
    else if log == [] then 0
    else ExpiredUpTo(log[..|log| - 1], log[|log| - 1].now, key)
  }

  /** The ticks logged since the key last expired. */
  function Standing(log: seq<Command>, now: real, key: string): seq<MarketData> {
    Ticks(log[ExpiredUpTo(log, now, key)..], key)
  }

  // ---------------------------------------------------------------- the simulation

  /** What a reader sees has its ideal score; what is gone is at least the retention old. */
  ghost predicate Simulates(seen: map<Member, real>, ideal: map<Member, real>, now: real) {
    && (forall m :: m in seen ==> m in ideal && ideal[m] == seen[m])
    && (forall m :: m in ideal && m !in seen ==> ideal[m] <= now - RETENTION)
  }

  /** The store simulates the ideal index of the ticks logged since the key last expired. */
  ghost predicate KeyInvariant(log: seq<Command>, now: real, key: string) {
    Simulates(Scores(Replay(log), now, key), Ideal(Standing(log, now, key)), now)
  }

  lemma NothingStanding(log: seq<Command>, now: real, key: string)
    requires Expired(Replay(log), now, key)
    ensures Standing(log, now, key) == [] && KeyInvariant(log, now, key)
  {
    assert log[|log|..] == [];
  }

  lemma TimePasses(log: seq<Command>, t: real, now: real, key: string)
    requires t <= now && KeyInvariant(log, t, key) && (log != [] ==> log[|log| - 1].now == t)
    ensures KeyInvariant(log, now, key)
  {
    if Expired(Replay(log), now, key) {
      NothingStanding(log, now, key);
    }
  }

  /** What a command does to the ticks standing: it adds the one it stores. */
  lemma StandingGrows(log: seq<Command>, c: Command, key: string)
    requires !Expired(Replay(log + [c]), c.now, key)
    ensures Standing(log + [c], c.now, key) == Standing(log, c.now, key) + if Stores(c, key) then [c.data] else []
  {
    OneMore(log, c);
    var k := ExpiredUpTo(log, c.now, key);
    assert ExpiredUpTo(log + [c], c.now, key) == k;
    assert (log + [c])[k..] == log[k..] + [c];
    TicksAppend(log[k..], c, key);
  }

  /** What a command does to the scores a reader sees. */
  lemma ScoresAfter(db: Db, c: Command, key: string)
    ensures Stores(c, key) ==>
      Scores(Apply(db, c), c.now, key) == Scores(db, c.now, key)[FormatPrice(c.data.price) := Score(c.data)]
    ensures c.TrimSeries? && c.key == key ==>
      Scores(Apply(db, c), c.now, key) == Scores(db, c.now, key) - Window(Scores(db, c.now, key), 0.0, c.upTo).Keys
    ensures !Stores(c, key) && !(c.TrimSeries? && c.key == key) ==>
      Scores(Apply(db, c), c.now, key) == Scores(db, c.now, key)
  {
    hide FormatPrice, Score, SeriesKeyOf, LatestKeyOf;
  }

  lemma StoringSimulates(seen: map<Member, real>, ideal: map<Member, real>, now: real, m: Member, score: real)
    requires Simulates(seen, ideal, now)
    ensures Simulates(seen[m := score], ideal[m := score], now)
  {
  }

  lemma TrimmingSimulates(seen: map<Member, real>, ideal: map<Member, real>, now: real, upTo: real)
    requires Simulates(seen, ideal, now) && upTo <= now - RETENTION
    ensures Simulates(seen - Window(seen, 0.0, upTo).Keys, ideal, now)
  {
  }

  lemma CommandKeepsInvariant(log: seq<Command>, c: Command, key: string)
    requires KeyInvariant(log, c.now, key)
    requires c.TrimSeries? ==> c.upTo <= c.now - RETENTION
    ensures KeyInvariant(log + [c], c.now, key)
  {
    OneMore(log, c);
    if Expired(Replay(log + [c]), c.now, key) {
      NothingStanding(log + [c], c.now, key);
    } else {
      StandingGrows(log, c, key);
      ScoresAfter(Replay(log), c, key);
      var seen, standing := Scores(Replay(log), c.now, key), Standing(log, c.now, key);
      hide FormatPrice, Score, Replay, Apply, Scores, Standing, Simulates, Window;
      if Stores(c, key) {
        assert (standing + [c.data])[..|standing|] == standing;
        StoringSimulates(seen, Ideal(standing), c.now, FormatPrice(c.data.price), Score(c.data));
      } else {
        assert standing + [] == standing;
        if c.TrimSeries? && c.key == key {
          TrimmingSimulates(seen, Ideal(standing), c.now, c.upTo);
        }
      }
    }
  }

  lemma {:induction false} RunInvariant(log: seq<Command>, now: real, key: string)
    requires Timely(log, now)
    ensures KeyInvariant(log, now, key)
  {
    if log == [] {
      TimePasses(log, now, now, key);
    } else {
      var before, c := log[..|log| - 1], log[|log| - 1];
      RunInvariant(before, c.now, key);
      if c.TrimSeries? {
        CutoffIsOld(before, c.now);
      }
      assert log == before + [c];
      CommandKeepsInvariant(before, c, key);
      TimePasses(log, c.now, now, key);
    }
  }

  /** What is stored carries the last score written for its price, whatever failed and however the
      clock moved. */
  ghost predicate SoundIndex(db: Db, log: seq<Command>, key: string) {
    key in db.series ==>
      forall m :: m in db.series[key].scores ==>
        m in Ideal(Ticks(log, key)) && Ideal(Ticks(log, key))[m] == db.series[key].scores[m]
  }

  lemma SeriesAfter(db: Db, c: Command, key: string)
    requires key in Apply(db, c).series
    ensures Stores(c, key) ==>
      Apply(db, c).series[key].scores == Scores(db, c.now, key)[FormatPrice(c.data.price) := Score(c.data)]
    ensures !Stores(c, key) ==>
      && key in db.series
      && forall m :: m in Apply(db, c).series[key].scores ==>
           m in db.series[key].scores && Apply(db, c).series[key].scores[m] == db.series[key].scores[m]
  {
    hide FormatPrice, Score, SeriesKeyOf, LatestKeyOf;
  }

  lemma StepKeepsSound(db: Db, log: seq<Command>, c: Command, key: string)
    requires SoundIndex(db, log, key)
    ensures SoundIndex(Apply(db, c), log + [c], key)
  {
    hide FormatPrice, Score, SeriesKeyOf, LatestKeyOf, Apply;
    TicksAppend(log, c, key);
    if key in Apply(db, c).series {
      SeriesAfter(db, c, key);
    }
  }

  lemma {:induction false} AlwaysSound(log: seq<Command>, key: string)
    ensures SoundIndex(Replay(log), log, key)
  {
    if log != [] {
      var n := |log| - 1;
      AlwaysSound(log[..n], key);
      StepKeepsSound(Replay(log[..n]), log[..n], log[n], key);
      assert log == log[..n] + [log[n]];
    }
  }

  // ---------------------------------------------------------------- eviction

  /** What a query over the last period reads, and what it would read had nothing been evicted. */
  function Seen(log: seq<Command>, now: real, key: string, period: real): map<Member, real> {
    Window(Scores(Replay(log), now, key), (now - period).Floor as real, now.Floor as real)
  }

  function Unevicted(log: seq<Command>, now: real, key: string, period: real): map<Member, real> {
    Window(Ideal(Ticks(log, key)), (now - period).Floor as real, now.Floor as real)
  }

  /** The longest period for which nothing a cleanup removes can be missed. */
  const SAFE_PERIOD := 119.0

  /** Every text scored in the last 119 seconds was logged again since the key last expired. */
  ghost predicate NothingLost(log: seq<Command>, now: real, key: string) {
    forall m :: m in Unevicted(log, now, key, SAFE_PERIOD) ==> m in Ideal(Standing(log, now, key))
  }

  ghost predicate EvictionHidden(log: seq<Command>, now: real, key: string) {
    forall period: real :: period <= SAFE_PERIOD ==> Seen(log, now, key, period) == Unevicted(log, now, key, period)
  }

  lemma StandingIsLogged(log: seq<Command>, now: real, key: string)
    ensures forall m :: m in Ideal(Standing(log, now, key)) ==>
              m in Ideal(Ticks(log, key)) && Ideal(Ticks(log, key))[m] == Ideal(Standing(log, now, key))[m]
  {
    IdealOfSuffix(log, ExpiredUpTo(log, now, key), key);
  }

  /** Over every interleaving of writes, cleanups and expirations, with any failures: queries over at most
      119 seconds read what a store without eviction would return exactly when no text of that time was
      last stored before an expiry of its key. Trims, early or late, are never noticed. */
  lemma EvictionInvisibleExactly(log: seq<Command>, now: real, key: string)
    requires Timely(log, now)
    ensures EvictionHidden(log, now, key) <==> NothingLost(log, now, key)
  {
    RunInvariant(log, now, key);
    StandingIsLogged(log, now, key);
    var seen, standing, ideal := Scores(Replay(log), now, key), Ideal(Standing(log, now, key)), Ideal(Ticks(log, key));
    hide Ideal, Ticks, Standing, Scores, Replay, Window, Simulates;
    if EvictionHidden(log, now, key) {
      assert Seen(log, now, key, SAFE_PERIOD) == Unevicted(log, now, key, SAFE_PERIOD);
      SeenIsStanding(seen, standing, now, SAFE_PERIOD);
    }
    if NothingLost(log, now, key) {
      forall period: real | period <= SAFE_PERIOD
        ensures Seen(log, now, key, period) == Unevicted(log, now, key, period)
      {
        SameWindow(seen, standing, ideal, now, period);
      }
    }
  }

  lemma SeenIsStanding(seen: map<Member, real>, standing: map<Member, real>, now: real, period: real)
    requires Simulates(seen, standing, now)
    ensures forall m :: m in Window(seen, (now - period).Floor as real, now.Floor as real) ==> m in standing
  {
  }

  /** Scores younger than the retention are all seen, as long as they are standing. */
  lemma SameWindow(seen: map<Member, real>, standing: map<Member, real>, ideal: map<Member, real>, now: real,
                   period: real)
    requires Simulates(seen, standing, now) && period <= SAFE_PERIOD
    requires forall m :: m in standing ==> m in ideal && ideal[m] == standing[m]
    requires forall m :: m in Window(ideal, (now - SAFE_PERIOD).Floor as real, now.Floor as real) ==> m in standing
    ensures Window(seen, (now - period).Floor as real, now.Floor as real) ==
      Window(ideal, (now - period).Floor as real, now.Floor as real)
  {
    FloorsApart(now, period);
    SameBetween(seen, standing, ideal, now, (now - period).Floor as real, (now - SAFE_PERIOD).Floor as real,
                now.Floor as real);
  }

  lemma FloorsApart(now: real, period: real)
    requires period <= SAFE_PERIOD
    ensures (now - period).Floor >= (now - SAFE_PERIOD).Floor
    ensures (now - SAFE_PERIOD).Floor as real > now - RETENTION
  {
  }

  lemma SameBetween(seen: map<Member, real>, standing: map<Member, real>, ideal: map<Member, real>, now: real,
                    lo: real, least: real, hi: real)
    requires Simulates(seen, standing, now) && lo >= least > now - RETENTION
    requires forall m :: m in standing ==> m in ideal && ideal[m] == standing[m]
    requires forall m :: m in Window(ideal, least, hi) ==> m in standing
    ensures Window(seen, lo, hi) == Window(ideal, lo, hi)
  {
    forall m | m in Window(ideal, lo, hi)
      ensures m in seen && seen[m] == ideal[m]
    {
      assert m in Window(ideal, least, hi);
    }
  }

  // ---------------------------------------------------------------- renewals that come in time

  /** No tick is scored later than the moment it is stored. */
  ghost predicate NotFromFuture(log: seq<Command>) {
    forall i :: 0 <= i < |log| && log[i].AddTick? ==> Score(log[i].data) <= log[i].now
  }

  /** The renewal that follows the tick at position i reached the store before the key expired. */
  ghost predicate RenewedAfter(log: seq<Command>, key: string, i: nat) {
    exists r :: i < r < |log| && log[r].RenewSeries? && log[r].key == key && ExpiredUpTo(log[..r], log[r].now, key) <= i
  }

  /** Every tick was renewed before its key could expire, unless the key has not expired since. */
  ghost predicate RenewedInTime(log: seq<Command>, now: real, key: string) {
    forall i :: 0 <= i < |log| && Stores(log[i], key) ==> ExpiredUpTo(log, now, key) <= i || RenewedAfter(log, key, i)
  }

  lemma {:induction false} ExpiryBefore(log: seq<Command>, now: real, key: string, r: nat)
    requires r < |log| && ExpiredUpTo(log, now, key) <= r
    ensures ExpiredUpTo(log[..r], log[r].now, key) == ExpiredUpTo(log, now, key)
  {
    var n := |log| - 1;
    if r < n {
      ExpiryBefore(log[..n], log[n].now, key, r);
      assert log[..n][..r] == log[..r];
    }
  }

  /** The key's expiry, if it is set, is at or after the given time. */
  predicate DeadlineFrom(db: Db, key: string, deadline: real) {
    key in db.series && db.series[key].expiry.Some? ==> deadline <= db.series[key].expiry.value
  }

  /** A renewal's deadline is never moved forward again. */
  lemma {:induction false} DeadlineStays(log: seq<Command>, now: real, key: string, r: nat)
    requires Timely(log, now) && r < |log| && log[r] == RenewSeries(log[r].now, key)
    requires key in Replay(log[..r]).series && !Expired(Replay(log[..r]), log[r].now, key)
    ensures DeadlineFrom(Replay(log), key, log[r].now + RETENTION)
  {
    var n := |log| - 1;
    if r < n {
      assert log[..n][..r] == log[..r];
      DeadlineStays(log[..n], log[n].now, key, r);
      InTimeOrder(log, now, r, n);
      CommandKeepsDeadline(Replay(log[..n]), log[n], key, log[r].now + RETENTION);
    }
  }

  lemma CommandKeepsDeadline(db: Db, c: Command, key: string, deadline: real)
    requires DeadlineFrom(db, key, deadline) && deadline <= c.now + RETENTION
    ensures DeadlineFrom(Apply(db, c), key, deadline)
  {
    hide FormatPrice, Score, SeriesKeyOf, LatestKeyOf;
  }

  lemma {:induction false} ExpiryAfter(log: seq<Command>, now: real, key: string, r: nat)
    requires Timely(log, now) && r < |log| && log[r] == RenewSeries(log[r].now, key)
    requires key in Replay(log[..r]).series && !Expired(Replay(log[..r]), log[r].now, key)
    requires ExpiredUpTo(log, now, key) > r
    ensures log[r].now + RETENTION < now
  {
    DeadlineStays(log, now, key, r);
    if !Expired(Replay(log), now, key) {
      var n := |log| - 1;
      assert log[..n][..r] == log[..r];
      ExpiryAfter(log[..n], log[n].now, key, r);
    }
  }

  /** The last tick logged with a text, and its place in the log. */
  ghost predicate LastStored(log: seq<Command>, key: string, m: Member, i: nat) {
    && i < |log| && Stores(log[i], key) && FormatPrice(log[i].data.price) == m
    && forall j :: i < j < |log| && Stores(log[j], key) ==> FormatPrice(log[j].data.price) != m
  }

  lemma {:induction false} LastStoredOf(log: seq<Command>, key: string, m: Member) returns (i: nat)
    requires m in Ideal(Ticks(log, key))
    ensures LastStored(log, key, m, i)
  {
    hide FormatPrice, Score;
    var n := |log| - 1;
    TicksAppend(log[..n], log[n], key);
    assert log == log[..n] + [log[n]];
    if Stores(log[n], key) && FormatPrice(log[n].data.price) == m {
      i := n;
    } else {
      i := LastStoredOf(log[..n], key, m);
    }
  }

  lemma {:induction false} LastStoredScore(log: seq<Command>, key: string, m: Member, i: nat)
    requires LastStored(log, key, m, i)
    ensures m in Ideal(Ticks(log, key)) && Ideal(Ticks(log, key))[m] == Score(log[i].data)
  {
    hide FormatPrice, Score;
    var n := |log| - 1;
    TicksAppend(log[..n], log[n], key);
    assert log == log[..n] + [log[n]];
    if i < n {
      LastStoredScore(log[..n], key, m, i);
    }
  }

  /** A text last stored at or after position k is logged in the rest of the log from there. */
  lemma LastStoredSince(log: seq<Command>, key: string, m: Member, i: nat, k: nat)
    requires LastStored(log, key, m, i) && k <= i
    ensures m in Ideal(Ticks(log[k..], key)) && Ideal(Ticks(log[k..], key))[m] == Score(log[i].data)
  {
    LastStoredScore(log[k..], key, m, i - k);
  }

  /** A text lost to an expiry although it was renewed in time is at least the retention old. */
  lemma RenewedIsOld(log: seq<Command>, now: real, key: string, m: Member, i: nat, r: nat)
    requires Timely(log, now) && NotFromFuture(log)
    requires LastStored(log, key, m, i) && i < ExpiredUpTo(log, now, key)
    requires i < r < |log| && log[r] == RenewSeries(log[r].now, key) && ExpiredUpTo(log[..r], log[r].now, key) <= i
    ensures Score(log[i].data) <= now - RETENTION
  {
    var before, t := log[..r], log[r].now;
    TimelyPrefix(log, now, r);
    InTimeOrder(log, now, i, r);
    RunInvariant(before, t, key);
    assert LastStored(before, key, m, i);
    LastStoredSince(before, key, m, i, ExpiredUpTo(before, t, key));
    if m in Scores(Replay(before), t, key) {
      if ExpiredUpTo(log, now, key) <= r {
        ExpiryBefore(log, now, key, r);
      }
      ExpiryAfter(log, now, key, r);
    }
  }

  /** When every renewal comes in time, nothing younger than 119 seconds is lost. */
  lemma RenewalsLoseNothing(log: seq<Command>, now: real, key: string)
    requires Timely(log, now) && NotFromFuture(log) && RenewedInTime(log, now, key)
    ensures NothingLost(log, now, key)
  {
    hide Ideal, FormatPrice, Score, Replay;
    forall m | m in Unevicted(log, now, key, SAFE_PERIOD)
      ensures m in Ideal(Standing(log, now, key))
    {
      var i := LastStoredOf(log, key, m);
      LastStoredScore(log, key, m, i);
      var k := ExpiredUpTo(log, now, key);
      if k <= i {
        LastStoredSince(log, key, m, i, k);
      } else {
        var r :| i < r < |log| && log[r].RenewSeries? && log[r].key == key
          && ExpiredUpTo(log[..r], log[r].now, key) <= i;
        assert Score(log[i].data) >= (now - SAFE_PERIOD).Floor as real > now - RETENTION;
        RenewedIsOld(log, now, key, m, i, r);
      }
    }
  }

  /** So queries over at most 119 seconds read what a store without eviction would return. */
  lemma EvictionInvisible(log: seq<Command>, now: real, key: string, period: real)
    requires Timely(log, now) && NotFromFuture(log) && RenewedInTime(log, now, key)
    requires period <= SAFE_PERIOD
    ensures Seen(log, now, key, period) == Unevicted(log, now, key, period)
  {
    RenewalsLoseNothing(log, now, key);
    EvictionInvisibleExactly(log, now, key);
  }

  ghost predicate Invisible(period: real) {
    forall log: seq<Command>, now: real, key: string ::
      Timely(log, now) && NotFromFuture(log) && RenewedInTime(log, now, key) ==>
        Seen(log, now, key, period) == Unevicted(log, now, key, period)
  }

  /** ... and 119 seconds is the exact limit: any longer period can miss a tick that is inside it. */
  lemma EvictionInvisibleIff(period: real)
    ensures Invisible(period) <==> period <= SAFE_PERIOD
  {
    if period <= SAFE_PERIOD {
      forall log: seq<Command>, now: real, key: string |
        Timely(log, now) && NotFromFuture(log) && RenewedInTime(log, now, key)
        ensures Seen(log, now, key, period) == Unevicted(log, now, key, period)
      {
        EvictionInvisible(log, now, key, period);
      }
    } else {
      var d := MarketData("", 1.0, 1000, "");
      var key := SeriesKeyOf(d);
      var log := EvictedTick(d);
      var m := FormatPrice(1.0);
      assert m in Unevicted(log, 1120.0, key, period) && m !in Seen(log, 1120.0, key, period);
    }
  }

  lemma SeriesKeyHasPrefix(d: MarketData)
    ensures StartsWith(SeriesKeyOf(d), SERIES_PREFIX)
  {
    assert SeriesKeyOf(d) == SERIES_PREFIX + (d.symbol + ":" + d.exchange);
  }

  // ---------------------------------------------------------------- runs with one or two ticks

  /** One more command of a timely log. */
  lemma Extend(log: seq<Command>, t: real, c: Command)
    requires Timely(log, t) && t <= c.now && Allowed(log, c) && (c.ListSeries? ==> c.cutoff <= c.now - RETENTION)
    ensures Timely(log + [c], c.now) && Replay(log + [c]) == Apply(Replay(log), c)
    ensures WriterAfter(log + [c]) == WriterNext(WriterAfter(log), c)
    ensures CleanerAfter(log + [c]) == CleanerNext(Replay(log), CleanerAfter(log), c)
    ensures forall key, now :: !Expired(Replay(log + [c]), now, key) ==>
      ExpiredUpTo(log + [c], now, key) == ExpiredUpTo(log, c.now, key)
  {
    OneMore(log, c);
    TimelyLater(log, t, c.now);
  }

  lemma TimelyLater(log: seq<Command>, t: real, now: real)
    requires Timely(log, t) && t <= now
    ensures Timely(log, now)
  {
  }

  /** Storing d at time t on an idle service, up to its ZADD. */
  lemma Adding(log: seq<Command>, last: real, t: real, d: MarketData) returns (longer: seq<Command>)
    requires Timely(log, last) && last <= t && NotFromFuture(log) && Score(d) <= t
    ensures longer == log + [SetLatest(t, d), AddTick(t, d)] && Timely(longer, t) && NotFromFuture(longer)
    ensures WriterAfter(longer) == TickAdded(d) && CleanerAfter(longer) == CleanerAfter(log)
    ensures Replay(longer) ==
      ZAdd(Set(Replay(log), t, LatestKeyOf(d), d, RETENTION), t, SeriesKeyOf(d), Score(d), FormatPrice(d.price))
    ensures Ticks(longer, SeriesKeyOf(d)) == Ticks(log, SeriesKeyOf(d)) + [d]
    ensures !Expired(Replay(log), t, SeriesKeyOf(d)) ==>
      ExpiredUpTo(longer, t, SeriesKeyOf(d)) == ExpiredUpTo(log, t, SeriesKeyOf(d))
  {
    hide FormatPrice, Score, SeriesKeyOf, LatestKeyOf, Replay, Run, Ticks, Ideal;
    var stamped := log + [SetLatest(t, d)];
    Extend(log, last, SetLatest(t, d));
    OthersLeave(log, SetLatest(t, d));
    Extend(stamped, t, AddTick(t, d));
    OthersLeave(stamped, AddTick(t, d));
    longer := stamped + [AddTick(t, d)];
    TicksAppend(log, SetLatest(t, d), SeriesKeyOf(d));
    TicksAppend(stamped, AddTick(t, d), SeriesKeyOf(d));
    assert longer == log + [SetLatest(t, d), AddTick(t, d)];
  }

  lemma OneTick(t: real, d: MarketData) returns (log: seq<Command>)
    requires Score(d) <= t
    ensures |log| == 3 && Timely(log, t) && NotFromFuture(log) && CleanerAfter(log).Resting?
    ensures log[2] == RenewSeries(t, SeriesKeyOf(d))
    ensures Replay(log).series ==
      map[SeriesKeyOf(d) := Series(map[FormatPrice(d.price) := Score(d)], Some(t + RETENTION))]
    ensures Ticks(log, SeriesKeyOf(d)) == [d]
    ensures forall now :: now <= t + RETENTION ==> ExpiredUpTo(log, now, SeriesKeyOf(d)) == 0
  {
    hide FormatPrice, Score, SeriesKeyOf, LatestKeyOf;
    var key := SeriesKeyOf(d);
    var added := Adding([], t, t, d);
    Extend(added, t, RenewSeries(t, key));
    log := added + [RenewSeries(t, key)];
    TicksAppend(added, RenewSeries(t, key), key);
    OthersLeave(added, RenewSeries(t, key));
    forall now | now <= t + RETENTION
      ensures ExpiredUpTo(log, now, key) == 0
    {
      assert !Expired(Replay(log), now, key);
      assert ExpiredUpTo(log, now, key) == ExpiredUpTo(added, t, key);
    }
  }

  /** One tick of second 1000, then the cleanup of second 1120. */
  lemma EvictedTick(d: MarketData) returns (log: seq<Command>)
    requires d.timestamp == 1000
    ensures Timely(log, 1120.0) && NotFromFuture(log) && RenewedInTime(log, 1120.0, SeriesKeyOf(d))
    ensures Scores(Replay(log), 1120.0, SeriesKeyOf(d)) == map[]
    ensures Ideal(Ticks(log, SeriesKeyOf(d))) == map[FormatPrice(d.price) := 1000.0]
  {
    var key := SeriesKeyOf(d);
    var stored := OneTick(1000.0, d);
    assert Score(d) == 1000.0;
    SeriesKeyHasPrefix(d);
    hide FormatPrice, Score, SeriesKeyOf, LatestKeyOf;
    var list, trim := ListSeries(1120.0, 1000.0), TrimSeries(1120.0, key, 1000.0);
    Extend(stored, 1000.0, list);
    var listed := stored + [list];
    assert key in CleanerAfter(listed).todo;
    Extend(listed, 1120.0, trim);
    log := listed + [trim];
    TicksAppend(stored, list, key);
    TicksAppend(listed, trim, key);
    assert [d][..0] == [];
    assert Replay(log).series == map[];
    assert ExpiredUpTo(log, 1120.0, key) == 0;
  }

  lemma TwoTicks(d: MarketData, t: real) returns (log: seq<Command>)
    requires 1002.0 <= Score(d) <= t <= 1120.0
    ensures |log| == 5 && Timely(log, t) && NotFromFuture(log) && log[4] == AddTick(t, d)
    ensures WriterAfter(log) == TickAdded(d)
    ensures SeriesKeyOf(d) in Replay(log).series && Replay(log).series[SeriesKeyOf(d)].expiry == Some(1120.0)
    ensures FormatPrice(d.price) in Ideal(Ticks(log, SeriesKeyOf(d)))
    ensures Ideal(Ticks(log, SeriesKeyOf(d)))[FormatPrice(d.price)] == Score(d)
  {
    var first := d.(timestamp := 1000);
    assert Score(first) == 1000.0 && SeriesKeyOf(first) == SeriesKeyOf(d);
    var stored := OneTick(1000.0, first);
    hide FormatPrice, Score, SeriesKeyOf, LatestKeyOf;
    log := Adding(stored, 1000.0, t, d);
    assert ([first] + [d])[..1] == [first];
  }

  /** A second tick, fresh and stored while the first one's deadline of 1120 still stands. Unless its own
      renewal comes before that deadline, the key expires and takes it along: when the renewal fails, and
      also when every command succeeds but the renewal arrives too late. */
  lemma LateRenewalHidesFreshTick(d: MarketData, t: real, succeeds: bool) returns (log: seq<Command>)
    requires 1002.0 <= Score(d) <= t <= 1120.0
    ensures Timely(log, 1121.0) && NotFromFuture(log)
    ensures succeeds ==> |log| > 2 && log[|log| - 2..] == [AddTick(t, d), RenewSeries(1120.5, SeriesKeyOf(d))]
    ensures Seen(log, 1121.0, SeriesKeyOf(d), SAFE_PERIOD) == map[]
    ensures FormatPrice(d.price) in Unevicted(log, 1121.0, SeriesKeyOf(d), SAFE_PERIOD)
  {
    var key := SeriesKeyOf(d);
    log := TwoTicks(d, t);
    hide FormatPrice, Score, SeriesKeyOf, LatestKeyOf, ZAdd;
    var added := log;
    if succeeds {
      Extend(added, t, RenewSeries(1120.5, key));
      TicksAppend(added, RenewSeries(1120.5, key), key);
      log := added + [RenewSeries(1120.5, key)];
    }
    TimelyLater(log, log[|log| - 1].now, 1121.0);
    assert Expired(Replay(log), 1121.0, key);
  }

  // ---------------------------------------------------------------- deduplication

  /** The price texts logged with a score in [lo, hi]. */
  ghost predicate LoggedIn(ticks: seq<MarketData>, lo: real, hi: real, m: Member) {
    exists i :: 0 <= i < |ticks| && FormatPrice(ticks[i].price) == m && lo <= Score(ticks[i]) <= hi
  }

  /** Every indexed text is a logged tick carrying the last score written for that price. */
  lemma {:induction false} IndexIsLastTick(ticks: seq<MarketData>, m: Member)
    requires m in Ideal(ticks)
    ensures exists i ::
      && 0 <= i < |ticks| && FormatPrice(ticks[i].price) == m && Score(ticks[i]) == Ideal(ticks)[m]
      && forall j :: i < j < |ticks| ==> FormatPrice(ticks[j].price) != m
  {
    hide FormatPrice, Score;
    var n := |ticks| - 1;
    if FormatPrice(ticks[n].price) == m {
      assert Score(ticks[n]) == Ideal(ticks)[m];
    } else {
      IndexIsLastTick(ticks[..n], m);
      var i :| && 0 <= i < n && FormatPrice(ticks[..n][i].price) == m && Score(ticks[..n][i]) == Ideal(ticks[..n])[m]
               && forall j :: i < j < n ==> FormatPrice(ticks[..n][j].price) != m;
      assert ticks[i] == ticks[..n][i];
      assert forall j :: i < j < n ==> ticks[j] == ticks[..n][j];
    }
  }

  lemma {:induction false} LoggedIsIndexed(ticks: seq<MarketData>, i: nat)
    requires i < |ticks|
    ensures FormatPrice(ticks[i].price) in Ideal(ticks)
  {
    var n := |ticks| - 1;
    if i < n {
      assert ticks[..n][i] == ticks[i];
      LoggedIsIndexed(ticks[..n], i);
    }
  }

  function LastScore(ticks: seq<MarketData>, i: nat): real
    requires i < |ticks|
  {
    LoggedIsIndexed(ticks, i);
    Ideal(ticks)[FormatPrice(ticks[i].price)]
  }

  /** No price logged up to hi was logged again after hi or in an earlier second. */
  ghost predicate LastSecondWins(ticks: seq<MarketData>, hi: real) {
    forall i :: 0 <= i < |ticks| && Score(ticks[i]) <= hi ==>
      LastScore(ticks, i) <= hi && Score(ticks[i]).Floor <= LastScore(ticks, i).Floor
  }

  /** The index answers a window with exactly the prices logged in it. */
  ghost predicate ExactBetween(ticks: seq<MarketData>, lo: real, hi: real) {
    && (forall m :: m in Window(Ideal(ticks), lo, hi) ==> LoggedIn(ticks, lo, hi, m))
    && (forall m :: LoggedIn(ticks, lo, hi, m) ==> m in Window(Ideal(ticks), lo, hi))
  }

  /** ... for a window that starts at a whole second, as every query's does. */
  ghost predicate WindowExact(ticks: seq<MarketData>, lo: int, hi: real) {
    ExactBetween(ticks, lo as real, hi)
  }

  /** Deduplication is invisible to every window ending at hi exactly under that condition. */
  lemma DeduplicationExactIff(ticks: seq<MarketData>, hi: real)
    ensures (forall lo: int :: WindowExact(ticks, lo, hi)) <==> LastSecondWins(ticks, hi)
  {
    if LastSecondWins(ticks, hi) {
      forall lo: int
        ensures WindowExact(ticks, lo, hi)
      {
        ExactWhenLastWins(ticks, lo, hi);
      }
    }
    if forall lo: int :: WindowExact(ticks, lo, hi) {
      forall i | 0 <= i < |ticks| && Score(ticks[i]) <= hi
        ensures LastScore(ticks, i) <= hi && Score(ticks[i]).Floor <= LastScore(ticks, i).Floor
      {
        var lo := Score(ticks[i]).Floor;
        assert WindowExact(ticks, lo, hi);
        assert LoggedIn(ticks, lo as real, hi, FormatPrice(ticks[i].price));
      }
    }
  }

  lemma ExactWhenLastWins(ticks: seq<MarketData>, lo: int, hi: real)
    requires LastSecondWins(ticks, hi)
    ensures WindowExact(ticks, lo, hi)
  {
    var from := lo as real;
    forall m | m in Window(Ideal(ticks), from, hi)
      ensures LoggedIn(ticks, from, hi, m)
    {
      IndexIsLastTick(ticks, m);
    }
    forall m | LoggedIn(ticks, from, hi, m)
      ensures m in Window(Ideal(ticks), from, hi)
    {
      var i :| 0 <= i < |ticks| && FormatPrice(ticks[i].price) == m && from <= Score(ticks[i]) <= hi;
      LoggedIsIndexed(ticks, i);
      assert LastScore(ticks, i) == Ideal(ticks)[m];
      assert lo <= Score(ticks[i]).Floor;
    }
  }

  ghost predicate InOrder(ticks: seq<MarketData>) {
    forall i, j :: 0 <= i < j < |ticks| ==> Score(ticks[i]) <= Score(ticks[j])
  }

  /** Ticks arriving in time order, none scored after hi, meet the condition. */
  lemma InOrderIsEnough(ticks: seq<MarketData>, hi: real)
    requires InOrder(ticks) && forall i :: 0 <= i < |ticks| ==> Score(ticks[i]) <= hi
    ensures LastSecondWins(ticks, hi)
  {
    forall i | 0 <= i < |ticks|
      ensures LastScore(ticks, i) <= hi && Score(ticks[i]).Floor <= LastScore(ticks, i).Floor
    {
      LoggedIsIndexed(ticks, i);
      var m := FormatPrice(ticks[i].price);
      IndexIsLastTick(ticks, m);
      var k :| && 0 <= k < |ticks| && FormatPrice(ticks[k].price) == m && Score(ticks[k]) == Ideal(ticks)[m]
               && forall j :: k < j < |ticks| ==> FormatPrice(ticks[j].price) != m;
      assert i <= k;
    }
  }

  /** Timestamps in whole seconds are never after the whole second a query ends in. */
  lemma SecondStampsInWindow(d: MarketData, now: real)
    requires d.timestamp <= 1000000000000 && Score(d) <= now
    ensures Score(d) <= now.Floor as real
  {
    assert Score(d) == d.timestamp as real;
    assert d.timestamp <= now.Floor;
  }

  /** Millisecond stamps are another matter: quoting a price again within the current second hides
      its earlier tick from a window that contains that tick. */
  lemma SubSecondQuoteHidesTick()
    ensures
      exists ticks: seq<MarketData>, now: real ::
        && InOrder(ticks) && (forall i :: 0 <= i < |ticks| ==> Score(ticks[i]) <= now)
        && LoggedIn(ticks, (now - 10.0).Floor as real, now.Floor as real, FormatPrice(1.0))
        && FormatPrice(1.0) !in Window(Ideal(ticks), (now - 10.0).Floor as real, now.Floor as real)
  {
    var a := MarketData("BTCUSDT", 1.0, 1700000000000, "test-exchange1");
    var b := a.(timestamp := 1700000005400);
    var ticks := [a, b];
    var now := 1700000005.5;
    assert ticks[..1] == [a] && [a][..0] == [];
    assert Score(a) == 1700000000.0 && Score(b) == 1700000005.4;
    assert Ideal([a]) == map[FormatPrice(1.0) := 1700000000.0];
    assert Ideal(ticks) == map[FormatPrice(1.0) := 1700000005.4];
    assert InOrder(ticks);
    assert LoggedIn(ticks, (now - 10.0).Floor as real, now.Floor as real, FormatPrice(1.0));
  }

  // ---------------------------------------------------------------- latest records

  /** At position g the cleanup routine read a record it found too old, and it has sent nothing since. */
  ghost predicate AboutToDrop(log: seq<Command>, key: string, g: nat) {
    && g < |log| && log[g].ReadLatest? && log[g].key == key
    && !CleanerAfter(log[..g]).Resting?
    && Outdated(Get(Replay(log[..g]), log[g].now, key), CleanerAfter(log[..g]).cutoff)
    && forall j :: g < j < |log| ==> Writes(log[j])
  }

  /** Position d is the deletion of the record read as too old at position g. */
  ghost predicate Answers(log: seq<Command>, key: string, g: nat, d: nat) {
    g < d < |log| && Drops(log[d], key) && AboutToDrop(log[..d], key, g)
  }

  lemma {:induction false} ReadBeforeDrop(log: seq<Command>, key: string) returns (g: nat)
    requires Run(log) && CleanerAfter(log).Deleting? && CleanerAfter(log).key == key
    ensures AboutToDrop(log, key, g)
  {
    hide Outdated, Get, LiveSeriesKeys, LiveLatestKeys;
    var n := |log| - 1;
    if Writes(log[n]) {
      g := ReadBeforeDrop(log[..n], key);
      assert log[..n][..g] == log[..g];
    } else {
      g := n;
    }
  }

  /** Every deletion answers a read of its own cleanup. */
  lemma DropAnswersRead(log: seq<Command>, key: string, d: nat) returns (g: nat)
    requires Run(log) && d < |log| && Drops(log[d], key)
    ensures Answers(log, key, g, d)
  {
    RunPrefix(log, d + 1);
    assert log[..d + 1][..d] == log[..d];
    g := ReadBeforeDrop(log[..d], key);
  }

  lemma {:induction false} RunPrefix(log: seq<Command>, k: nat)
    requires Run(log) && k <= |log|
    ensures Run(log[..k])
  {
    if k == |log| {
      assert log[..k] == log;
    } else {
      RunPrefix(log[..|log| - 1], k);
      assert log[..|log| - 1][..k] == log[..k];
    }
  }

  /** A cleanup deleted the record after the write at w, having read it, or an earlier one, as too old. */
  ghost predicate DeletedByCleanup(log: seq<Command>, key: string, w: nat) {
    exists g: nat, d: nat :: Answers(log, key, g, d) && w < d
  }

  /** The write at w fell between a cleanup's read of an older record and the deletion that followed. */
  ghost predicate OvertakenByCleanup(log: seq<Command>, key: string, w: nat) {
    exists g: nat, d: nat :: Answers(log, key, g, d) && g < w < d
  }

  /** What a reader of a latest record gets, over every interleaving: the last record written, and
      nothing exactly when it has expired or a cleanup deleted it after reading it, or an earlier one,
      as too old. */
  lemma LatestReadIff(log: seq<Command>, now: real, key: string)
    requires Timely(log, now)
    ensures LastWrite(log, key).None? ==> Get(Replay(log), now, key) == None
    ensures LastWrite(log, key).Some? ==>
      var w := LastWrite(log, key).value;
      && (Get(Replay(log), now, key).Some? ==> Get(Replay(log), now, key) == Some(log[w].data))
      && (Get(Replay(log), now, key).None? <==> log[w].now + RETENTION < now || DeletedByCleanup(log, key, w))
  {
    TimelyRuns(log, now);
    AlwaysLastWritten(log, key);
    hide Replay, LastWrite, Run, Timely, Answers;
    if LastWrite(log, key).Some? {
      var w := LastWrite(log, key).value;
      if DroppedAfter(log, key, w) {
        var d :| w < d < |log| && Drops(log[d], key);
        var g := DropAnswersRead(log, key, d);
      }
      if g: nat, d: nat :| Answers(log, key, g, d) && w < d {
        AnswerDrops(log, key, g, d);
      }
    }
  }

  lemma AnswerDrops(log: seq<Command>, key: string, g: nat, d: nat)
    requires Answers(log, key, g, d)
    ensures d < |log| && Drops(log[d], key)
  {
  }

  /** A cleanup that reads the last record itself and finds it too old read one older than the retention. */
  lemma ReadAfterWriteIsOld(log: seq<Command>, now: real, key: string, g: nat, d: nat)
    requires Timely(log, now) && Answers(log, key, g, d)
    requires LastWrite(log, key).Some? && LastWrite(log, key).value < g
    ensures (log[LastWrite(log, key).value].data.timestamp as real) < now - RETENTION
  {
    var before, t := log[..g], log[g].now;
    assert log[..d][..g] == before;
    TimelyPrefix(log, now, g);
    CutoffIsOld(before, t);
    AlwaysLastWritten(before, key);
    LastWriteOfPrefix(log, key, g);
  }

  lemma {:induction false} LastWriteOfPrefix(log: seq<Command>, key: string, k: nat)
    requires k <= |log| && LastWrite(log, key).Some? && LastWrite(log, key).value < k
    ensures LastWrite(log[..k], key) == LastWrite(log, key)
  {
    if k == |log| {
      assert log[..k] == log;
    } else {
      LastWriteOfPrefix(log[..|log| - 1], key, k);
      assert log[..|log| - 1][..k] == log[..k];
    }
  }

  lemma DeletedIsOvertaken(log: seq<Command>, now: real, key: string, w: nat)
    requires Timely(log, now) && LastWrite(log, key) == Some(w)
    requires log[w].data.timestamp as real >= now - RETENTION
    ensures DeletedByCleanup(log, key, w) <==> OvertakenByCleanup(log, key, w)
  {
    hide LastWrite, Timely, Answers;
    if g: nat, d: nat :| Answers(log, key, g, d) && w < d {
      if w < g {
        ReadAfterWriteIsOld(log, now, key, g, d);
      }
      AnswerReads(log, key, g, d);
    }
  }

  /** The last record written, neither expired nor stamped longer ago than the retention, is missing
      exactly when its writing fell between a cleanup's read of an older record and the deletion. */
  lemma FreshRecordMissingIff(log: seq<Command>, now: real, key: string)
    requires Timely(log, now) && LastWrite(log, key).Some?
    requires
      var c := log[LastWrite(log, key).value];
      now <= c.now + RETENTION && c.data.timestamp as real >= now - RETENTION
    ensures
      var w := LastWrite(log, key).value;
      Get(Replay(log), now, key) == if OvertakenByCleanup(log, key, w) then None else Some(log[w].data)
  {
    LatestReadIff(log, now, key);
    DeletedIsOvertaken(log, now, key, LastWrite(log, key).value);
    hide Replay, Timely, OvertakenByCleanup, DeletedByCleanup, Get;
  }

  lemma AnswerReads(log: seq<Command>, key: string, g: nat, d: nat)
    requires Answers(log, key, g, d)
    ensures g < |log| && log[g].ReadLatest?
  {
  }

  lemma LatestKeyHasPrefix(d: MarketData)
    ensures StartsWith(LatestKeyOf(d), LATEST_PREFIX)
  {
    assert LatestKeyOf(d) == LATEST_PREFIX + (d.symbol + ":" + d.exchange);
  }

  /** A cleanup at 1120.5 reads a record stamped 1000. */
  lemma OldRecordRead(first: MarketData) returns (log: seq<Command>)
    requires first.timestamp == 1000
    ensures Timely(log, 1120.5) && AboutToDrop(log, LatestKeyOf(first), 3) && |log| == 4
    ensures CleanerAfter(log).Deleting? && CleanerAfter(log).key == LatestKeyOf(first)
  {
    var key := LatestKeyOf(first);
    LatestKeyHasPrefix(first);
    hide FormatPrice, Score, SeriesKeyOf, LatestKeyOf, LiveSeriesKeys;
    var c0, c1, c2, c3 := SetLatest(1000.9, first), ListSeries(1120.5, 1000.5), ListLatest(1120.5),
      ReadLatest(1120.5, key);
    Extend([], 1000.9, c0);
    var l1 := [] + [c0];
    assert Replay(l1).latest[key] == Stamped(first, 1120.9);
    Extend(l1, 1000.9, c1);
    var l2 := l1 + [c1];
    Extend(l2, 1120.5, c2);
    var l3 := l2 + [c2];
    assert key in CleanerAfter(l3).todo;
    Extend(l3, 1120.5, c3);
    log := l3 + [c3];
    assert log[..3] == l3;
  }

  /** Such a run: a cleanup reads a record of two minutes ago, the consumer replaces it, and the cleanup
      deletes the replacement, a tenth of a second old. */
  lemma CleanupDeletesFreshRecord(d: MarketData) returns (log: seq<Command>)
    requires d.timestamp == 1120
    ensures Timely(log, 1120.7) && |log| == 6 && log[4] == SetLatest(1120.6, d)
    ensures LastWrite(log, LatestKeyOf(d)) == Some(4) && OvertakenByCleanup(log, LatestKeyOf(d), 4)
  {
    var key := LatestKeyOf(d);
    var read := OldRecordRead(d.(timestamp := 1000));
    assert LatestKeyOf(d.(timestamp := 1000)) == key;
    hide FormatPrice, Score, SeriesKeyOf, LatestKeyOf, Outdated, Get, LiveSeriesKeys, LiveLatestKeys;
    Extend(read, 1120.5, SetLatest(1120.6, d));
    var replaced := read + [SetLatest(1120.6, d)];
    Extend(replaced, 1120.6, DropLatest(1120.7, key));
    log := replaced + [DropLatest(1120.7, key)];
    assert log[..5] == replaced && replaced[..3] == read[..3] && log[..5][..4] == read;
    assert Answers(log, key, 3, 5);
  }
}
