/** What a cancelled context ends and what it leaves waiting. A goroutine that entered its select before a
    start made a new context watches the old one, which nothing cancels. */
module PipelineCancel {
  import opened Market
  import opened Pipeline
  import opened PipelineProgress

  // ---------------------------------------------------------------- watched contexts

  /** With no start in progress the workers of the current channels watch the current context. */
  ghost predicate PoolWatchesCurrent(s: State) {
    !s.starting ==>
      forall l :: 0 <= l < |s.lanes| && l in s.pool && (s.lanes[l].st.Idle? || s.lanes[l].st.Publishing?) ==>
        s.lanes[l].st.watch == s.context
  }

  lemma StepKeepsPoolWatching(cfg: Config, s: State, step: Step)
    requires cfg.Valid() && Enabled(cfg, s, step) && FreshChannels(cfg, s) && PoolWatchesCurrent(s)
    ensures PoolWatchesCurrent(Next(cfg, s, step))
  {
    hide ProcessMarketData;
    if step.Start? || step.FailedStart? {
      assert forall l :: l in s.pool ==> |s.lanes| - s.made <= l < |s.lanes|;
    }
  }

  lemma {:induction false} AlwaysPoolWatching(cfg: Config, steps: seq<Step>, s: State)
    requires cfg.Valid() && Reached(cfg, steps, s)
    ensures PoolWatchesCurrent(s)
  {
    if steps != [] {
      var before, step := LastStep(cfg, steps, s);
      AlwaysPoolWatching(cfg, steps[..|steps| - 1], before);
      ReachedIsWellShaped(cfg, steps[..|steps| - 1], before);
      StepKeepsPoolWatching(cfg, before, step);
    }
  }

  // ---------------------------------------------------------------- returning

  datatype Goroutine = TheReader(reader: nat) | TheDistributor(dist: nat) | TheWorker(lane: nat)

  predicate Exists(s: State, g: Goroutine) {
    match g
    case TheReader(r) => r < |s.readers|
    case TheDistributor(d) => d < |s.distributors|
    case TheWorker(l) => l < |s.lanes| && !s.lanes[l].st.NoWorker?
  }

  predicate Returned(s: State, g: Goroutine) {
    match g
    case TheReader(r) => r < |s.readers| && s.readers[r].st.ReaderDone?
    case TheDistributor(d) => d < |s.distributors| && s.distributors[d].st.DistributorDone?
    case TheWorker(l) => l < |s.lanes| && s.lanes[l].st.WorkerDone?
  }

  /** Nothing is started and nothing further cancelled. Records may arrive and inputs may close. */
  predicate Undisturbed(step: Step) {
    !StartStep(step) && !step.Cancel?
  }

  /** Some undisturbed continuation ends with the goroutine returned. */
  ghost predicate CanReturn(cfg: Config, s: State, g: Goroutine)
    requires cfg.Valid()
  {
    exists steps: seq<Step>, s': State ::
      After(cfg, s, steps) == Some(s') && AllUndisturbed(steps) && Returned(s', g)
  }

  ghost predicate AllUndisturbed(steps: seq<Step>) {
    forall i :: 0 <= i < |steps| ==> Undisturbed(steps[i])
  }

  lemma {:induction false} AfterFirst(cfg: Config, s: State, step: Step, rest: seq<Step>)
    requires cfg.Valid() && Enabled(cfg, s, step)
    ensures After(cfg, s, [step] + rest) == After(cfg, Next(cfg, s, step), rest)
  {
    hide Enabled, Next;
    if rest == [] {
      assert [step] + rest == [step] && [step][..0] == [];
      assert After(cfg, s, []) == Some(s);
    } else {
      var n := |rest| - 1;
      assert ([step] + rest)[..n + 1] == [step] + rest[..n];
      AfterFirst(cfg, s, step, rest[..n]);
    }
  }

  lemma ReturnedNow(cfg: Config, s: State, g: Goroutine)
    requires cfg.Valid() && Returned(s, g)
    ensures CanReturn(cfg, s, g)
  {
    assert After(cfg, s, []) == Some(s) && AllUndisturbed([]);
  }

  /** Who can return after an undisturbed step can return before it. */
  lemma ReturnsAfter(cfg: Config, s: State, step: Step, g: Goroutine)
    requires cfg.Valid() && Enabled(cfg, s, step) && Undisturbed(step) && CanReturn(cfg, Next(cfg, s, step), g)
    ensures CanReturn(cfg, s, g)
  {
    hide After, Returned;
    var rest: seq<Step>, s': State :|
      After(cfg, Next(cfg, s, step), rest) == Some(s') && AllUndisturbed(rest) && Returned(s', g);
    AfterFirst(cfg, s, step, rest);
    assert AllUndisturbed([step] + rest);
  }

  // ---------------------------------------------------------------- readers

  /** A reader that is not waiting yet, or waits on a cancelled context. */
  lemma ReaderLeaves(cfg: Config, s: State, r: nat)
    requires cfg.Valid() && s.context in s.dead && r < |s.readers|
    requires s.readers[r].st.ReaderFree? || s.readers[r].st.Received? || ReaderSeesCancel(s, s.readers[r])
    ensures CanReturn(cfg, s, TheReader(r))
  {
    if ReaderSeesCancel(s, s.readers[r]) {
      ReturnedNow(cfg, Next(cfg, s, ReaderCancel(r)), TheReader(r));
      ReturnsAfter(cfg, s, ReaderCancel(r), TheReader(r));
    } else {
      var waiting := Next(cfg, s, ReaderEnter(r));
      ReturnedNow(cfg, Next(cfg, waiting, ReaderCancel(r)), TheReader(r));
      ReturnsAfter(cfg, waiting, ReaderCancel(r), TheReader(r));
      ReturnsAfter(cfg, s, ReaderEnter(r), TheReader(r));
    }
  }

  /** With the current context cancelled every fan-in reader can return: a sending select ends by its
      timeout at the latest, and a receiving one with the next record or the closing of the input. */
  lemma ReaderCanReturn(cfg: Config, s: State, r: nat)
    requires cfg.Valid() && s.context in s.dead && r < |s.readers|
    ensures CanReturn(cfg, s, TheReader(r))
  {
    hide CanReturn;
    var rd := s.readers[r];
    if rd.st.ReaderDone? {
      ReturnedNow(cfg, s, TheReader(r));
    } else if rd.st.Forwarding? && !ReaderSeesCancel(s, rd) {
      ReaderLeaves(cfg, Next(cfg, s, ReaderTimeout(r)), r);
      ReturnsAfter(cfg, s, ReaderTimeout(r), TheReader(r));
    } else if rd.st.Receiving? && !ReaderSeesCancel(s, rd) {
      if rd.queue != [] {
        ReaderLeaves(cfg, Next(cfg, s, ReaderTake(r)), r);
        ReturnsAfter(cfg, s, ReaderTake(r), TheReader(r));
      } else if rd.open {
        var closed := Next(cfg, s, CloseInput(r));
        ReturnedNow(cfg, Next(cfg, closed, ReaderEnd(r)), TheReader(r));
        ReturnsAfter(cfg, closed, ReaderEnd(r), TheReader(r));
        ReturnsAfter(cfg, s, CloseInput(r), TheReader(r));
      } else {
        ReturnedNow(cfg, Next(cfg, s, ReaderEnd(r)), TheReader(r));
        ReturnsAfter(cfg, s, ReaderEnd(r), TheReader(r));
      }
    } else {
      ReaderLeaves(cfg, s, r);
    }
  }

  // ---------------------------------------------------------------- workers

  /** An idle worker of an earlier start: its channel is empty and out of the pool, no distributor is about
      to send to it, and the context it watches is not cancelled. */
  ghost predicate WaitsForever(s: State, l: nat) {
    && l < |s.lanes| && s.lanes[l].st.Idle? && s.lanes[l].st.watch !in s.dead
    && s.lanes[l].buf == [] && l !in s.pool
    && forall d :: 0 <= d < |s.distributors| && Bound(s.distributors[d]) ==> s.distributors[d].st.lane != l
  }

  lemma DistributorKeepsWaiting(cfg: Config, s: State, step: Step, l: nat)
    requires cfg.Valid() && Enabled(cfg, s, step) && WaitsForever(s, l) && DistributorStep(step)
    ensures WaitsForever(Next(cfg, s, step), l) && Next(cfg, s, step).lanes[l].st == s.lanes[l].st
  {
    if step.DistributorChoose? {
      var p := s.pool[s.distributors[step.dist].workerIndex];
      assert p in s.pool;
    }
  }

  lemma OthersKeepWaiting(cfg: Config, s: State, step: Step, l: nat)
    requires cfg.Valid() && Enabled(cfg, s, step) && WaitsForever(s, l) && step != Cancel(s.lanes[l].st.watch)
    requires !DistributorStep(step)
    ensures WaitsForever(Next(cfg, s, step), l) && Next(cfg, s, step).lanes[l].st == s.lanes[l].st
  {
    hide ProcessMarketData, Resolved;
  }

  lemma StepKeepsWaiting(cfg: Config, s: State, step: Step, l: nat)
    requires cfg.Valid() && Enabled(cfg, s, step) && WaitsForever(s, l) && step != Cancel(s.lanes[l].st.watch)
    ensures WaitsForever(Next(cfg, s, step), l) && Next(cfg, s, step).lanes[l].st == s.lanes[l].st
  {
    hide Next, Enabled;
    if DistributorStep(step) {
      DistributorKeepsWaiting(cfg, s, step, l);
    } else {
      OthersKeepWaiting(cfg, s, step, l);
    }
  }

  /** Whatever happens, further starts included, it goes on waiting on its empty channel until the very
      context it watches is cancelled. */
  lemma {:induction false} WaitingForever(cfg: Config, s: State, steps: seq<Step>, s': State, l: nat)
    requires cfg.Valid() && After(cfg, s, steps) == Some(s') && WaitsForever(s, l)
    requires forall i :: 0 <= i < |steps| ==> steps[i] != Cancel(s.lanes[l].st.watch)
    ensures WaitsForever(s', l) && s'.lanes[l].st == s.lanes[l].st
  {
    hide Next, Enabled;
    if steps != [] {
      var before := After(cfg, s, steps[..|steps| - 1]).value;
      WaitingForever(cfg, s, steps[..|steps| - 1], before, l);
      StepKeepsWaiting(cfg, before, steps[|steps| - 1], l);
    }
  }

  lemma WorkerLeaves(cfg: Config, s: State, l: nat)
    requires cfg.Valid() && s.context in s.dead && l < |s.lanes|
    requires s.lanes[l].st.WorkerFree? || s.lanes[l].st.Processed? || WorkerSeesCancel(s, s.lanes[l])
    ensures CanReturn(cfg, s, TheWorker(l))
  {
    if WorkerSeesCancel(s, s.lanes[l]) {
      ReturnedNow(cfg, Next(cfg, s, WorkerCancel(l)), TheWorker(l));
      ReturnsAfter(cfg, s, WorkerCancel(l), TheWorker(l));
    } else {
      var waiting := Next(cfg, s, WorkerEnter(l));
      ReturnedNow(cfg, Next(cfg, waiting, WorkerCancel(l)), TheWorker(l));
      ReturnsAfter(cfg, waiting, WorkerCancel(l), TheWorker(l));
      ReturnsAfter(cfg, s, WorkerEnter(l), TheWorker(l));
    }
  }

  /** A record in its channel takes a worker out of its select. */
  lemma FedWorkerLeaves(cfg: Config, s: State, l: nat)
    requires cfg.Valid() && s.context in s.dead && l < |s.lanes| && s.lanes[l].st.Idle? && s.lanes[l].buf != []
    ensures CanReturn(cfg, s, TheWorker(l))
  {
    hide ProcessMarketData, CanReturn;
    WorkerLeaves(cfg, Next(cfg, s, WorkerTake(l, 0)), l);
    ReturnsAfter(cfg, s, WorkerTake(l, 0), TheWorker(l));
  }

  /** So does a distributor about to send to it. */
  lemma OfferedWorkerLeaves(cfg: Config, s: State, l: nat, d: nat)
    requires cfg.Valid() && s.context in s.dead && l < |s.lanes| && s.lanes[l].st.Idle? && s.lanes[l].buf == []
    requires d < |s.distributors| && Bound(s.distributors[d]) && s.distributors[d].st.lane == l
    ensures CanReturn(cfg, s, TheWorker(l))
  {
    hide CanReturn, Resolved;
    if s.distributors[d].st.Chosen? {
      var offering := Next(cfg, s, DistributorEnter(d));
      FedWorkerLeaves(cfg, Next(cfg, offering, DistributorSend(d)), l);
      ReturnsAfter(cfg, offering, DistributorSend(d), TheWorker(l));
      ReturnsAfter(cfg, s, DistributorEnter(d), TheWorker(l));
    } else {
      FedWorkerLeaves(cfg, Next(cfg, s, DistributorSend(d)), l);
      ReturnsAfter(cfg, s, DistributorSend(d), TheWorker(l));
    }
  }

  lemma WorkerReturns(cfg: Config, s: State, l: nat)
    requires cfg.Valid() && s.context in s.dead && !s.starting && PoolWatchesCurrent(s)
    requires Exists(s, TheWorker(l)) && !WaitsForever(s, l)
    ensures CanReturn(cfg, s, TheWorker(l))
  {
    hide CanReturn;
    var lane := s.lanes[l];
    if lane.st.WorkerDone? {
      ReturnedNow(cfg, s, TheWorker(l));
    } else if lane.st.Publishing? && !WorkerSeesCancel(s, lane) {
      WorkerLeaves(cfg, Next(cfg, s, WorkerTimeout(l)), l);
      ReturnsAfter(cfg, s, WorkerTimeout(l), TheWorker(l));
    } else if lane.st.Idle? && !WorkerSeesCancel(s, lane) {
      if lane.buf != [] {
        FedWorkerLeaves(cfg, s, l);
      } else {
        var d :| 0 <= d < |s.distributors| && Bound(s.distributors[d]) && s.distributors[d].st.lane == l;
        OfferedWorkerLeaves(cfg, s, l, d);
      }
    } else {
      WorkerLeaves(cfg, s, l);
    }
  }

  /** With the current context cancelled and no start in progress, a worker can return exactly unless it
      is one of those that wait forever. */
  lemma WorkerCanReturnIff(cfg: Config, steps: seq<Step>, s: State, l: nat)
    requires cfg.Valid() && Reached(cfg, steps, s) && s.context in s.dead && !s.starting && Exists(s, TheWorker(l))
    ensures CanReturn(cfg, s, TheWorker(l)) <==> !WaitsForever(s, l)
  {
    AlwaysPoolWatching(cfg, steps, s);
    hide Reached, PoolWatchesCurrent;
    if WaitsForever(s, l) && CanReturn(cfg, s, TheWorker(l)) {
      var more: seq<Step>, s': State :| After(cfg, s, more) == Some(s') && AllUndisturbed(more)
        && Returned(s', TheWorker(l));
      WaitingForever(cfg, s, more, s', l);
    }
    if !WaitsForever(s, l) {
      WorkerReturns(cfg, s, l);
    }
  }

  // ---------------------------------------------------------------- distributors

  /** A reader that will never forward anything again. */
  predicate Exhausted(r: Reader) {
    r.st.ReaderDone? || (!ReaderHas(r) && r.queue == [] && !r.open)
  }

  /** A distributor that waits for a record on a context not cancelled, and nobody can send one. */
  ghost predicate Starved(s: State, d: nat) {
    && d < |s.distributors| && s.distributors[d].st.Taking? && s.distributors[d].st.watch !in s.dead
    && s.aggregate == [] && forall r :: 0 <= r < |s.readers| ==> Exhausted(s.readers[r])
  }

  lemma StepKeepsStarved(cfg: Config, s: State, step: Step, d: nat)
    requires cfg.Valid() && Enabled(cfg, s, step) && Undisturbed(step) && Starved(s, d)
    ensures Starved(Next(cfg, s, step), d)
  {
    hide ProcessMarketData, Resolved;
  }

  lemma {:induction false} StaysStarved(cfg: Config, s: State, steps: seq<Step>, s': State, d: nat)
    requires cfg.Valid() && After(cfg, s, steps) == Some(s') && AllUndisturbed(steps) && Starved(s, d)
    ensures Starved(s', d)
  {
    hide Next, Enabled, Starved;
    if steps != [] {
      var before := After(cfg, s, steps[..|steps| - 1]).value;
      StaysStarved(cfg, s, steps[..|steps| - 1], before, d);
      StepKeepsStarved(cfg, before, steps[|steps| - 1], d);
    }
  }

  /** A distributor that is not waiting yet, has a record, or waits on a cancelled context. */
  lemma DistributorLeaves(cfg: Config, s: State, d: nat)
    requires cfg.Valid() && s.context in s.dead && d < |s.distributors|
    requires s.distributors[d].st.DistributorFree? || s.distributors[d].st.Chosen?
      || DistributorSeesCancel(s, s.distributors[d])
    ensures CanReturn(cfg, s, TheDistributor(d))
  {
    if DistributorSeesCancel(s, s.distributors[d]) {
      ReturnedNow(cfg, Next(cfg, s, DistributorCancel(d)), TheDistributor(d));
      ReturnsAfter(cfg, s, DistributorCancel(d), TheDistributor(d));
    } else {
      var waiting := Next(cfg, s, DistributorEnter(d));
      ReturnedNow(cfg, Next(cfg, waiting, DistributorCancel(d)), TheDistributor(d));
      ReturnsAfter(cfg, waiting, DistributorCancel(d), TheDistributor(d));
      ReturnsAfter(cfg, s, DistributorEnter(d), TheDistributor(d));
    }
  }

  lemma HoldingDistributorLeaves(cfg: Config, s: State, d: nat)
    requires cfg.Valid() && InRange(cfg, s) && s.context in s.dead && d < |s.distributors|
    requires s.distributors[d].st.Taken?
    ensures CanReturn(cfg, s, TheDistributor(d))
  {
    hide CanReturn;
    DistributorLeaves(cfg, Next(cfg, s, DistributorChoose(d)), d);
    ReturnsAfter(cfg, s, DistributorChoose(d), TheDistributor(d));
  }

  /** A record in the aggregated channel takes it out of its select. */
  lemma FedDistributorLeaves(cfg: Config, s: State, d: nat)
    requires cfg.Valid() && WellShaped(cfg, s) && s.context in s.dead && d < |s.distributors|
    requires s.distributors[d].st.Taking?
    requires s.aggregate != []
    ensures CanReturn(cfg, s, TheDistributor(d))
  {
    StepKeepsShape(cfg, s, DistributorTake(d));
    hide CanReturn, WithinCapacity, FreshChannels;
    HoldingDistributorLeaves(cfg, Next(cfg, s, DistributorTake(d)), d);
    ReturnsAfter(cfg, s, DistributorTake(d), TheDistributor(d));
  }

  /** So does a reader with a record in its hand: the empty channel has room for it. */
  lemma ForwardingFeeds(cfg: Config, s: State, d: nat, r: nat)
    requires cfg.Valid() && WellShaped(cfg, s) && s.context in s.dead && d < |s.distributors|
    requires s.distributors[d].st.Taking?
    requires s.aggregate == [] && r < |s.readers| && ReaderHas(s.readers[r])
    ensures CanReturn(cfg, s, TheDistributor(d))
  {
    hide CanReturn, WellShaped;
    if s.readers[r].st.Received? {
      var waiting := Next(cfg, s, ReaderEnter(r));
      StepKeepsShape(cfg, s, ReaderEnter(r));
      StepKeepsShape(cfg, waiting, ReaderSend(r));
      FedDistributorLeaves(cfg, Next(cfg, waiting, ReaderSend(r)), d);
      ReturnsAfter(cfg, waiting, ReaderSend(r), TheDistributor(d));
      ReturnsAfter(cfg, s, ReaderEnter(r), TheDistributor(d));
    } else {
      StepKeepsShape(cfg, s, ReaderSend(r));
      FedDistributorLeaves(cfg, Next(cfg, s, ReaderSend(r)), d);
      ReturnsAfter(cfg, s, ReaderSend(r), TheDistributor(d));
    }
  }

  /** And a reader with a record in its input. */
  lemma QueueFeeds(cfg: Config, s: State, d: nat, r: nat)
    requires cfg.Valid() && WellShaped(cfg, s) && s.context in s.dead && d < |s.distributors|
    requires s.distributors[d].st.Taking?
    requires s.aggregate == [] && r < |s.readers| && s.readers[r].queue != []
    requires s.readers[r].st.ReaderFree? || s.readers[r].st.Receiving?
    ensures CanReturn(cfg, s, TheDistributor(d))
  {
    hide CanReturn, WellShaped;
    if s.readers[r].st.ReaderFree? {
      var waiting := Next(cfg, s, ReaderEnter(r));
      StepKeepsShape(cfg, s, ReaderEnter(r));
      StepKeepsShape(cfg, waiting, ReaderTake(r));
      ForwardingFeeds(cfg, Next(cfg, waiting, ReaderTake(r)), d, r);
      ReturnsAfter(cfg, waiting, ReaderTake(r), TheDistributor(d));
      ReturnsAfter(cfg, s, ReaderEnter(r), TheDistributor(d));
    } else {
      StepKeepsShape(cfg, s, ReaderTake(r));
      ForwardingFeeds(cfg, Next(cfg, s, ReaderTake(r)), d, r);
      ReturnsAfter(cfg, s, ReaderTake(r), TheDistributor(d));
    }
  }

  lemma ReaderFeeds(cfg: Config, s: State, d: nat, r: nat)
    requires cfg.Valid() && WellShaped(cfg, s) && s.context in s.dead && d < |s.distributors|
    requires s.distributors[d].st.Taking?
    requires s.aggregate == [] && r < |s.readers| && !Exhausted(s.readers[r])
    ensures CanReturn(cfg, s, TheDistributor(d))
  {
    hide CanReturn, WellShaped;
    if ReaderHas(s.readers[r]) {
      ForwardingFeeds(cfg, s, d, r);
    } else if s.readers[r].queue != [] {
      QueueFeeds(cfg, s, d, r);
    } else {
      var arrival := Arrive(r, MarketData("", 0.0, 0, ""));
      StepKeepsShape(cfg, s, arrival);
      QueueFeeds(cfg, Next(cfg, s, arrival), d, r);
      ReturnsAfter(cfg, s, arrival, TheDistributor(d));
    }
  }

  lemma DistributorReturns(cfg: Config, s: State, d: nat)
    requires cfg.Valid() && WellShaped(cfg, s) && s.context in s.dead && d < |s.distributors| && !Starved(s, d)
    ensures CanReturn(cfg, s, TheDistributor(d))
  {
    hide CanReturn, Exhausted, WithinCapacity, FreshChannels;
    var dist := s.distributors[d];
    if dist.st.DistributorDone? {
      ReturnedNow(cfg, s, TheDistributor(d));
    } else if dist.st.Taken? {
      HoldingDistributorLeaves(cfg, s, d);
    } else if dist.st.Offering? && !DistributorSeesCancel(s, dist) {
      DistributorLeaves(cfg, Next(cfg, s, DistributorTimeout(d)), d);
      ReturnsAfter(cfg, s, DistributorTimeout(d), TheDistributor(d));
    } else if dist.st.Taking? && !DistributorSeesCancel(s, dist) {
      if s.aggregate != [] {
        FedDistributorLeaves(cfg, s, d);
      } else {
        var r :| 0 <= r < |s.readers| && !Exhausted(s.readers[r]);
        ReaderFeeds(cfg, s, d, r);
      }
    } else {
      DistributorLeaves(cfg, s, d);
    }
  }

  /** With the current context cancelled, a distributor can return before the next start exactly unless
      it is starved: waiting for a record nobody can send it, on a context that is not cancelled. */
  lemma DistributorCanReturnIff(cfg: Config, steps: seq<Step>, s: State, d: nat)
    requires cfg.Valid() && Reached(cfg, steps, s) && s.context in s.dead && d < |s.distributors|
    ensures CanReturn(cfg, s, TheDistributor(d)) <==> !Starved(s, d)
  {
    ReachedIsWellShaped(cfg, steps, s);
    hide Reached, WellShaped;
    if Starved(s, d) && CanReturn(cfg, s, TheDistributor(d)) {
      var more: seq<Step>, s': State :| After(cfg, s, more) == Some(s') && AllUndisturbed(more)
        && Returned(s', TheDistributor(d));
      StaysStarved(cfg, s, more, s', d);
    }
    if !Starved(s, d) {
      DistributorReturns(cfg, s, d);
    }
  }

  // ---------------------------------------------------------------- halting

  /** Every reader has returned, and every other goroutine has returned or waits to receive from an empty
      channel. */
  ghost predicate Halted(s: State) {
    && (forall r :: 0 <= r < |s.readers| ==> s.readers[r].st.ReaderDone?)
    && (forall d :: 0 <= d < |s.distributors| ==>
          s.distributors[d].st.DistributorDone? || (s.distributors[d].st.Taking? && s.aggregate == []))
    && (forall l :: 0 <= l < |s.lanes| ==>
          s.lanes[l].st.NoWorker? || s.lanes[l].st.WorkerDone? || (s.lanes[l].st.Idle? && s.lanes[l].buf == []))
  }

  /** Whoever still waits does so on a context that is not cancelled. */
  ghost predicate Settled(s: State) {
    && (forall d :: 0 <= d < |s.distributors| ==> !DistributorSeesCancel(s, s.distributors[d]))
    && (forall l :: 0 <= l < |s.lanes| ==> !WorkerSeesCancel(s, s.lanes[l]))
  }

  /** What lies in buffers, and what has been or can be delivered, is the same. */
  ghost predicate SameBuffers(s: State, s': State) {
    && s'.aggregate == s.aggregate && s'.consumed + s'.result == s.consumed + s.result
    && |s'.lanes| >= |s.lanes| && forall l :: 0 <= l < |s.lanes| ==> s'.lanes[l].buf == s.lanes[l].buf
  }

  lemma StepAfterHalt(cfg: Config, s: State, step: Step)
    requires cfg.Valid() && Enabled(cfg, s, step) && Halted(s) && !step.Start?
    ensures Halted(Next(cfg, s, step)) && SameBuffers(s, Next(cfg, s, step))
  {
    hide ProcessMarketData, Resolved;
  }

  /** Once halted, nothing but the content of the result channel is ever delivered and the other buffers
      keep what they hold, whatever arrives or is cancelled, until a start succeeds. */
  lemma {:induction false} HaltedDeliversNothing(cfg: Config, s: State, steps: seq<Step>, s': State)
    requires cfg.Valid() && After(cfg, s, steps) == Some(s') && Halted(s)
    requires forall i :: 0 <= i < |steps| ==> !steps[i].Start?
    ensures Halted(s') && SameBuffers(s, s')
  {
    hide Next, Enabled, Halted;
    if steps != [] {
      var before := After(cfg, s, steps[..|steps| - 1]).value;
      HaltedDeliversNothing(cfg, s, steps[..|steps| - 1], before);
      StepAfterHalt(cfg, before, steps[|steps| - 1]);
    }
  }

  /** A step towards the halt that publishes nothing. */
  predicate Withdraws(step: Step) {
    || step.ReaderEnter? || step.ReaderTake? || step.ReaderTimeout? || step.ReaderCancel? || step.ReaderEnd?
    || step.CloseInput?
    || step.DistributorEnter? || step.DistributorTake? || step.DistributorChoose? || step.DistributorTimeout?
    || step.DistributorCancel?
    || step.WorkerEnter? || step.WorkerTake? || step.WorkerTimeout? || step.WorkerCancel?
  }

  lemma ReaderWithdraws(cfg: Config, s: State, r: nat) returns (step: Step)
    requires r < |s.readers| && !s.readers[r].st.ReaderDone?
    ensures Enabled(cfg, s, step) && Withdraws(step)
  {
    var rd := s.readers[r];
    if rd.st.ReaderFree? || rd.st.Received? {
      step := ReaderEnter(r);
    } else if rd.st.Forwarding? {
      step := ReaderTimeout(r);
    } else if rd.queue != [] {
      step := ReaderTake(r);
    } else {
      step := if rd.open then CloseInput(r) else ReaderEnd(r);
    }
  }

  lemma DistributorWithdraws(cfg: Config, s: State, d: nat) returns (step: Step)
    requires cfg.Valid() && InRange(cfg, s) && d < |s.distributors| && !s.distributors[d].st.DistributorDone?
    requires DistributorSeesCancel(s, s.distributors[d]) || !s.distributors[d].st.Taking? || s.aggregate != []
    ensures Enabled(cfg, s, step) && Withdraws(step)
  {
    var dist := s.distributors[d];
    if DistributorSeesCancel(s, dist) {
      step := DistributorCancel(d);
    } else if dist.st.Taking? {
      step := DistributorTake(d);
    } else {
      step := if dist.st.Taken? then DistributorChoose(d) else if dist.st.Offering? then DistributorTimeout(d)
        else DistributorEnter(d);
    }
  }

  lemma WorkerWithdraws(cfg: Config, s: State, l: nat) returns (step: Step)
    requires Exists(s, TheWorker(l)) && !s.lanes[l].st.WorkerDone?
    requires WorkerSeesCancel(s, s.lanes[l]) || !s.lanes[l].st.Idle? || s.lanes[l].buf != []
    ensures Enabled(cfg, s, step) && Withdraws(step)
  {
    var lane := s.lanes[l];
    if WorkerSeesCancel(s, lane) {
      step := WorkerCancel(l);
    } else if lane.st.Idle? {
      step := WorkerTake(l, 0);
    } else {
      step := if lane.st.Publishing? then WorkerTimeout(l) else WorkerEnter(l);
    }
  }

  lemma SomeoneWithdraws(cfg: Config, s: State) returns (step: Step)
    requires cfg.Valid() && InRange(cfg, s) && !(Halted(s) && Settled(s))
    ensures Enabled(cfg, s, step) && Withdraws(step)
  {
    if r :| 0 <= r < |s.readers| && !s.readers[r].st.ReaderDone? {
      step := ReaderWithdraws(cfg, s, r);
    } else if d :| 0 <= d < |s.distributors| && !s.distributors[d].st.DistributorDone?
                   && (DistributorSeesCancel(s, s.distributors[d]) || !s.distributors[d].st.Taking?
                       || s.aggregate != []) {
      step := DistributorWithdraws(cfg, s, d);
    } else {
      var l :| && 0 <= l < |s.lanes| && !s.lanes[l].st.NoWorker? && !s.lanes[l].st.WorkerDone?
               && (WorkerSeesCancel(s, s.lanes[l]) || !s.lanes[l].st.Idle? || s.lanes[l].buf != []);
      step := WorkerWithdraws(cfg, s, l);
    }
  }

  lemma WithdrawingPublishesNothing(cfg: Config, s: State, step: Step)
    requires cfg.Valid() && Enabled(cfg, s, step) && Withdraws(step)
    ensures
      var s' := Next(cfg, s, step);
      s'.result == s.result && s'.consumed == s.consumed && s'.context == s.context && s'.dead == s.dead
  {
    hide ProcessMarketData, Resolved;
  }

  /** The pipeline can always come to a halt, whatever its goroutines watch, if its inputs close and its
      consumer rests: readers and everyone watching a cancelled context return, the others wait for
      records that can no longer come, and nothing more has been published. */
  lemma {:induction false} CanHalt(cfg: Config, s: State) returns (steps: seq<Step>, s': State)
    requires cfg.Valid() && WellShaped(cfg, s)
    ensures After(cfg, s, steps) == Some(s') && AllUndisturbed(steps) && Halted(s') && Settled(s')
    ensures s'.result == s.result && s'.consumed == s.consumed && s'.context == s.context && s'.dead == s.dead
    decreases Rank(s)
  {
    hide WellShaped, Halted, Settled, Rank, Enabled, Next;
    steps, s' := [], s;
    if !(Halted(s) && Settled(s)) {
      var step := WithdrawFrom(cfg, s);
      InternalStepLowersRank(cfg, s, step);
      StepKeepsShape(cfg, s, step);
      WithdrawingPublishesNothing(cfg, s, step);
      var rest: seq<Step>;
      rest, s' := CanHalt(cfg, Next(cfg, s, step));
      AfterFirst(cfg, s, step, rest);
      steps := [step] + rest;
    }
  }

  lemma WithdrawFrom(cfg: Config, s: State) returns (step: Step)
    requires cfg.Valid() && WellShaped(cfg, s) && !(Halted(s) && Settled(s))
    ensures Enabled(cfg, s, step) && Withdraws(step) && Undisturbed(step) && (Internal(step) || step.CloseInput?)
  {
    step := SomeoneWithdraws(cfg, s);
  }

  /** After a cancellation of the current context: in such a halt everyone the cancellation could reach
      has returned, only idle workers of earlier starts and distributors without records are left. */
  lemma CancelledHalt(cfg: Config, steps: seq<Step>, s: State) returns (more: seq<Step>, s': State)
    requires cfg.Valid() && Reached(cfg, steps, s) && s.context in s.dead && !s.starting
    ensures After(cfg, s, more) == Some(s') && AllUndisturbed(more) && Halted(s')
    ensures s'.result == s.result && s'.consumed == s.consumed
    ensures forall l :: Exists(s', TheWorker(l)) ==> Returned(s', TheWorker(l)) || WaitsForever(s', l)
    ensures forall d :: Exists(s', TheDistributor(d)) ==> Returned(s', TheDistributor(d)) || Starved(s', d)
  {
    ReachedIsWellShaped(cfg, steps, s);
    more, s' := CanHalt(cfg, s);
    AfterReached(cfg, steps, s, more, s');
    AlwaysPoolWatching(cfg, steps + more, s');
    UndisturbedStartsNothing(cfg, s, more, s');
    hide Reached, After;
    forall l | Exists(s', TheWorker(l))
      ensures Returned(s', TheWorker(l)) || WaitsForever(s', l)
    {
      assert forall d :: 0 <= d < |s'.distributors| ==> !Bound(s'.distributors[d]);
    }
  }

  lemma {:induction false} AfterReached(cfg: Config, steps: seq<Step>, s: State, more: seq<Step>, s': State)
    requires cfg.Valid() && Reached(cfg, steps, s) && After(cfg, s, more) == Some(s')
    ensures Reached(cfg, steps + more, s')
  {
    hide Enabled, Next;
    if more == [] {
      assert steps + more == steps;
    } else {
      var n := |more| - 1;
      AfterReached(cfg, steps, s, more[..n], After(cfg, s, more[..n]).value);
      assert (steps + more)[..|steps + more| - 1] == steps + more[..n];
    }
  }

  lemma {:induction false} UndisturbedStartsNothing(cfg: Config, s: State, steps: seq<Step>, s': State)
    requires cfg.Valid() && After(cfg, s, steps) == Some(s') && AllUndisturbed(steps)
    ensures s'.starting == s.starting && s'.context == s.context && s'.dead == s.dead
  {
    hide ProcessMarketData, Resolved;
    if steps != [] {
      UndisturbedStartsNothing(cfg, s, steps[..|steps| - 1], After(cfg, s, steps[..|steps| - 1]).value);
    }
  }
}
