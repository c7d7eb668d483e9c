/** Draining: how long it can take, when a step is possible, and what can never drain. */
module PipelineProgress {
  import opened Market
  import opened Pipeline

  // ---------------------------------------------------------------- sums

  function Sum(ns: seq<nat>): nat {
    if ns == [] then 0 else Sum(ns[..|ns| - 1]) + ns[|ns| - 1]
  }

  lemma {:induction false} SumUpdate(ns: seq<nat>, i: nat, n: nat)
    requires i < |ns|
    ensures Sum(ns[i := n]) + ns[i] == Sum(ns) + n
  {
    var last := |ns| - 1;
    if i < last {
      SumUpdate(ns[..last], i, n);
      assert ns[i := n][..last] == ns[..last][i := n];
    } else {
      assert ns[i := n][..last] == ns[..last];
    }
  }

  // ---------------------------------------------------------------- the rank

  /** Steps a record and its goroutine can still take, stage by stage. */
  function ReaderStateRank(st: ReaderState): nat {
    match st
    case ReaderFree => 2
    case Receiving(_) => 1
    case Received(_) => 14
    case Forwarding(_, _) => 13
    case ReaderDone => 0
  }

  function ReaderRank(r: Reader): nat {
    14 * |r.queue| + (if r.open then 1 else 0) + ReaderStateRank(r.st)
  }

  function DistributorRank(d: Distributor): nat {
    match d.st
    case DistributorFree => 2
    case Taking(_) => 1
    case Taken(_) => 10
    case Chosen(_, _) => 9
    case Offering(_, _, _) => 8
    case DistributorDone => 0
  }

  function WorkerRank(st: WorkerState): nat {
    match st
    case NoWorker => 0
    case WorkerFree => 2
    case Idle(_) => 1
    case Processed(_) => 5
    case Publishing(_, _) => 4
    case WorkerDone => 0
  }

  function LaneRank(l: Lane): nat {
    5 * |l.buf| + WorkerRank(l.st)
  }

  function ReaderRanks(readers: seq<Reader>): seq<nat> {
    seq(|readers|, i requires 0 <= i < |readers| => ReaderRank(readers[i]))
  }

  function DistributorRanks(ds: seq<Distributor>): seq<nat> {
    seq(|ds|, i requires 0 <= i < |ds| => DistributorRank(ds[i]))
  }

  function LaneRanks(lanes: seq<Lane>): seq<nat> {
    seq(|lanes|, i requires 0 <= i < |lanes| => LaneRank(lanes[i]))
  }

  function Rank(s: State): nat {
    Sum(ReaderRanks(s.readers)) + 10 * |s.aggregate| + Sum(DistributorRanks(s.distributors))
      + Sum(LaneRanks(s.lanes)) + |s.result|
  }

  /** Steps of the pipeline's own goroutines and of the consumer. */
  predicate Internal(step: Step) {
    ReaderStep(step) || DistributorStep(step) || WorkerStep(step) || step.Consume?
  }

  lemma ReaderRankChanges(readers: seq<Reader>, i: nat, r: Reader)
    requires i < |readers|
    ensures Sum(ReaderRanks(readers[i := r])) + ReaderRank(readers[i]) == Sum(ReaderRanks(readers)) + ReaderRank(r)
  {
    assert ReaderRanks(readers[i := r]) == ReaderRanks(readers)[i := ReaderRank(r)];
    SumUpdate(ReaderRanks(readers), i, ReaderRank(r));
  }

  lemma DistributorRankChanges(ds: seq<Distributor>, i: nat, d: Distributor)
    requires i < |ds|
    ensures Sum(DistributorRanks(ds[i := d])) + DistributorRank(ds[i]) == Sum(DistributorRanks(ds)) + DistributorRank(d)
  {
    assert DistributorRanks(ds[i := d]) == DistributorRanks(ds)[i := DistributorRank(d)];
    SumUpdate(DistributorRanks(ds), i, DistributorRank(d));
  }

  lemma LaneRankChanges(lanes: seq<Lane>, i: nat, l: Lane)
    requires i < |lanes|
    ensures Sum(LaneRanks(lanes[i := l])) + LaneRank(lanes[i]) == Sum(LaneRanks(lanes)) + LaneRank(l)
  {
    assert LaneRanks(lanes[i := l]) == LaneRanks(lanes)[i := LaneRank(l)];
    SumUpdate(LaneRanks(lanes), i, LaneRank(l));
  }

  lemma ReaderStepLowersRank(cfg: Config, s: State, step: Step)
    requires cfg.Valid() && Enabled(cfg, s, step) && (ReaderStep(step) || step.CloseInput?)
    ensures Rank(Next(cfg, s, step)) < Rank(s)
  {
    var s', r := Next(cfg, s, step), step.reader;
    ReaderRankChanges(s.readers, r, s'.readers[r]);
    assert s'.distributors == s.distributors && s'.lanes == s.lanes && s'.result == s.result;
    assert ReaderRank(s'.readers[r]) + 10 * |s'.aggregate| < ReaderRank(s.readers[r]) + 10 * |s.aggregate|;
    hide Next, ReaderRank, LaneRanks, ReaderRanks, DistributorRanks, Sum;
  }

  lemma DispatchLowersRank(cfg: Config, s: State, d: nat)
    requires cfg.Valid() && Enabled(cfg, s, DistributorSend(d))
    ensures Rank(Next(cfg, s, DistributorSend(d))) < Rank(s)
  {
    var s', l := Next(cfg, s, DistributorSend(d)), s.distributors[d].st.lane;
    DistributorRankChanges(s.distributors, d, s'.distributors[d]);
    LaneRankChanges(s.lanes, l, s'.lanes[l]);
  }

  lemma DistributorStepLowersRank(cfg: Config, s: State, step: Step)
    requires cfg.Valid() && Enabled(cfg, s, step) && DistributorStep(step) && !step.DistributorSend?
    ensures Rank(Next(cfg, s, step)) < Rank(s)
  {
    var s', d := Next(cfg, s, step), step.dist;
    DistributorRankChanges(s.distributors, d, s'.distributors[d]);
    assert s'.readers == s.readers && s'.lanes == s.lanes && s'.result == s.result;
    assert DistributorRank(s'.distributors[d]) + 10 * |s'.aggregate| <
      DistributorRank(s.distributors[d]) + 10 * |s.aggregate|;
    hide Next, DistributorRank, LaneRanks, ReaderRanks, DistributorRanks, Sum;
  }

  lemma WorkerStepLowersRank(cfg: Config, s: State, step: Step)
    requires cfg.Valid() && Enabled(cfg, s, step) && WorkerStep(step)
    ensures Rank(Next(cfg, s, step)) < Rank(s)
  {
    hide ProcessMarketData;
    var s', l := Next(cfg, s, step), step.lane;
    LaneAfterWorker(cfg, s, step);
    hide Next, LaneRank, LaneRanks, ReaderRanks, DistributorRanks, Sum;
    LaneRankChanges(s.lanes, l, s'.lanes[l]);
  }

  lemma LaneAfterWorker(cfg: Config, s: State, step: Step)
    requires cfg.Valid() && Enabled(cfg, s, step) && WorkerStep(step)
    ensures
      var s', l := Next(cfg, s, step), step.lane;
      && |s'.lanes| == |s.lanes| && s'.lanes == s.lanes[l := s'.lanes[l]]
      && s'.readers == s.readers && s'.aggregate == s.aggregate && s'.distributors == s.distributors
      && LaneRank(s'.lanes[l]) + |s'.result| < LaneRank(s.lanes[l]) + |s.result|
  {
    hide ProcessMarketData;
  }

  /** Every internal step lowers the rank, and so does closing an input; cancelling leaves it alone. */
  lemma InternalStepLowersRank(cfg: Config, s: State, step: Step)
    requires cfg.Valid() && Enabled(cfg, s, step) && (Internal(step) || step.CloseInput?)
    ensures Rank(Next(cfg, s, step)) < Rank(s)
  {
    if ReaderStep(step) || step.CloseInput? {
      ReaderStepLowersRank(cfg, s, step);
    } else if step.DistributorSend? {
      DispatchLowersRank(cfg, s, step.dist);
    } else if DistributorStep(step) {
      DistributorStepLowersRank(cfg, s, step);
    } else if step.Consume? {
      assert |Next(cfg, s, step).result| == |s.result| - 1;
    } else {
      WorkerStepLowersRank(cfg, s, step);
    }
  }

  function InternalSteps(steps: seq<Step>): nat {
    if steps == [] then 0 else InternalSteps(steps[..|steps| - 1]) + if Internal(steps[|steps| - 1]) then 1 else 0
  }

  /** Once nothing new arrives or starts, at most rank many internal steps remain, whatever order
      they come in and whenever inputs close or contexts are cancelled. */
  lemma {:induction false} DrainingTerminates(cfg: Config, s: State, steps: seq<Step>, s': State)
    requires cfg.Valid() && After(cfg, s, steps) == Some(s')
    requires forall i :: 0 <= i < |steps| ==> !StartStep(steps[i]) && !steps[i].Arrive?
    ensures Rank(s') + InternalSteps(steps) <= Rank(s)
  {
    if steps != [] {
      var before := After(cfg, s, steps[..|steps| - 1]).value;
      var step := steps[|steps| - 1];
      DrainingTerminates(cfg, s, steps[..|steps| - 1], before);
      if !step.Cancel? {
        InternalStepLowersRank(cfg, before, step);
      }
    }
  }

  // ---------------------------------------------------------------- never stuck

  /** Steps that move a record on or drop it, upstream of the consumer, or bring the goroutine that
      has it, or can take it, into its select. */
  predicate MovesRecord(s: State, step: Step) {
    || step.ReaderTake? || step.ReaderSend? || step.ReaderTimeout?
    || step.DistributorTake? || step.DistributorChoose? || step.DistributorSend? || step.DistributorTimeout?
    || step.WorkerTake? || step.WorkerSend? || step.WorkerTimeout?
    || (step.ReaderEnter? && step.reader < |s.readers|
        && (ReaderHas(s.readers[step.reader]) || s.readers[step.reader].queue != []))
    || (step.DistributorEnter? && step.dist < |s.distributors|
        && (DistributorHas(s.distributors[step.dist]) || s.aggregate != []))
    || (step.WorkerEnter? && step.lane < |s.lanes| && (WorkerHas(s.lanes[step.lane]) || s.lanes[step.lane].buf != []))
  }

  ghost predicate CanMove(cfg: Config, s: State) {
    exists step :: MovesRecord(s, step) && Enabled(cfg, s, step)
  }

  /** Some record upstream of the result channel has a goroutine responsible for it. */
  ghost predicate Attended(s: State) {
    || (exists r :: 0 <= r < |s.readers| && (s.readers[r].queue != [] || ReaderHas(s.readers[r])))
    || s.aggregate != []
    || (exists d :: 0 <= d < |s.distributors| && DistributorHas(s.distributors[d]))
    || (exists l :: 0 <= l < |s.lanes| && !s.lanes[l].st.NoWorker? && (s.lanes[l].buf != [] || WorkerHas(s.lanes[l])))
  }

  /** A record sits in a worker channel that never had a worker. */
  ghost predicate Stranded(s: State) {
    exists l :: 0 <= l < |s.lanes| && s.lanes[l].st.NoWorker? && s.lanes[l].buf != []
  }

  /** Without a cancellation goroutines end only when their input is closed and empty. */
  ghost predicate NobodyLeft(s: State) {
    && (forall r :: 0 <= r < |s.readers| && s.readers[r].st.ReaderDone? ==>
        s.readers[r].queue == [] && !s.readers[r].open)
    && (forall d :: 0 <= d < |s.distributors| ==> !s.distributors[d].st.DistributorDone?)
    && (forall l :: 0 <= l < |s.lanes| ==> !s.lanes[l].st.WorkerDone?)
  }

  lemma StartLeavesNobody(cfg: Config, s: State, step: Step)
    requires cfg.Valid() && Enabled(cfg, s, step) && NobodyLeft(s) && StartStep(step)
    ensures NobodyLeft(Next(cfg, s, step))
  {
    hide WithChannel;
  }

  lemma EarlyStepLeavesNobody(cfg: Config, s: State, step: Step)
    requires cfg.Valid() && Enabled(cfg, s, step) && s.dead == {} && NobodyLeft(s) && EarlyStep(step)
    ensures NobodyLeft(Next(cfg, s, step))
  {
    hide ProcessMarketData, WithChannel, Resolved;
    if StartStep(step) {
      StartLeavesNobody(cfg, s, step);
    }
    hide Staffed;
  }

  lemma StepLeavesNobody(cfg: Config, s: State, step: Step)
    requires cfg.Valid() && Enabled(cfg, s, step) && s.dead == {} && NobodyLeft(s)
    ensures NobodyLeft(Next(cfg, s, step))
  {
    hide ProcessMarketData, WithChannel, Staffed;
    if EarlyStep(step) {
      EarlyStepLeavesNobody(cfg, s, step);
    }
  }

  lemma CancelsOnlyAdd(cfg: Config, s: State, step: Step)
    requires cfg.Valid() && Enabled(cfg, s, step)
    ensures s.dead <= Next(cfg, s, step).dead
    ensures step.Cancel? || Next(cfg, s, step).dead == s.dead
  {
  }

  lemma {:induction false} UncancelledLeavesNobody(cfg: Config, steps: seq<Step>, s: State)
    requires cfg.Valid() && Reached(cfg, steps, s) && s.dead == {}
    ensures NobodyLeft(s)
  {
    if steps != [] {
      var before, step := LastStep(cfg, steps, s);
      CancelsOnlyAdd(cfg, before, step);
      UncancelledLeavesNobody(cfg, steps[..|steps| - 1], before);
      StepLeavesNobody(cfg, before, step);
    }
  }

  /** In an uncancelled run some record can move, even if the consumer never reads, exactly when a
      record upstream of the result channel is attended. */
  lemma CanMoveIffAttended(cfg: Config, steps: seq<Step>, s: State)
    requires cfg.Valid() && Reached(cfg, steps, s) && s.dead == {}
    ensures CanMove(cfg, s) <==> Attended(s)
  {
    ReachedIsWellShaped(cfg, steps, s);
    UncancelledLeavesNobody(cfg, steps, s);
    if Attended(s) {
      var step := MoveFor(cfg, s);
    }
    if CanMove(cfg, s) {
      var step :| MovesRecord(s, step) && Enabled(cfg, s, step);
      MovedIsAttended(cfg, s, step);
    }
  }

  lemma MovedIsAttended(cfg: Config, s: State, step: Step)
    requires MovesRecord(s, step) && Enabled(cfg, s, step)
    ensures Attended(s)
  {
  }

  /** The step that moves an attended record: its goroutine enters its select, takes it, or times out on it. */
  lemma MoveFor(cfg: Config, s: State) returns (step: Step)
    requires WellShaped(cfg, s) && NobodyLeft(s) && Attended(s)
    ensures MovesRecord(s, step) && Enabled(cfg, s, step)
  {
    if r :| 0 <= r < |s.readers| && (s.readers[r].queue != [] || ReaderHas(s.readers[r])) {
      var st := s.readers[r].st;
      step := if st.Forwarding? then ReaderTimeout(r) else if st.Receiving? then ReaderTake(r) else ReaderEnter(r);
    } else if d :| 0 <= d < |s.distributors| && DistributorHas(s.distributors[d]) {
      var st := s.distributors[d].st;
      step := if st.Taken? then DistributorChoose(d) else if st.Chosen? then DistributorEnter(d)
        else DistributorTimeout(d);
    } else if s.aggregate != [] {
      step := if s.distributors[0].st.Taking? then DistributorTake(0) else DistributorEnter(0);
    } else {
      var l :| 0 <= l < |s.lanes| && !s.lanes[l].st.NoWorker? && (s.lanes[l].buf != [] || WorkerHas(s.lanes[l]));
      var st := s.lanes[l].st;
      step := if st.Publishing? then WorkerTimeout(l) else if st.Idle? then WorkerTake(l, 0) else WorkerEnter(l);
    }
  }

  /** How many starts failed. */
  function FailedStarts(steps: seq<Step>): nat {
    if steps == [] then 0 else FailedStarts(steps[..|steps| - 1]) + if steps[|steps| - 1].FailedStart? then 1 else 0
  }

  /** Unless a start failed, only the channels of a start in progress have no worker. */
  lemma {:induction false} WorkersUnlessFailed(cfg: Config, steps: seq<Step>, s: State)
    requires cfg.Valid() && Reached(cfg, steps, s) && FailedStarts(steps) == 0
    ensures s.made <= |s.lanes| && forall l :: 0 <= l < |s.lanes| - s.made ==> !s.lanes[l].st.NoWorker?
  {
    hide ProcessMarketData;
    if steps != [] {
      var before, step := LastStep(cfg, steps, s);
      WorkersUnlessFailed(cfg, steps[..|steps| - 1], before);
      ReachedIsWellShaped(cfg, steps[..|steps| - 1], before);
      if step.Start? {
        forall l | |before.lanes| - before.made <= l < |before.lanes|
          ensures !s.lanes[l].st.NoWorker?
        {
          assert before.pool[l - (|before.lanes| - before.made)] == l;
        }
      }
    }
  }

  /** When no start has failed or is in progress and nothing was cancelled, draining never sticks: with no
      further move possible, nothing is left upstream of the result channel. */
  lemma DrainingNeverSticks(cfg: Config, steps: seq<Step>, s: State)
    requires cfg.Valid() && Reached(cfg, steps, s) && s.dead == {} && !s.starting && FailedStarts(steps) == 0
    ensures CanMove(cfg, s) || (!Attended(s) && !Stranded(s))
  {
    CanMoveIffAttended(cfg, steps, s);
    WorkersUnlessFailed(cfg, steps, s);
    ReachedIsWellShaped(cfg, steps, s);
  }

  /** A channel left without a worker by a start that failed. */
  predicate Abandoned(s: State, l: nat) {
    s.made <= |s.lanes| && l < |s.lanes| - s.made && s.lanes[l].st.NoWorker?
  }

  lemma StepKeepsAbandoned(cfg: Config, s: State, step: Step, l: nat)
    requires cfg.Valid() && Enabled(cfg, s, step) && FreshChannels(cfg, s) && Abandoned(s, l)
    ensures Abandoned(Next(cfg, s, step), l) && s.lanes[l].buf <= Next(cfg, s, step).lanes[l].buf
  {
    hide ProcessMarketData;
  }

  /** A record in an abandoned channel stays there through every continuation of the run. */
  lemma {:induction false} StrandedForever(cfg: Config, s: State, steps: seq<Step>, s': State, l: nat)
    requires cfg.Valid() && After(cfg, s, steps) == Some(s') && FreshChannels(cfg, s) && Abandoned(s, l)
    ensures FreshChannels(cfg, s') && Abandoned(s', l) && s.lanes[l].buf <= s'.lanes[l].buf
  {
    hide Next, Enabled, FreshChannels, Abandoned;
    LaneExists(s, l);
    if steps != [] {
      var before := After(cfg, s, steps[..|steps| - 1]).value;
      StrandedForever(cfg, s, steps[..|steps| - 1], before, l);
      LaneExists(before, l);
      StepKeepsFreshChannels(cfg, before, steps[|steps| - 1]);
      StepKeepsAbandoned(cfg, before, steps[|steps| - 1], l);
    }
  }

  lemma LaneExists(s: State, l: nat)
    requires Abandoned(s, l)
    ensures l < |s.lanes|
  {
  }
}
