/** Exactly which guarantees survive further starts, failed starts and cancellations, for every number of
    workers and all buffer sizes. */
module PipelineWitness {
  import opened Market
  import opened Pipeline
  import opened PipelineOrder
  import opened PipelineProgress
  import opened PipelineCancel

  // ---------------------------------------------------------------- building runs

  const FRESH := Distributor(0, [], DistributorFree)
  const EMPTY_LANE := Lane([], [], WorkerFree)
  const NEW_READER := Reader([], true, [], ReaderFree)

  /** How many contexts were cancelled. */
  function Cancels(steps: seq<Step>): nat {
    if steps == [] then 0 else Cancels(steps[..|steps| - 1]) + if steps[|steps| - 1].Cancel? then 1 else 0
  }

  lemma Extend(cfg: Config, steps: seq<Step>, s: State, step: Step) returns (longer: seq<Step>)
    requires cfg.Valid() && Reached(cfg, steps, s) && Enabled(cfg, s, step)
    ensures longer == steps + [step] && Reached(cfg, longer, Next(cfg, s, step))
    ensures FailedStarts(longer) == FailedStarts(steps) + if step.FailedStart? then 1 else 0
    ensures Cancels(longer) == Cancels(steps) + if step.Cancel? then 1 else 0
  {
    longer := steps + [step];
    assert longer[..|steps|] == steps;
  }

  /** No further start has failed and no context been cancelled. */
  predicate SameCounts(steps: seq<Step>, longer: seq<Step>) {
    FailedStarts(longer) == FailedStarts(steps) && Cancels(longer) == Cancels(steps)
  }

  function NewChannels(n: nat): seq<Lane> {
    seq(n, _ => Lane([], [], NoWorker))
  }

  /** A start makes its channels. */
  lemma {:induction false} AllChannels(cfg: Config, steps: seq<Step>, s: State, before: seq<Lane>)
    returns (longer: seq<Step>, s': State)
    requires cfg.Valid() && Reached(cfg, steps, s) && s.starting && s.made <= cfg.workers
    requires s.lanes == before + NewChannels(s.made)
    ensures Reached(cfg, longer, s') && SameCounts(steps, longer) && s'.made == cfg.workers
    ensures s'.lanes == before + NewChannels(cfg.workers)
    ensures s' == s.(lanes := s'.lanes, pool := s'.pool, made := s'.made)
    decreases cfg.workers - s.made
  {
    hide Reached;
    longer, s' := steps, s;
    if s.made < cfg.workers {
      longer := Extend(cfg, steps, s, MakeChannel);
      var next := Next(cfg, s, MakeChannel);
      assert NewChannels(s.made + 1) == NewChannels(s.made) + [Lane([], [], NoWorker)];
      assert next.lanes == before + NewChannels(next.made);
      longer, s' := AllChannels(cfg, longer, next, before);
    }
  }

  /** A start up to the point where it succeeds or fails: a new context and new channels. */
  lemma Prepared(cfg: Config, steps: seq<Step>, s: State) returns (longer: seq<Step>, s': State)
    requires cfg.Valid() && Reached(cfg, steps, s) && !s.starting
    ensures Reached(cfg, longer, s') && SameCounts(steps, longer) && s'.starting && s'.made == cfg.workers
    ensures s'.lanes == s.lanes + NewChannels(cfg.workers)
    ensures |s'.pool| == cfg.workers && forall k :: 0 <= k < cfg.workers ==> s'.pool[k] == |s.lanes| + k
    ensures s' == s.(lanes := s'.lanes, pool := s'.pool, made := s'.made, starting := true, context := s.context + 1)
  {
    ReachedIsWellShaped(cfg, steps, s);
    hide Reached;
    longer := Extend(cfg, steps, s, NewContext);
    var mid := Next(cfg, s, NewContext);
    assert s.lanes + NewChannels(0) == s.lanes;
    longer, s' := AllChannels(cfg, longer, mid, s.lanes);
    ReachedIsWellShaped(cfg, longer, s');
  }

  /** A successful start with one input. */
  lemma StartUp(cfg: Config, steps: seq<Step>, s: State) returns (longer: seq<Step>, s': State)
    requires cfg.Valid() && Reached(cfg, steps, s) && !s.starting && s.made == 0
    ensures Reached(cfg, longer, s') && SameCounts(steps, longer)
    ensures |s'.lanes| == |s.lanes| + cfg.workers
    ensures forall l :: |s.lanes| <= l < |s'.lanes| ==> s'.lanes[l] == EMPTY_LANE
    ensures forall l :: 0 <= l < |s.lanes| ==> s'.lanes[l] == s.lanes[l]
    ensures |s'.pool| == cfg.workers && forall k :: 0 <= k < cfg.workers ==> s'.pool[k] == |s.lanes| + k
    ensures s' == s.(readers := s.readers + [NEW_READER], distributors := s.distributors + [FRESH],
                     lanes := s'.lanes, pool := s'.pool, context := s.context + 1)
  {
    var mid: State;
    longer, mid := Prepared(cfg, steps, s);
    hide Reached;
    longer := Extend(cfg, longer, mid, Start(1));
    s' := Next(cfg, mid, Start(1));
    assert seq(1, _ => Reader([], true, [], ReaderFree)) == [NEW_READER];
    assert forall l :: l in mid.pool ==> l >= |s.lanes|;
    forall l | |s.lanes| <= l < |s'.lanes|
      ensures s'.lanes[l] == EMPTY_LANE
    {
      assert mid.pool[l - |s.lanes|] == l;
    }
  }

  /** A start that fails: its channels stay without workers. */
  lemma StartFails(cfg: Config, steps: seq<Step>, s: State) returns (longer: seq<Step>, s': State)
    requires cfg.Valid() && Reached(cfg, steps, s) && !s.starting && s.made == 0
    ensures Reached(cfg, longer, s') && FailedStarts(longer) == FailedStarts(steps) + 1
    ensures Cancels(longer) == Cancels(steps)
    ensures s'.lanes == s.lanes + NewChannels(cfg.workers)
    ensures |s'.pool| == cfg.workers && s'.pool[0] == |s.lanes|
    ensures s' == s.(lanes := s'.lanes, pool := s'.pool, context := s.context + 1)
  {
    var mid: State;
    longer, mid := Prepared(cfg, steps, s);
    hide Reached;
    longer := Extend(cfg, longer, mid, FailedStart);
    s' := Next(cfg, mid, FailedStart);
  }

  lemma Arrived(cfg: Config, steps: seq<Step>, s: State, data: MarketData) returns (longer: seq<Step>, s': State)
    requires cfg.Valid() && Reached(cfg, steps, s) && s.readers != [] && s.readers[0].open && s.readers[0].queue == []
    ensures Reached(cfg, longer, s') && SameCounts(steps, longer)
    ensures s' == s.(readers := s.readers[0 := s.readers[0].(queue := [data])])
  {
    hide Reached;
    longer := Extend(cfg, steps, s, Arrive(0, data));
    s' := Next(cfg, s, Arrive(0, data));
    assert [] + [data] == [data];
  }

  lemma InputClosed(cfg: Config, steps: seq<Step>, s: State) returns (longer: seq<Step>, s': State)
    requires cfg.Valid() && Reached(cfg, steps, s) && s.readers != [] && s.readers[0].open
    ensures Reached(cfg, longer, s') && SameCounts(steps, longer)
    ensures s' == s.(readers := s.readers[0 := s.readers[0].(open := false)])
  {
    hide Reached;
    longer := Extend(cfg, steps, s, CloseInput(0));
    s' := Next(cfg, s, CloseInput(0));
  }

  /** The first reader takes the one record of its input. */
  lemma PickedUp(cfg: Config, steps: seq<Step>, s: State, data: MarketData) returns (longer: seq<Step>, s': State)
    requires cfg.Valid() && Reached(cfg, steps, s) && s.readers != [] && s.readers[0].st.ReaderFree?
    requires s.readers[0].queue == [data]
    ensures Reached(cfg, longer, s') && SameCounts(steps, longer)
    ensures
      var rd := s.readers[0];
      s' == s.(readers := s.readers[0 := Reader([], rd.open, rd.received + [data],
                                                Received(Item(0, |rd.received|, -1, data)))])
  {
    hide Reached;
    longer := Extend(cfg, steps, s, ReaderEnter(0));
    var s1 := Next(cfg, s, ReaderEnter(0));
    assert [data][1..] == [];
    longer := Extend(cfg, longer, s1, ReaderTake(0));
    s' := Next(cfg, s1, ReaderTake(0));
    assert s1.readers[0 := s'.readers[0]] == s.readers[0 := s'.readers[0]];
  }

  /** ... and forwards the record in its hand. */
  lemma Forwarded(cfg: Config, steps: seq<Step>, s: State) returns (longer: seq<Step>, s': State)
    requires cfg.Valid() && Reached(cfg, steps, s) && s.readers != [] && s.readers[0].st.Received? && s.aggregate == []
    ensures Reached(cfg, longer, s') && SameCounts(steps, longer)
    ensures s' == s.(readers := s.readers[0 := s.readers[0].(st := ReaderFree)], aggregate := [s.readers[0].st.item])
  {
    hide Reached;
    longer := Extend(cfg, steps, s, ReaderEnter(0));
    var s1 := Next(cfg, s, ReaderEnter(0));
    assert [] + [s.readers[0].st.item] == [s.readers[0].st.item];
    longer := Extend(cfg, longer, s1, ReaderSend(0));
    s' := Next(cfg, s1, ReaderSend(0));
    assert s1.readers[0 := s'.readers[0]] == s.readers[0 := s'.readers[0]];
  }

  lemma UpdateTwice(ds: seq<Distributor>, d: nat, x: Distributor, y: Distributor)
    requires d < |ds|
    ensures ds[d := x][d := y] == ds[d := y]
  {
  }

  /** A distributor takes the one record of the aggregated channel. */
  lemma TakenUp(cfg: Config, steps: seq<Step>, s: State, d: nat) returns (longer: seq<Step>, s': State)
    requires cfg.Valid() && Reached(cfg, steps, s) && d < |s.distributors| && s.distributors[d] == FRESH
    requires |s.aggregate| == 1
    ensures Reached(cfg, longer, s') && SameCounts(steps, longer)
    ensures s' == s.(aggregate := [],
                     distributors := s.distributors[d := FRESH.(st := Taken(s.aggregate[0].(via := d)))])
  {
    hide Reached;
    longer := Extend(cfg, steps, s, DistributorEnter(d));
    var s1 := Next(cfg, s, DistributorEnter(d));
    assert s.aggregate[1..] == [];
    longer := Extend(cfg, longer, s1, DistributorTake(d));
    s' := Next(cfg, s1, DistributorTake(d));
    assert s'.distributors == s.distributors[d := FRESH.(st := Taken(s.aggregate[0].(via := d)))];
  }

  /** ... and waits to send it on. */
  lemma Offered(cfg: Config, steps: seq<Step>, s: State, d: nat) returns (longer: seq<Step>, s': State)
    requires cfg.Valid() && Reached(cfg, steps, s) && d < |s.distributors| && s.distributors[d] == FRESH
    requires |s.aggregate| == 1 && |s.pool| > 0
    ensures Reached(cfg, longer, s') && SameCounts(steps, longer)
    ensures
      var offering := Offering(s.aggregate[0].(via := d), s.pool[0], s.context);
      s' == s.(aggregate := [], distributors := s.distributors[d := FRESH.(st := offering)])
  {
    hide Reached;
    var item, ds := s.aggregate[0].(via := d), s.distributors;
    var s1: State;
    longer, s1 := TakenUp(cfg, steps, s, d);
    var taken, chosen := FRESH.(st := Taken(item)), FRESH.(st := Chosen(item, s.pool[0]));
    UpdateTwice(ds, d, taken, chosen);
    longer := Extend(cfg, longer, s1, DistributorChoose(d));
    var s2 := Next(cfg, s1, DistributorChoose(d));
    assert s2.distributors == ds[d := chosen];
    UpdateTwice(ds, d, chosen, FRESH.(st := Offering(item, s.pool[0], s.context)));
    longer := Extend(cfg, longer, s2, DistributorEnter(d));
    s' := Next(cfg, s2, DistributorEnter(d));
  }

  /** The offered record goes into its worker channel. */
  lemma Sent(cfg: Config, steps: seq<Step>, s: State, d: nat) returns (longer: seq<Step>, s': State)
    requires cfg.Valid() && Reached(cfg, steps, s) && d < |s.distributors| && s.distributors[d].st.Offering?
    requires s.distributors[d].st.lane < |s.lanes| && s.lanes[s.distributors[d].st.lane].buf == []
    ensures Reached(cfg, longer, s') && SameCounts(steps, longer)
    ensures
      var l := s.distributors[d].st.lane;
      s' == s.(distributors := s.distributors[d := Resolved(cfg, s.distributors[d], true)],
               lanes := s.lanes[l := s.lanes[l].(buf := [s.distributors[d].st.item])])
  {
    hide Reached;
    assert [] + DistributorHand(s.distributors[d]) == [s.distributors[d].st.item];
    longer := Extend(cfg, steps, s, DistributorSend(d));
    s' := Next(cfg, s, DistributorSend(d));
  }

  /** The worker takes the record of its channel. */
  lemma TakenByWorker(cfg: Config, steps: seq<Step>, s: State, l: nat) returns (longer: seq<Step>, s': State, out: Item)
    requires cfg.Valid() && Reached(cfg, steps, s) && l < |s.lanes| && s.lanes[l].st.WorkerFree?
    requires |s.lanes[l].buf| == 1
    ensures Reached(cfg, longer, s') && SameCounts(steps, longer)
    ensures out == s.lanes[l].buf[0].(data := out.data)
    ensures s' == s.(lanes := s.lanes[l := Lane([], s.lanes[l].out, Processed(out))])
  {
    hide Reached, ProcessMarketData;
    longer := Extend(cfg, steps, s, WorkerEnter(l));
    var s1 := Next(cfg, s, WorkerEnter(l));
    longer := Extend(cfg, longer, s1, WorkerTake(l, 0));
    s' := Next(cfg, s1, WorkerTake(l, 0));
    out := s'.lanes[l].st.item;
    assert s.lanes[l].buf[1..] == [];
    assert s'.lanes == s.lanes[l := Lane([], s.lanes[l].out, Processed(out))];
  }

  /** The worker publishes the record in its hand and the consumer takes it. */
  lemma HandedOver(cfg: Config, steps: seq<Step>, s: State, l: nat) returns (longer: seq<Step>, s': State)
    requires cfg.Valid() && Reached(cfg, steps, s) && l < |s.lanes| && s.lanes[l].st.Processed? && s.result == []
    ensures Reached(cfg, longer, s') && SameCounts(steps, longer)
    ensures s' == s.(lanes := s.lanes[l := s.lanes[l].(out := s.lanes[l].out + [s.lanes[l].st.item], st := WorkerFree)],
                     consumed := s.consumed + [s.lanes[l].st.item])
  {
    hide Reached;
    var out := s.lanes[l].st.item;
    longer := Extend(cfg, steps, s, WorkerEnter(l));
    var s1 := Next(cfg, s, WorkerEnter(l));
    longer := Extend(cfg, longer, s1, WorkerSend(l));
    var s2 := Next(cfg, s1, WorkerSend(l));
    assert s2.lanes == s.lanes[l := s.lanes[l].(out := s.lanes[l].out + [out], st := WorkerFree)];
    assert s2.result == [out] && [out][1..] == [];
    longer := Extend(cfg, longer, s2, Consume);
    s' := Next(cfg, s2, Consume);
  }

  lemma Published(cfg: Config, steps: seq<Step>, s: State, l: nat) returns (longer: seq<Step>, s': State, out: Item)
    requires cfg.Valid() && Reached(cfg, steps, s) && l < |s.lanes| && s.lanes[l].st.WorkerFree?
    requires |s.lanes[l].buf| == 1 && s.result == []
    ensures Reached(cfg, longer, s') && SameCounts(steps, longer)
    ensures out == s.lanes[l].buf[0].(data := out.data)
    ensures s' ==
      s.(lanes := s.lanes[l := Lane([], s.lanes[l].out + [out], WorkerFree)], consumed := s.consumed + [out])
  {
    hide Reached;
    var s1: State;
    longer, s1, out := TakenByWorker(cfg, steps, s, l);
    longer, s' := HandedOver(cfg, longer, s1, l);
    assert s'.lanes == s.lanes[l := Lane([], s.lanes[l].out + [out], WorkerFree)];
  }

  lemma NothingDone(cfg: Config)
    requires cfg.Valid()
    ensures Reached(cfg, [], INITIAL)
  {
  }

  // ---------------------------------------------------------------- order and the number of starts

  /** Every worker has published every input's records in the input's order. */
  ghost predicate WorkersInOrder(s: State) {
    forall l, i, j ::
      && 0 <= l < |s.lanes| && 0 <= i < j < |s.lanes[l].out|
      && s.lanes[l].out[i].src == s.lanes[l].out[j].src ==>
        s.lanes[l].out[i].idx < s.lanes[l].out[j].idx
  }

  ghost predicate OrderedUpTo(cfg: Config, starts: nat)
    requires cfg.Valid()
  {
    forall steps: seq<Step>, s: State :: Reached(cfg, steps, s) && Starts(steps) <= starts ==> WorkersInOrder(s)
  }

  /** Two records have come in when the service is stopped for its second start: one in the reader's hand,
      one in the input. */
  lemma TwoLeftOver(cfg: Config, a: MarketData, b: MarketData) returns (steps: seq<Step>, s: State)
    requires cfg.Valid()
    ensures Reached(cfg, steps, s) && !s.starting && s.made == 0
    ensures s.readers == [Reader([b], false, [a], Received(Item(0, 0, -1, a)))]
    ensures s.aggregate == [] && s.result == [] && s.distributors == [FRESH] && |s.lanes| == cfg.workers
  {
    hide Reached;
    NothingDone(cfg);
    steps, s := StartUp(cfg, [], INITIAL);
    assert s.readers == [NEW_READER] && s.distributors == [FRESH];
    steps, s := Arrived(cfg, steps, s, a);
    steps, s := PickedUp(cfg, steps, s, a);
    assert [] + [a] == [a];
    steps, s := Arrived(cfg, steps, s, b);
    steps, s := InputClosed(cfg, steps, s);
  }

  /** After it each distributor holds one of the two, bound for the same channel. */
  lemma BothOffered(cfg: Config, a: MarketData, b: MarketData) returns (steps: seq<Step>, s: State)
    requires cfg.Valid()
    ensures Reached(cfg, steps, s) && s.result == [] && |s.distributors| == 2 && cfg.workers < |s.lanes|
    ensures s.lanes[cfg.workers] == EMPTY_LANE
    ensures s.distributors[0].st.Offering? && s.distributors[0].st.item == Item(0, 0, 0, a)
    ensures s.distributors[0].st.lane == cfg.workers
    ensures s.distributors[1].st.Offering? && s.distributors[1].st.item == Item(0, 1, 1, b)
    ensures s.distributors[1].st.lane == cfg.workers
  {
    hide Reached;
    steps, s := TwoLeftOver(cfg, a, b);
    steps, s := StartUp(cfg, steps, s);
    assert s.distributors == [FRESH, FRESH];
    steps, s := Forwarded(cfg, steps, s);
    steps, s := Offered(cfg, steps, s, 0);
    steps, s := PickedUp(cfg, steps, s, b);
    steps, s := Forwarded(cfg, steps, s);
    steps, s := Offered(cfg, steps, s, 1);
  }

  /** After a second start the old and the new distributor race: the worker can publish two records of one
      input in the reverse of their order. */
  lemma TwoStartsCanReverse(cfg: Config, a: MarketData, b: MarketData) returns (steps: seq<Step>, s: State)
    requires cfg.Valid()
    ensures Reached(cfg, steps, s) && Starts(steps) == 2 && !WorkersInOrder(s)
  {
    hide Reached, Resolved;
    var l, x, y := cfg.workers, Item(0, 0, 0, a), Item(0, 0, 0, a);
    steps, s := BothOffered(cfg, a, b);
    steps, s := Sent(cfg, steps, s, 1);
    steps, s, y := Published(cfg, steps, s, l);
    steps, s := Sent(cfg, steps, s, 0);
    steps, s, x := Published(cfg, steps, s, l);
    assert s.lanes[l].out[0] == y && s.lanes[l].out[1] == x;
    assert y.src == x.src == 0 && y.idx == 1 && x.idx == 0;
    OneDistributorPerStart(cfg, steps, s);
  }

  /** Runs with at most n successful starts keep every worker's output in input order exactly when n is
      at most one, whatever the number of workers and the sizes of the buffers. */
  lemma OrderedIffOneStart(cfg: Config, n: nat)
    requires cfg.Valid()
    ensures OrderedUpTo(cfg, n) <==> n <= 1
  {
    hide Reached;
    if n <= 1 {
      forall steps: seq<Step>, s: State | Reached(cfg, steps, s) && Starts(steps) <= n
        ensures WorkersInOrder(s)
      {
        forall l, i, j |
          && 0 <= l < |s.lanes| && 0 <= i < j < |s.lanes[l].out|
          && s.lanes[l].out[i].src == s.lanes[l].out[j].src
          ensures s.lanes[l].out[i].idx < s.lanes[l].out[j].idx
        {
          SingleStartKeepsInputOrder(cfg, steps, s, l, i, j);
        }
      }
    } else {
      var d := MarketData("", 1.0, 0, "");
      var steps, s := TwoStartsCanReverse(cfg, d, d);
    }
  }

  // ---------------------------------------------------------------- draining and failed starts

  /** Uncancelled runs in which nothing can move have nothing left upstream of the result channel. */
  ghost predicate DrainsUpTo(cfg: Config, failures: nat)
    requires cfg.Valid()
  {
    forall steps: seq<Step>, s: State ::
      Reached(cfg, steps, s) && FailedStarts(steps) <= failures && s.dead == {} && !s.starting && !CanMove(cfg, s) ==>
        !Attended(s) && !Stranded(s)
  }

  /** A record left in its input when a start fails is forwarded by its reader afterwards. */
  lemma LeftOver(cfg: Config, a: MarketData) returns (steps: seq<Step>, s: State)
    requires cfg.Valid()
    ensures Reached(cfg, steps, s) && FailedStarts(steps) == 1 && s.dead == {} && !s.starting && s.made == 0
    ensures cfg.workers < |s.lanes| && s.lanes[cfg.workers] == Lane([], [], NoWorker)
    ensures forall l :: 0 <= l < |s.lanes| ==> s.lanes[l].buf == [] && !WorkerHas(s.lanes[l])
    ensures s.readers == [Reader([], false, [a], ReaderFree)] && s.aggregate == [Item(0, 0, -1, a)]
    ensures s.distributors == [FRESH] && |s.pool| > 0 && s.pool[0] == cfg.workers
  {
    hide Reached;
    NothingDone(cfg);
    steps, s := StartUp(cfg, [], INITIAL);
    assert s.readers == [NEW_READER] && s.distributors == [FRESH];
    steps, s := Arrived(cfg, steps, s, a);
    steps, s := InputClosed(cfg, steps, s);
    steps, s := StartFails(cfg, steps, s);
    steps, s := PickedUp(cfg, steps, s, a);
    assert [] + [a] == [a];
    steps, s := Forwarded(cfg, steps, s);
  }

  /** The old distributor sends it to a channel of the failed start. */
  lemma LeftBehind(cfg: Config, a: MarketData) returns (steps: seq<Step>, s: State)
    requires cfg.Valid()
    ensures Reached(cfg, steps, s) && FailedStarts(steps) == 1 && s.dead == {} && !s.starting && s.made == 0
    ensures cfg.workers < |s.lanes| && s.lanes[cfg.workers] == Lane([Item(0, 0, 0, a)], [], NoWorker)
    ensures forall l :: 0 <= l < |s.lanes| && l != cfg.workers ==> s.lanes[l].buf == [] && !WorkerHas(s.lanes[l])
    ensures s.readers == [Reader([], false, [a], ReaderFree)] && s.aggregate == []
    ensures |s.distributors| == 1 && !DistributorHas(s.distributors[0])
  {
    hide Reached, Next, Enabled;
    steps, s := LeftOver(cfg, a);
    steps, s := Offered(cfg, steps, s, 0);
    steps, s := Sent(cfg, steps, s, 0);
  }

  /** When a start fails, the surviving distributor can send a left-over record to a channel nobody reads:
      nothing can move any more and the record never leaves, whatever happens next. */
  lemma FailedStartStrands(cfg: Config, a: MarketData) returns (steps: seq<Step>, s: State)
    requires cfg.Valid()
    ensures Reached(cfg, steps, s) && FailedStarts(steps) == 1 && s.dead == {} && !s.starting
    ensures Stranded(s) && !CanMove(cfg, s)
    ensures forall more: seq<Step>, s' :: After(cfg, s, more) == Some(s') ==> Stranded(s')
  {
    hide Reached, CanMove;
    steps, s := LeftBehind(cfg, a);
    var l := cfg.workers;
    assert s.lanes[l].st.NoWorker? && s.lanes[l].buf != [];
    assert !Attended(s);
    CanMoveIffAttended(cfg, steps, s);
    ReachedIsWellShaped(cfg, steps, s);
    hide After, FreshChannels, Attended, InRange, WithinCapacity;
    forall more: seq<Step>, s' | After(cfg, s, more) == Some(s')
      ensures Stranded(s')
    {
      StrandedForever(cfg, s, more, s', l);
    }
  }

  /** Draining an uncancelled run with at most n failed starts never sticks exactly when n is zero. */
  lemma DrainsIffNoFailedStart(cfg: Config, n: nat)
    requires cfg.Valid()
    ensures DrainsUpTo(cfg, n) <==> n == 0
  {
    hide Reached, CanMove, Attended, Stranded;
    if n == 0 {
      forall steps: seq<Step>, s: State |
        Reached(cfg, steps, s) && FailedStarts(steps) <= n && s.dead == {} && !s.starting && !CanMove(cfg, s)
        ensures !Attended(s) && !Stranded(s)
      {
        DrainingNeverSticks(cfg, steps, s);
      }
    } else {
      var steps, s := FailedStartStrands(cfg, MarketData("", 1.0, 0, ""));
    }
  }

  // ---------------------------------------------------------------- draining and cancellations

  /** Runs without failed starts and with so many cancellations, in which nothing can move, have nothing
      left upstream of the result channel. */
  ghost predicate DrainsThrough(cfg: Config, cancellations: nat)
    requires cfg.Valid()
  {
    forall steps: seq<Step>, s: State ::
      && Reached(cfg, steps, s) && FailedStarts(steps) == 0 && Cancels(steps) <= cancellations
      && !s.starting && !CanMove(cfg, s) ==>
        !Attended(s) && !Stranded(s)
  }

  lemma {:induction false} NoCancelNobodyDead(cfg: Config, steps: seq<Step>, s: State)
    requires cfg.Valid() && Reached(cfg, steps, s) && Cancels(steps) == 0
    ensures s.dead == {}
  {
    if steps != [] {
      var before, step := LastStep(cfg, steps, s);
      NoCancelNobodyDead(cfg, steps[..|steps| - 1], before);
      CancelsOnlyAdd(cfg, before, step);
    }
  }

  /** The first reader waits in its select, watching the current context, and that is cancelled. */
  lemma ReaderCancelled(cfg: Config, steps: seq<Step>, s: State) returns (longer: seq<Step>, s': State)
    requires cfg.Valid() && Reached(cfg, steps, s) && s.readers != [] && s.readers[0].st.ReaderFree?
    ensures Reached(cfg, longer, s') && FailedStarts(longer) == FailedStarts(steps)
    ensures Cancels(longer) == Cancels(steps) + 1
    ensures s' == s.(readers := s.readers[0 := s.readers[0].(st := ReaderDone)], dead := s.dead + {s.context})
  {
    hide Reached;
    longer := Extend(cfg, steps, s, ReaderEnter(0));
    var s1 := Next(cfg, s, ReaderEnter(0));
    longer := Extend(cfg, longer, s1, Cancel(s.context));
    var s2 := Next(cfg, s1, Cancel(s.context));
    longer := Extend(cfg, longer, s2, ReaderCancel(0));
    s' := Next(cfg, s2, ReaderCancel(0));
    assert s'.readers == s.readers[0 := s.readers[0].(st := ReaderDone)];
    assert s.cancelled + [] == s.cancelled;
  }

  /** One start, then its context is cancelled and its reader returns with a record in the input. */
  lemma CancelledReaderLeavesRecord(cfg: Config, a: MarketData) returns (steps: seq<Step>, s: State)
    requires cfg.Valid()
    ensures Reached(cfg, steps, s) && FailedStarts(steps) == 0 && Cancels(steps) == 1 && !s.starting
    ensures s.readers == [Reader([a], true, [], ReaderDone)] && s.aggregate == [] && s.distributors == [FRESH]
    ensures forall l :: 0 <= l < |s.lanes| ==> s.lanes[l] == EMPTY_LANE
  {
    hide Reached;
    NothingDone(cfg);
    steps, s := StartUp(cfg, [], INITIAL);
    assert s.readers == [NEW_READER] && s.distributors == [FRESH];
    steps, s := Arrived(cfg, steps, s, a);
    steps, s := ReaderCancelled(cfg, steps, s);
  }

  /** Draining runs without failed starts and with at most n cancellations never sticks exactly when n is
      zero. */
  lemma DrainsIffNoCancellation(cfg: Config, n: nat)
    requires cfg.Valid()
    ensures DrainsThrough(cfg, n) <==> n == 0
  {
    hide Reached, Stranded;
    if n == 0 {
      forall steps: seq<Step>, s: State |
        && Reached(cfg, steps, s) && FailedStarts(steps) == 0 && Cancels(steps) <= n
        && !s.starting && !CanMove(cfg, s)
        ensures !Attended(s) && !Stranded(s)
      {
        NoCancelNobodyDead(cfg, steps, s);
        DrainingNeverSticks(cfg, steps, s);
      }
    } else {
      var steps, s := CancelledReaderLeavesRecord(cfg, MarketData("", 1.0, 0, ""));
      assert Attended(s) by {
        assert s.readers[0].queue != [];
      }
      assert !CanMove(cfg, s);
    }
  }

  /** A worker enters its select, the service is started again and the new context cancelled. */
  lemma OldWorkerWaiting(cfg: Config) returns (steps: seq<Step>, s: State)
    requires cfg.Valid()
    ensures Reached(cfg, steps, s) && Cancels(steps) == 1 && s.context == 2 && s.dead == {2} && !s.starting
    ensures s.distributors == [FRESH, FRESH] && |s.lanes| > 0 && s.lanes[0] == Lane([], [], Idle(1)) && 0 !in s.pool
  {
    hide Reached, Next, Enabled;
    NothingDone(cfg);
    steps, s := StartUp(cfg, [], INITIAL);
    assert s.readers == [NEW_READER] && s.distributors == [FRESH];
    steps, s := WorkerWaiting(cfg, steps, s, 0);
    steps, s := InputClosed(cfg, steps, s);
    steps, s := StartUp(cfg, steps, s);
    assert s.distributors == [FRESH, FRESH];
    steps, s := ContextCancelled(cfg, steps, s);
  }

  lemma WorkerWaiting(cfg: Config, steps: seq<Step>, s: State, l: nat) returns (longer: seq<Step>, s': State)
    requires cfg.Valid() && Reached(cfg, steps, s) && l < |s.lanes| && s.lanes[l] == EMPTY_LANE
    ensures Reached(cfg, longer, s') && SameCounts(steps, longer)
    ensures s' == s.(lanes := s.lanes[l := Lane([], [], Idle(s.context))])
  {
    longer := Extend(cfg, steps, s, WorkerEnter(l));
    s' := Next(cfg, s, WorkerEnter(l));
  }

  lemma ContextCancelled(cfg: Config, steps: seq<Step>, s: State) returns (longer: seq<Step>, s': State)
    requires cfg.Valid() && Reached(cfg, steps, s)
    ensures Reached(cfg, longer, s') && Cancels(longer) == Cancels(steps) + 1
    ensures s' == s.(dead := s.dead + {s.context})
  {
    longer := Extend(cfg, steps, s, Cancel(s.context));
    s' := Next(cfg, s, Cancel(s.context));
  }

  /** After a switch whose context is cancelled when it returns, an idle worker of the first start waits on
      its empty channel for good, until the first context is cancelled. */
  lemma SwitchLeavesWorkerWaiting(cfg: Config) returns (steps: seq<Step>, s: State)
    requires cfg.Valid()
    ensures Reached(cfg, steps, s) && Starts(steps) == 2 && Cancels(steps) == 1 && s.context in s.dead && !s.starting
    ensures WaitsForever(s, 0) && !CanReturn(cfg, s, TheWorker(0))
    ensures forall more: seq<Step>, s' :: After(cfg, s, more) == Some(s') && Cancel(1) !in more ==> WaitsForever(s', 0)
  {
    hide Reached, CanReturn, After;
    steps, s := OldWorkerWaiting(cfg);
    OneDistributorPerStart(cfg, steps, s);
    WorkerCanReturnIff(cfg, steps, s, 0);
    forall more: seq<Step>, s' | After(cfg, s, more) == Some(s') && Cancel(1) !in more
      ensures WaitsForever(s', 0)
    {
      WaitingForever(cfg, s, more, s', 0);
    }
  }
}
