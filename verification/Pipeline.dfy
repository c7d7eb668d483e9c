/** The market-data pipeline of the exchange service as a transition system: fan-in readers, the
    aggregated channel, round-robin distributors, worker channels and workers, the result channel.
    A start makes a new context, then replaces the worker channels one by one; starting again (a mode
    switch) leaves the earlier distributors and workers running. A goroutine watches the context that is
    current when it enters a select, for as long as it waits there. */
module Pipeline {
  import opened Market

  /** Number of workers per start and the buffer sizes of the four kinds of channel (in the service 15,
      100, 1000, 100 and 1000). */
  datatype Config = Config(workers: nat, inputCap: nat, aggregateCap: nat, workerCap: nat, resultCap: nat) {
    predicate Valid() {
      workers > 0 && inputCap > 0 && aggregateCap > 0 && workerCap > 0 && resultCap > 0
    }
  }

  /** A record in flight, tagged with the reader that received it, its position in that reader's
      input, and the distributor that took it (-1 before). The tags are bookkeeping. */
  datatype Item = Item(src: nat, idx: nat, via: int, data: MarketData)

  /** A fan-in goroutine about to enter its receiving select, waiting in it, about to enter its sending
      select, waiting in that, or returned. */
  datatype ReaderState =
    | ReaderFree | Receiving(watch: nat) | Received(item: Item) | Forwarding(item: Item, watch: nat) | ReaderDone

  /** One fan-in goroutine with its input channel and the log of everything it received. */
  datatype Reader = Reader(queue: seq<MarketData>, open: bool, received: seq<MarketData>, st: ReaderState)

  /** Likewise; between receiving a record and waiting to send it a distributor looks up the worker
      channel it will offer the record to. */
  datatype DistributorState =
    | DistributorFree | Taking(watch: nat)
    | Taken(item: Item) | Chosen(item: Item, lane: nat) | Offering(item: Item, lane: nat, watch: nat)
    | DistributorDone

  /** A resolved dispatch: which record was offered to which worker channel, and whether it was sent there
      or dropped by the timeout. */
  datatype Offer = Offer(src: nat, idx: nat, lane: nat, sent: bool)

  /** A distributor with its round-robin index and the log of its resolved dispatches. */
  datatype Distributor = Distributor(workerIndex: nat, offers: seq<Offer>, st: DistributorState)

  /** NoWorker: nothing reads the channel, because the start that made it has not got further yet, or
      has failed. */
  datatype WorkerState =
    | NoWorker | WorkerFree | Idle(watch: nat) | Processed(item: Item) | Publishing(item: Item, watch: nat) | WorkerDone

  /** A worker channel, its worker, and the log of what that worker published. */
  datatype Lane = Lane(buf: seq<Item>, out: seq<Item>, st: WorkerState)

  datatype State = State(
    readers: seq<Reader>,
    aggregate: seq<Item>,
    distributors: seq<Distributor>,
    lanes: seq<Lane>,
    pool: seq<nat>,           // the worker channels distributors currently send to
    starting: bool,           // a start is in progress
    made: nat,                // how many worker channels it has replaced so far
    context: nat,             // the current context; starts number them
    dead: set<nat>,           // the contexts that have been cancelled
    result: seq<Item>,
    consumed: seq<Item>,
    timedOut: seq<Item>,      // dropped by a send timeout
    cancelled: seq<Item>)     // in the hand of a goroutine that saw its context cancelled

  const INITIAL := State([], [], [], [], [], false, 0, 0, {}, [], [], [], [])

  datatype Step =
    // the surroundings
    | NewContext
    | MakeChannel
    | Start(inputs: nat)
    | FailedStart
    | Arrive(reader: nat, record: MarketData)
    | CloseInput(reader: nat)
    | Cancel(context: nat)
    | Consume
    // fan-in goroutines
    | ReaderEnter(reader: nat)
    | ReaderTake(reader: nat)
    | ReaderSend(reader: nat)
    | ReaderTimeout(reader: nat)
    | ReaderCancel(reader: nat)
    | ReaderEnd(reader: nat)
    // distributors
    | DistributorEnter(dist: nat)
    | DistributorTake(dist: nat)
    | DistributorChoose(dist: nat)
    | DistributorSend(dist: nat)
    | DistributorTimeout(dist: nat)
    | DistributorCancel(dist: nat)
    // workers
    | WorkerEnter(lane: nat)
    | WorkerTake(lane: nat, now: int)
    | WorkerSend(lane: nat)
    | WorkerTimeout(lane: nat)
    | WorkerCancel(lane: nat)

  predicate StartStep(step: Step) {
    step.NewContext? || step.MakeChannel? || step.Start? || step.FailedStart?
  }

  predicate InputStep(step: Step) {
    step.Arrive? || step.CloseInput?
  }

  predicate ReaderStep(step: Step) {
    step.ReaderEnter? || step.ReaderTake? || step.ReaderSend? || step.ReaderTimeout? || step.ReaderCancel?
      || step.ReaderEnd?
  }

  predicate DistributorStep(step: Step) {
    || step.DistributorEnter? || step.DistributorTake? || step.DistributorChoose?
    || step.DistributorSend? || step.DistributorTimeout? || step.DistributorCancel?
  }

  predicate WorkerStep(step: Step) {
    step.WorkerEnter? || step.WorkerTake? || step.WorkerSend? || step.WorkerTimeout? || step.WorkerCancel?
  }

  /** The goroutine waits in a select whose context has been cancelled. */
  predicate ReaderSeesCancel(s: State, r: Reader) {
    (r.st.Receiving? || r.st.Forwarding?) && r.st.watch in s.dead
  }

  predicate DistributorSeesCancel(s: State, d: Distributor) {
    (d.st.Taking? || d.st.Offering?) && d.st.watch in s.dead
  }

  predicate WorkerSeesCancel(s: State, l: Lane) {
    (l.st.Idle? || l.st.Publishing?) && l.st.watch in s.dead
  }

  predicate Enabled(cfg: Config, s: State, step: Step) {
    match step
    case NewContext => !s.starting
    case MakeChannel => s.starting && s.made < cfg.workers
    case Start(inputs) => s.starting && s.made == cfg.workers && inputs > 0
    case FailedStart => s.starting && s.made == cfg.workers
    case Arrive(r, _) => r < |s.readers| && s.readers[r].open && |s.readers[r].queue| < cfg.inputCap
    case CloseInput(r) => r < |s.readers| && s.readers[r].open
    case Cancel(c) => c <= s.context
    case Consume => s.result != []
    case ReaderEnter(r) => r < |s.readers| && (s.readers[r].st.ReaderFree? || s.readers[r].st.Received?)
    case ReaderTake(r) => r < |s.readers| && s.readers[r].st.Receiving? && s.readers[r].queue != []
    case ReaderSend(r) => r < |s.readers| && s.readers[r].st.Forwarding? && |s.aggregate| < cfg.aggregateCap
    case ReaderTimeout(r) => r < |s.readers| && s.readers[r].st.Forwarding?
    case ReaderCancel(r) => r < |s.readers| && ReaderSeesCancel(s, s.readers[r])
    case ReaderEnd(r) => r < |s.readers| && s.readers[r].st.Receiving? && s.readers[r].queue == [] && !s.readers[r].open
    case DistributorEnter(d) =>
      d < |s.distributors| && (s.distributors[d].st.DistributorFree? || s.distributors[d].st.Chosen?)
    case DistributorTake(d) => d < |s.distributors| && s.distributors[d].st.Taking? && s.aggregate != []
    case DistributorChoose(d) =>
      d < |s.distributors| && s.distributors[d].st.Taken? && s.distributors[d].workerIndex < |s.pool|
    case DistributorSend(d) =>
      && d < |s.distributors| && s.distributors[d].st.Offering? && s.distributors[d].st.lane < |s.lanes|
      && |s.lanes[s.distributors[d].st.lane].buf| < cfg.workerCap
    case DistributorTimeout(d) => d < |s.distributors| && s.distributors[d].st.Offering?
    case DistributorCancel(d) => d < |s.distributors| && DistributorSeesCancel(s, s.distributors[d])
    case WorkerEnter(l) => l < |s.lanes| && (s.lanes[l].st.WorkerFree? || s.lanes[l].st.Processed?)
    case WorkerTake(l, _) => l < |s.lanes| && s.lanes[l].st.Idle? && s.lanes[l].buf != []
    case WorkerSend(l) => l < |s.lanes| && s.lanes[l].st.Publishing? && |s.result| < cfg.resultCap
    case WorkerTimeout(l) => l < |s.lanes| && s.lanes[l].st.Publishing?
    case WorkerCancel(l) => l < |s.lanes| && WorkerSeesCancel(s, s.lanes[l])
  }

  // ---------------------------------------------------------------- what goroutines hold

  predicate ReaderHas(r: Reader) {
    r.st.Received? || r.st.Forwarding?
  }

  predicate DistributorHas(d: Distributor) {
    d.st.Taken? || d.st.Chosen? || d.st.Offering?
  }

  predicate WorkerHas(l: Lane) {
    l.st.Processed? || l.st.Publishing?
  }

  function ReaderHand(r: Reader): seq<Item> {
    if ReaderHas(r) then [r.st.item] else []
  }

  function DistributorHand(d: Distributor): seq<Item> {
    if DistributorHas(d) then [d.st.item] else []
  }

  function WorkerHand(l: Lane): seq<Item> {
    if WorkerHas(l) then [l.st.item] else []
  }

  // ---------------------------------------------------------------- steps

  /** The pool with its next entry replaced by a channel; the first start fills it. */
  function WithChannel(pool: seq<nat>, made: nat, lane: nat): seq<nat> {
    if made < |pool| then pool[made := lane] else pool + [lane]
  }

  /** A worker for every channel of the pool. */
  function Staffed(lanes: seq<Lane>, pool: seq<nat>): seq<Lane> {
    seq(|lanes|, l requires 0 <= l < |lanes| =>
      if l in pool && lanes[l].st.NoWorker? then lanes[l].(st := WorkerFree) else lanes[l])
  }

  /** The dispatch of a distributor has been decided, by a send or by a timeout: next worker. */
  function Resolved(cfg: Config, d: Distributor, sent: bool): Distributor
    requires cfg.Valid() && d.st.Offering?
  {
    var offer := Offer(d.st.item.src, d.st.item.idx, d.st.lane, sent);
    Distributor((d.workerIndex + 1) % cfg.workers, d.offers + [offer], DistributorFree)
  }

  /** Entering a select: the goroutine watches the context that is current now. */
  function ReaderWaits(r: Reader, context: nat): Reader {
    r.(st := if r.st.Received? then Forwarding(r.st.item, context) else Receiving(context))
  }

  function DistributorWaits(d: Distributor, context: nat): Distributor {
    d.(st := if d.st.Chosen? then Offering(d.st.item, d.st.lane, context) else Taking(context))
  }

  function WorkerWaits(l: Lane, context: nat): Lane {
    l.(st := if l.st.Processed? then Publishing(l.st.item, context) else Idle(context))
  }

  function Next(cfg: Config, s: State, step: Step): State
    requires cfg.Valid() && Enabled(cfg, s, step)
  {
    match step
    case NewContext =>
      s.(context := s.context + 1, starting := true)
    case MakeChannel =>
      s.(lanes := s.lanes + [Lane([], [], NoWorker)], pool := WithChannel(s.pool, s.made, |s.lanes|),
         made := s.made + 1)
    case Start(inputs) =>
      s.(readers := s.readers + seq(inputs, _ => Reader([], true, [], ReaderFree)),
         distributors := s.distributors + [Distributor(0, [], DistributorFree)],
         lanes := Staffed(s.lanes, s.pool),
         starting := false,
         made := 0)
    case FailedStart =>
      s.(starting := false, made := 0)
    case Arrive(r, record) =>
      s.(readers := s.readers[r := s.readers[r].(queue := s.readers[r].queue + [record])])
    case CloseInput(r) =>
      s.(readers := s.readers[r := s.readers[r].(open := false)])
    case Cancel(c) =>
      s.(dead := s.dead + {c})
    case Consume =>
      s.(result := s.result[1..], consumed := s.consumed + [s.result[0]])
    case ReaderEnter(r) =>
      s.(readers := s.readers[r := ReaderWaits(s.readers[r], s.context)])
    case ReaderTake(r) =>
      var rd := s.readers[r];
      var item := Item(r, |rd.received|, -1, rd.queue[0]);
      s.(readers := s.readers[r := Reader(rd.queue[1..], rd.open, rd.received + [rd.queue[0]], Received(item))])
    case ReaderSend(r) =>
      s.(readers := s.readers[r := s.readers[r].(st := ReaderFree)],
         aggregate := s.aggregate + ReaderHand(s.readers[r]))
    case ReaderTimeout(r) =>
      s.(readers := s.readers[r := s.readers[r].(st := ReaderFree)], timedOut := s.timedOut + ReaderHand(s.readers[r]))
    case ReaderCancel(r) =>
      s.(readers := s.readers[r := s.readers[r].(st := ReaderDone)],
         cancelled := s.cancelled + ReaderHand(s.readers[r]))
    case ReaderEnd(r) =>
      s.(readers := s.readers[r := s.readers[r].(st := ReaderDone)])
    case DistributorEnter(d) =>
      s.(distributors := s.distributors[d := DistributorWaits(s.distributors[d], s.context)])
    case DistributorTake(d) =>
      var dist := s.distributors[d];
      s.(aggregate := s.aggregate[1..],
         distributors := s.distributors[d := dist.(st := Taken(s.aggregate[0].(via := d)))])
    case DistributorChoose(d) =>
      var dist := s.distributors[d];
      s.(distributors := s.distributors[d := dist.(st := Chosen(dist.st.item, s.pool[dist.workerIndex]))])
    case DistributorSend(d) =>
      var dist := s.distributors[d];
      var lane := s.lanes[dist.st.lane];
      s.(distributors := s.distributors[d := Resolved(cfg, dist, true)],
         lanes := s.lanes[dist.st.lane := lane.(buf := lane.buf + DistributorHand(dist))])
    case DistributorTimeout(d) =>
      s.(distributors := s.distributors[d := Resolved(cfg, s.distributors[d], false)],
         timedOut := s.timedOut + DistributorHand(s.distributors[d]))
    case DistributorCancel(d) =>
      s.(distributors := s.distributors[d := s.distributors[d].(st := DistributorDone)],
         cancelled := s.cancelled + DistributorHand(s.distributors[d]))
    case WorkerEnter(l) =>
      s.(lanes := s.lanes[l := WorkerWaits(s.lanes[l], s.context)])
    case WorkerTake(l, now) =>
      var lane := s.lanes[l];
      var item := lane.buf[0].(data := ProcessMarketData(lane.buf[0].data, now));
      s.(lanes := s.lanes[l := lane.(buf := lane.buf[1..], st := Processed(item))])
    case WorkerSend(l) =>
      var lane := s.lanes[l];
      s.(lanes := s.lanes[l := lane.(out := lane.out + WorkerHand(lane), st := WorkerFree)],
         result := s.result + WorkerHand(lane))
    case WorkerTimeout(l) =>
      s.(lanes := s.lanes[l := s.lanes[l].(st := WorkerFree)], timedOut := s.timedOut + WorkerHand(s.lanes[l]))
    case WorkerCancel(l) =>
      s.(lanes := s.lanes[l := s.lanes[l].(st := WorkerDone)], cancelled := s.cancelled + WorkerHand(s.lanes[l]))
  }

  // ---------------------------------------------------------------- runs

  /** The state a list of steps leads to from s, if each is enabled in its turn. */
  function After(cfg: Config, s: State, steps: seq<Step>): Option<State>
    requires cfg.Valid()
  {
    if steps == [] then Some(s)
    else
      var before := After(cfg, s, steps[..|steps| - 1]);
      var step := steps[|steps| - 1];
      if before.Some? && Enabled(cfg, before.value, step) then Some(Next(cfg, before.value, step)) else None
  }

  /** s is reached from the initial state by these steps. */
  predicate Reached(cfg: Config, steps: seq<Step>, s: State)
    requires cfg.Valid()
  {
    After(cfg, INITIAL, steps) == Some(s)
  }

  /** The run before its last step, for proofs by induction over runs. */
  lemma LastStep(cfg: Config, steps: seq<Step>, s: State) returns (before: State, step: Step)
    requires cfg.Valid() && steps != [] && Reached(cfg, steps, s)
    ensures step == steps[|steps| - 1] && Reached(cfg, steps[..|steps| - 1], before)
    ensures Enabled(cfg, before, step) && s == Next(cfg, before, step)
  {
    before := After(cfg, INITIAL, steps[..|steps| - 1]).value;
    step := steps[|steps| - 1];
  }

  // ---------------------------------------------------------------- shape

  predicate Bound(d: Distributor) {
    d.st.Chosen? || d.st.Offering?
  }

  /** References stay in range, round-robin indexes among the workers. */
  ghost predicate InRange(cfg: Config, s: State) {
    && (s.distributors != [] ==> |s.pool| == cfg.workers)
    && (s.readers != [] ==> s.distributors != [])
    && (s.aggregate != [] ==> s.distributors != [])
    && (forall k :: 0 <= k < |s.pool| ==> s.pool[k] < |s.lanes|)
    && (forall d :: 0 <= d < |s.distributors| ==> s.distributors[d].workerIndex < cfg.workers)
    && (forall d :: 0 <= d < |s.distributors| && Bound(s.distributors[d]) ==> s.distributors[d].st.lane < |s.lanes|)
  }

  ghost predicate WithinCapacity(cfg: Config, s: State) {
    && (forall r :: 0 <= r < |s.readers| ==> |s.readers[r].queue| <= cfg.inputCap)
    && (forall l :: 0 <= l < |s.lanes| ==> |s.lanes[l].buf| <= cfg.workerCap)
    && |s.aggregate| <= cfg.aggregateCap
    && |s.result| <= cfg.resultCap
  }

  /** The channels of a start in progress are the newest, they fill the front of the pool in order, and
      nobody reads them yet. */
  ghost predicate FreshChannels(cfg: Config, s: State) {
    && s.made <= cfg.workers && s.made <= |s.pool| <= cfg.workers && s.made <= |s.lanes|
    && (!s.starting ==> s.made == 0)
    && (|s.pool| < cfg.workers ==> s.made == |s.pool|)
    && (forall k :: 0 <= k < s.made ==> s.pool[k] == |s.lanes| - s.made + k)
    && (forall l :: |s.lanes| - s.made <= l < |s.lanes| ==> s.lanes[l].st.NoWorker?)
  }

  ghost predicate WellShaped(cfg: Config, s: State) {
    InRange(cfg, s) && WithinCapacity(cfg, s) && FreshChannels(cfg, s)
  }

  lemma StepKeepsFreshChannels(cfg: Config, s: State, step: Step)
    requires cfg.Valid() && FreshChannels(cfg, s) && Enabled(cfg, s, step)
    ensures FreshChannels(cfg, Next(cfg, s, step))
  {
    hide ProcessMarketData, Resolved;
  }

  /** Steps of the surroundings and of the fan-in. */
  predicate EarlyStep(step: Step) {
    StartStep(step) || InputStep(step) || ReaderStep(step) || step.Cancel? || step.Consume?
  }

  lemma StartKeepsCapacity(cfg: Config, s: State, step: Step)
    requires cfg.Valid() && WithinCapacity(cfg, s) && Enabled(cfg, s, step) && StartStep(step)
    ensures WithinCapacity(cfg, Next(cfg, s, step))
  {
    hide WithChannel;
  }

  lemma EarlyStepKeepsCapacity(cfg: Config, s: State, step: Step)
    requires cfg.Valid() && WithinCapacity(cfg, s) && Enabled(cfg, s, step) && EarlyStep(step)
    ensures WithinCapacity(cfg, Next(cfg, s, step))
  {
    hide ProcessMarketData, WithChannel, Resolved;
    if StartStep(step) {
      StartKeepsCapacity(cfg, s, step);
    }
    hide Staffed;
  }

  lemma LateStepKeepsCapacity(cfg: Config, s: State, step: Step)
    requires cfg.Valid() && WithinCapacity(cfg, s) && Enabled(cfg, s, step) && !EarlyStep(step)
    ensures WithinCapacity(cfg, Next(cfg, s, step))
  {
    hide ProcessMarketData, WithChannel, Resolved, Staffed;
  }

  lemma EarlyStepKeepsRange(cfg: Config, s: State, step: Step)
    requires cfg.Valid() && InRange(cfg, s) && FreshChannels(cfg, s) && Enabled(cfg, s, step) && EarlyStep(step)
    ensures InRange(cfg, Next(cfg, s, step))
  {
    hide ProcessMarketData, Resolved;
  }

  lemma LateStepKeepsRange(cfg: Config, s: State, step: Step)
    requires cfg.Valid() && InRange(cfg, s) && Enabled(cfg, s, step) && !EarlyStep(step)
    ensures InRange(cfg, Next(cfg, s, step))
  {
    hide ProcessMarketData, Staffed, WithChannel;
  }

  lemma StepKeepsShape(cfg: Config, s: State, step: Step)
    requires cfg.Valid() && WellShaped(cfg, s) && Enabled(cfg, s, step)
    ensures WellShaped(cfg, Next(cfg, s, step))
  {
    StepKeepsFreshChannels(cfg, s, step);
    hide Next, Enabled, InRange, WithinCapacity, FreshChannels;
    if EarlyStep(step) {
      EarlyStepKeepsCapacity(cfg, s, step);
      EarlyStepKeepsRange(cfg, s, step);
    } else {
      LateStepKeepsCapacity(cfg, s, step);
      LateStepKeepsRange(cfg, s, step);
    }
  }

  lemma {:induction false} ReachedIsWellShaped(cfg: Config, steps: seq<Step>, s: State)
    requires cfg.Valid() && Reached(cfg, steps, s)
    ensures WellShaped(cfg, s)
  {
    if steps != [] {
      var before, step := LastStep(cfg, steps, s);
      ReachedIsWellShaped(cfg, steps[..|steps| - 1], before);
      StepKeepsShape(cfg, before, step);
    }
  }
}
