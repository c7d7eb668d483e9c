/** Every record received is at exactly one place, unaltered but for validation. */
module PipelineConservation {
  import opened Market
  import opened Pipeline

  // ---------------------------------------------------------------- counting

  /** The idx-th record received by reader src. */
  datatype Ticket = Ticket(src: nat, idx: nat)

  predicate Has(x: Item, t: Ticket) {
    x.src == t.src && x.idx == t.idx
  }

  function Count(xs: seq<Item>, t: Ticket): nat {
    if xs == [] then 0 else Count(xs[..|xs| - 1], t) + if Has(xs[|xs| - 1], t) then 1 else 0
  }

  lemma {:induction false} CountConcat(xs: seq<Item>, ys: seq<Item>, t: Ticket)
    ensures Count(xs + ys, t) == Count(xs, t) + Count(ys, t)
  {
    if ys == [] {
      assert xs + ys == xs;
    } else {
      CountConcat(xs, ys[..|ys| - 1], t);
      assert (xs + ys)[..|xs + ys| - 1] == xs + ys[..|ys| - 1];
    }
  }

  lemma CountOne(x: Item, t: Ticket)
    ensures Count([x], t) == if Has(x, t) then 1 else 0
  {
    assert [x][..0] == [];
  }

  lemma CountTail(xs: seq<Item>, t: Ticket)
    requires xs != []
    ensures Count(xs, t) == Count(xs[1..], t) + if Has(xs[0], t) then 1 else 0
  {
    assert xs == [xs[0]] + xs[1..];
    CountConcat([xs[0]], xs[1..], t);
    CountOne(xs[0], t);
  }

  function CountAll(xss: seq<seq<Item>>, t: Ticket): nat {
    if xss == [] then 0 else CountAll(xss[..|xss| - 1], t) + Count(xss[|xss| - 1], t)
  }

  lemma {:induction false} CountAllUpdate(xss: seq<seq<Item>>, i: nat, ys: seq<Item>, t: Ticket)
    requires i < |xss|
    ensures CountAll(xss[i := ys], t) + Count(xss[i], t) == CountAll(xss, t) + Count(ys, t)
  {
    var n := |xss| - 1;
    if i < n {
      CountAllUpdate(xss[..n], i, ys, t);
      assert xss[i := ys][..n] == xss[..n][i := ys];
    } else {
      assert xss[i := ys][..n] == xss[..n];
    }
  }

  /** Adding places that hold nothing changes no count. */
  lemma {:induction false} CountAllPadded(xss: seq<seq<Item>>, empties: seq<seq<Item>>, t: Ticket)
    requires forall i :: 0 <= i < |empties| ==> empties[i] == []
    ensures CountAll(xss + empties, t) == CountAll(xss, t)
  {
    if empties == [] {
      assert xss + empties == xss;
    } else {
      var n := |empties| - 1;
      CountAllPadded(xss, empties[..n], t);
      assert (xss + empties)[..|xss| + n] == xss + empties[..n];
    }
  }

  // ---------------------------------------------------------------- places

  /** A worker channel with the record its worker holds. */
  function LaneItems(l: Lane): seq<Item> {
    WorkerHand(l) + l.buf
  }

  function ReaderPlaces(readers: seq<Reader>): seq<seq<Item>> {
    seq(|readers|, i requires 0 <= i < |readers| => ReaderHand(readers[i]))
  }

  function DistributorPlaces(ds: seq<Distributor>): seq<seq<Item>> {
    seq(|ds|, i requires 0 <= i < |ds| => DistributorHand(ds[i]))
  }

  function LanePlaces(lanes: seq<Lane>): seq<seq<Item>> {
    seq(|lanes|, i requires 0 <= i < |lanes| => LaneItems(lanes[i]))
  }

  /** How many places hold the ticket: hands, buffers, the consumer and the two drop ledgers. */
  function Occurrences(s: State, t: Ticket): nat {
    CountAll(ReaderPlaces(s.readers), t) + Count(s.aggregate, t) + CountAll(DistributorPlaces(s.distributors), t)
    + CountAll(LanePlaces(s.lanes), t) + Count(s.result, t) + Count(s.consumed, t)
    + Count(s.timedOut, t) + Count(s.cancelled, t)
  }

  predicate WasReceived(s: State, t: Ticket) {
    t.src < |s.readers| && t.idx < |s.readers[t.src].received|
  }

  ghost predicate Conserved(s: State, t: Ticket) {
    Occurrences(s, t) == if WasReceived(s, t) then 1 else 0
  }

  // ---------------------------------------------------------------- one component changes

  lemma ReaderChanges(readers: seq<Reader>, i: nat, r: Reader, t: Ticket)
    requires i < |readers|
    ensures CountAll(ReaderPlaces(readers[i := r]), t) + Count(ReaderHand(readers[i]), t)
         == CountAll(ReaderPlaces(readers), t) + Count(ReaderHand(r), t)
  {
    assert ReaderPlaces(readers[i := r]) == ReaderPlaces(readers)[i := ReaderHand(r)];
    CountAllUpdate(ReaderPlaces(readers), i, ReaderHand(r), t);
  }

  lemma DistributorChanges(ds: seq<Distributor>, i: nat, d: Distributor, t: Ticket)
    requires i < |ds|
    ensures CountAll(DistributorPlaces(ds[i := d]), t) + Count(DistributorHand(ds[i]), t)
         == CountAll(DistributorPlaces(ds), t) + Count(DistributorHand(d), t)
  {
    assert DistributorPlaces(ds[i := d]) == DistributorPlaces(ds)[i := DistributorHand(d)];
    CountAllUpdate(DistributorPlaces(ds), i, DistributorHand(d), t);
  }

  lemma LaneChanges(lanes: seq<Lane>, i: nat, l: Lane, t: Ticket)
    requires i < |lanes|
    ensures CountAll(LanePlaces(lanes[i := l]), t) + Count(WorkerHand(lanes[i]), t) + Count(lanes[i].buf, t)
         == CountAll(LanePlaces(lanes), t) + Count(WorkerHand(l), t) + Count(l.buf, t)
  {
    assert LanePlaces(lanes[i := l]) == LanePlaces(lanes)[i := LaneItems(l)];
    CountAllUpdate(LanePlaces(lanes), i, LaneItems(l), t);
    CountConcat(WorkerHand(lanes[i]), lanes[i].buf, t);
    CountConcat(WorkerHand(l), l.buf, t);
  }

  // ---------------------------------------------------------------- steps

  lemma EmptyReadersAdded(readers: seq<Reader>, n: nat, t: Ticket)
    ensures CountAll(ReaderPlaces(readers + seq(n, _ => Reader([], true, [], ReaderFree))), t) ==
      CountAll(ReaderPlaces(readers), t)
  {
    var empties: seq<seq<Item>> := seq(n, _ => []);
    assert ReaderPlaces(readers + seq(n, _ => Reader([], true, [], ReaderFree))) == ReaderPlaces(readers) + empties;
    CountAllPadded(ReaderPlaces(readers), empties, t);
  }

  lemma EmptyDistributorAdded(ds: seq<Distributor>, t: Ticket)
    ensures CountAll(DistributorPlaces(ds + [Distributor(0, [], DistributorFree)]), t) ==
      CountAll(DistributorPlaces(ds), t)
  {
    assert DistributorPlaces(ds + [Distributor(0, [], DistributorFree)]) == DistributorPlaces(ds) + [[]];
    CountAllPadded(DistributorPlaces(ds), [[]], t);
  }

  lemma EmptyLaneAdded(lanes: seq<Lane>, t: Ticket)
    ensures CountAll(LanePlaces(lanes + [Lane([], [], NoWorker)]), t) == CountAll(LanePlaces(lanes), t)
  {
    assert LanePlaces(lanes + [Lane([], [], NoWorker)]) == LanePlaces(lanes) + [[]];
    CountAllPadded(LanePlaces(lanes), [[]], t);
  }

  /** New workers hold nothing yet. */
  lemma StaffingMovesNothing(lanes: seq<Lane>, pool: seq<nat>)
    ensures LanePlaces(Staffed(lanes, pool)) == LanePlaces(lanes)
  {
  }

  lemma StartConserves(cfg: Config, s: State, step: Step, t: Ticket)
    requires cfg.Valid() && Enabled(cfg, s, step) && StartStep(step)
    ensures Occurrences(Next(cfg, s, step), t) == Occurrences(s, t)
  {
    if step.MakeChannel? {
      EmptyLaneAdded(s.lanes, t);
    }
    if step.Start? {
      StaffingMovesNothing(s.lanes, s.pool);
      EmptyReadersAdded(s.readers, step.inputs, t);
      EmptyDistributorAdded(s.distributors, t);
    }
  }

  /** Taking a record adds an occurrence, the one of the record just received. */
  lemma ReaderTakeConserves(cfg: Config, s: State, r: nat, t: Ticket)
    requires cfg.Valid() && Enabled(cfg, s, ReaderTake(r))
    ensures Occurrences(Next(cfg, s, ReaderTake(r)), t) == Occurrences(s, t) +
            if t == Ticket(r, |s.readers[r].received|) then 1 else 0
  {
    var reader := Next(cfg, s, ReaderTake(r)).readers[r];
    ReaderChanges(s.readers, r, reader, t);
    CountOne(reader.st.item, t);
  }

  /** The steps of inputs and of the fan-in that leave a reader's hand alone. */
  lemma ReaderWaitConserves(cfg: Config, s: State, step: Step, t: Ticket)
    requires cfg.Valid() && Enabled(cfg, s, step) && (InputStep(step) || step.ReaderEnter? || step.ReaderEnd?)
    ensures Occurrences(Next(cfg, s, step), t) == Occurrences(s, t)
  {
    var r := step.reader;
    ReaderChanges(s.readers, r, Next(cfg, s, step).readers[r], t);
  }

  lemma ReaderSendConserves(cfg: Config, s: State, r: nat, t: Ticket)
    requires cfg.Valid() && Enabled(cfg, s, ReaderSend(r))
    ensures Occurrences(Next(cfg, s, ReaderSend(r)), t) == Occurrences(s, t)
  {
    ReaderChanges(s.readers, r, s.readers[r].(st := ReaderFree), t);
    CountConcat(s.aggregate, ReaderHand(s.readers[r]), t);
  }

  lemma ReaderTimeoutConserves(cfg: Config, s: State, r: nat, t: Ticket)
    requires cfg.Valid() && Enabled(cfg, s, ReaderTimeout(r))
    ensures Occurrences(Next(cfg, s, ReaderTimeout(r)), t) == Occurrences(s, t)
  {
    ReaderChanges(s.readers, r, s.readers[r].(st := ReaderFree), t);
    CountConcat(s.timedOut, ReaderHand(s.readers[r]), t);
  }

  lemma ReaderCancelConserves(cfg: Config, s: State, r: nat, t: Ticket)
    requires cfg.Valid() && Enabled(cfg, s, ReaderCancel(r))
    ensures Occurrences(Next(cfg, s, ReaderCancel(r)), t) == Occurrences(s, t)
  {
    ReaderChanges(s.readers, r, s.readers[r].(st := ReaderDone), t);
    CountConcat(s.cancelled, ReaderHand(s.readers[r]), t);
  }

  lemma DispatchConserves(cfg: Config, s: State, d: nat, t: Ticket)
    requires cfg.Valid() && Enabled(cfg, s, DistributorSend(d))
    ensures Occurrences(Next(cfg, s, DistributorSend(d)), t) == Occurrences(s, t)
  {
    var s' := Next(cfg, s, DistributorSend(d));
    var l := s.distributors[d].st.lane;
    DistributorChanges(s.distributors, d, s'.distributors[d], t);
    LaneChanges(s.lanes, l, s'.lanes[l], t);
    CountConcat(s.lanes[l].buf, DistributorHand(s.distributors[d]), t);
  }

  lemma DistributorTakeConserves(cfg: Config, s: State, d: nat, t: Ticket)
    requires cfg.Valid() && Enabled(cfg, s, DistributorTake(d))
    ensures Occurrences(Next(cfg, s, DistributorTake(d)), t) == Occurrences(s, t)
  {
    var dist := Next(cfg, s, DistributorTake(d)).distributors[d];
    DistributorChanges(s.distributors, d, dist, t);
    CountTail(s.aggregate, t);
    CountOne(dist.st.item, t);
    assert DistributorHand(dist) == [dist.st.item] && DistributorHand(s.distributors[d]) == [];
    hide Count, CountAll, DistributorPlaces, LanePlaces, ReaderPlaces;
  }

  lemma DistributorWaitConserves(cfg: Config, s: State, step: Step, t: Ticket)
    requires cfg.Valid() && Enabled(cfg, s, step) && (step.DistributorEnter? || step.DistributorChoose?)
    ensures Occurrences(Next(cfg, s, step), t) == Occurrences(s, t)
  {
    var d := step.dist;
    DistributorChanges(s.distributors, d, Next(cfg, s, step).distributors[d], t);
  }

  lemma DistributorTimeoutConserves(cfg: Config, s: State, d: nat, t: Ticket)
    requires cfg.Valid() && Enabled(cfg, s, DistributorTimeout(d))
    ensures Occurrences(Next(cfg, s, DistributorTimeout(d)), t) == Occurrences(s, t)
  {
    DistributorChanges(s.distributors, d, Resolved(cfg, s.distributors[d], false), t);
    CountConcat(s.timedOut, DistributorHand(s.distributors[d]), t);
  }

  lemma DistributorCancelConserves(cfg: Config, s: State, d: nat, t: Ticket)
    requires cfg.Valid() && Enabled(cfg, s, DistributorCancel(d))
    ensures Occurrences(Next(cfg, s, DistributorCancel(d)), t) == Occurrences(s, t)
  {
    DistributorChanges(s.distributors, d, s.distributors[d].(st := DistributorDone), t);
    CountConcat(s.cancelled, DistributorHand(s.distributors[d]), t);
  }

  lemma WorkerTakeConserves(cfg: Config, s: State, l: nat, now: int, t: Ticket)
    requires cfg.Valid() && Enabled(cfg, s, WorkerTake(l, now))
    ensures Occurrences(Next(cfg, s, WorkerTake(l, now)), t) == Occurrences(s, t)
  {
    hide ProcessMarketData;
    var lane := Next(cfg, s, WorkerTake(l, now)).lanes[l];
    LaneChanges(s.lanes, l, lane, t);
    CountTail(s.lanes[l].buf, t);
    CountOne(lane.st.item, t);
    assert WorkerHand(lane) == [lane.st.item] && WorkerHand(s.lanes[l]) == [];
  }

  lemma WorkerEnterConserves(cfg: Config, s: State, l: nat, t: Ticket)
    requires cfg.Valid() && Enabled(cfg, s, WorkerEnter(l))
    ensures Occurrences(Next(cfg, s, WorkerEnter(l)), t) == Occurrences(s, t)
  {
    LaneChanges(s.lanes, l, WorkerWaits(s.lanes[l], s.context), t);
  }

  lemma WorkerSendConserves(cfg: Config, s: State, l: nat, t: Ticket)
    requires cfg.Valid() && Enabled(cfg, s, WorkerSend(l))
    ensures Occurrences(Next(cfg, s, WorkerSend(l)), t) == Occurrences(s, t)
  {
    var lane := s.lanes[l];
    LaneChanges(s.lanes, l, lane.(out := lane.out + WorkerHand(lane), st := WorkerFree), t);
    CountConcat(s.result, WorkerHand(lane), t);
  }

  /** A record held by a worker goes into a ledger. */
  lemma WorkerDropConserves(cfg: Config, s: State, step: Step, t: Ticket)
    requires cfg.Valid() && Enabled(cfg, s, step) && (step.WorkerTimeout? || step.WorkerCancel?)
    ensures Occurrences(Next(cfg, s, step), t) == Occurrences(s, t)
  {
    var lane := s.lanes[step.lane];
    LaneChanges(s.lanes, step.lane, lane.(st := if step.WorkerTimeout? then WorkerFree else WorkerDone), t);
    CountConcat(s.timedOut, WorkerHand(lane), t);
    CountConcat(s.cancelled, WorkerHand(lane), t);
  }

  lemma ConsumeConserves(cfg: Config, s: State, t: Ticket)
    requires cfg.Valid() && Enabled(cfg, s, Consume)
    ensures Occurrences(Next(cfg, s, Consume), t) == Occurrences(s, t)
  {
    CountTail(s.result, t);
    CountConcat(s.consumed, [s.result[0]], t);
    CountOne(s.result[0], t);
  }

  /** Only a reader's taking a record makes it a received one. */
  lemma ReceivedAfter(cfg: Config, s: State, step: Step, t: Ticket)
    requires cfg.Valid() && Enabled(cfg, s, step)
    ensures WasReceived(Next(cfg, s, step), t) <==>
            WasReceived(s, t) || (step.ReaderTake? && t == Ticket(step.reader, |s.readers[step.reader].received|))
    ensures step.ReaderTake? ==> !WasReceived(s, Ticket(step.reader, |s.readers[step.reader].received|))
  {
    hide ProcessMarketData, Resolved, Staffed;
  }

  /** Steps of distributors and workers move no record in or out of the count. */
  lemma LateStepConserves(cfg: Config, s: State, step: Step, t: Ticket)
    requires cfg.Valid() && Enabled(cfg, s, step) && !EarlyStep(step)
    ensures Occurrences(Next(cfg, s, step), t) == Occurrences(s, t)
  {
    hide Next, Enabled, Occurrences;
    if step.DistributorSend? {
      DispatchConserves(cfg, s, step.dist, t);
    } else if step.DistributorTake? {
      DistributorTakeConserves(cfg, s, step.dist, t);
    } else if step.DistributorTimeout? {
      DistributorTimeoutConserves(cfg, s, step.dist, t);
    } else if step.DistributorCancel? {
      DistributorCancelConserves(cfg, s, step.dist, t);
    } else if DistributorStep(step) {
      DistributorWaitConserves(cfg, s, step, t);
    } else if step.WorkerTake? {
      WorkerTakeConserves(cfg, s, step.lane, step.now, t);
    } else if step.WorkerEnter? {
      WorkerEnterConserves(cfg, s, step.lane, t);
    } else if step.WorkerSend? {
      WorkerSendConserves(cfg, s, step.lane, t);
    } else {
      WorkerDropConserves(cfg, s, step, t);
    }
  }

  lemma CancelConserves(cfg: Config, s: State, c: nat, t: Ticket)
    requires cfg.Valid() && Enabled(cfg, s, Cancel(c))
    ensures Occurrences(Next(cfg, s, Cancel(c)), t) == Occurrences(s, t)
  {
  }

  lemma StepConserves(cfg: Config, s: State, step: Step, t: Ticket)
    requires cfg.Valid() && Enabled(cfg, s, step) && Conserved(s, t)
    ensures Conserved(Next(cfg, s, step), t)
  {
    ReceivedAfter(cfg, s, step, t);
    hide WasReceived, Next, Enabled, Occurrences;
    if !EarlyStep(step) {
      LateStepConserves(cfg, s, step, t);
    } else if StartStep(step) {
      StartConserves(cfg, s, step, t);
    } else if step.ReaderTake? {
      ReaderTakeConserves(cfg, s, step.reader, t);
    } else if InputStep(step) || step.ReaderEnter? || step.ReaderEnd? {
      ReaderWaitConserves(cfg, s, step, t);
    } else if step.ReaderSend? {
      ReaderSendConserves(cfg, s, step.reader, t);
    } else if step.ReaderTimeout? {
      ReaderTimeoutConserves(cfg, s, step.reader, t);
    } else if step.ReaderCancel? {
      ReaderCancelConserves(cfg, s, step.reader, t);
    } else if step.Consume? {
      ConsumeConserves(cfg, s, t);
    } else {
      CancelConserves(cfg, s, step.context, t);
    }
  }

  /** Over every run, starts and failed starts included, each record received is at exactly one
      place and nothing else is anywhere. */
  lemma {:induction false} Conservation(cfg: Config, steps: seq<Step>, s: State, t: Ticket)
    requires cfg.Valid() && Reached(cfg, steps, s)
    ensures Conserved(s, t)
  {
    if steps != [] {
      var before, step := LastStep(cfg, steps, s);
      Conservation(cfg, steps[..|steps| - 1], before, t);
      StepConserves(cfg, before, step, t);
    }
  }

  // ---------------------------------------------------------------- payloads

  ghost predicate Raw(readers: seq<Reader>, x: Item) {
    x.src < |readers| && x.idx < |readers[x.src].received| && x.data == readers[x.src].received[x.idx]
  }

  ghost predicate Validated(readers: seq<Reader>, x: Item) {
    x.src < |readers| && x.idx < |readers[x.src].received| && ProcessedFrom(x.data, readers[x.src].received[x.idx])
  }

  ghost predicate AllRaw(readers: seq<Reader>, xs: seq<Item>) {
    forall x :: x in xs ==> Raw(readers, x)
  }

  ghost predicate AllValidated(readers: seq<Reader>, xs: seq<Item>) {
    forall x :: x in xs ==> Validated(readers, x)
  }

  /** Before the worker a record is what was received; after it, that record validated. */
  ghost predicate PayloadsKept(s: State) {
    && (forall r :: 0 <= r < |s.readers| ==> AllRaw(s.readers, ReaderHand(s.readers[r])))
    && AllRaw(s.readers, s.aggregate)
    && (forall d :: 0 <= d < |s.distributors| ==> AllRaw(s.readers, DistributorHand(s.distributors[d])))
    && (forall l :: 0 <= l < |s.lanes| ==> LaneKept(s.readers, s.lanes[l]))
    && AllValidated(s.readers, s.result)
    && AllValidated(s.readers, s.consumed)
  }

  ghost predicate LaneKept(readers: seq<Reader>, l: Lane) {
    AllRaw(readers, l.buf) && AllValidated(readers, WorkerHand(l)) && AllValidated(readers, l.out)
  }

  ghost predicate LogsGrow(before: seq<Reader>, after: seq<Reader>) {
    && |before| <= |after|
    && forall r :: 0 <= r < |before| ==> before[r].received <= after[r].received
  }

  lemma LogsOnlyGrow(cfg: Config, s: State, step: Step)
    requires cfg.Valid() && Enabled(cfg, s, step)
    ensures LogsGrow(s.readers, Next(cfg, s, step).readers)
  {
  }

  /** Growing the logs of received records falsifies nothing said about records in flight. */
  lemma GrowthKeeps(before: seq<Reader>, after: seq<Reader>)
    requires LogsGrow(before, after)
    ensures forall xs :: AllRaw(before, xs) ==> AllRaw(after, xs)
    ensures forall xs :: AllValidated(before, xs) ==> AllValidated(after, xs)
    ensures forall l :: LaneKept(before, l) ==> LaneKept(after, l)
  {
    hide ProcessedFrom;
    assert forall x :: Raw(before, x) ==> Raw(after, x);
    assert forall x :: Validated(before, x) ==> Validated(after, x);
  }

  lemma ReaderKeepsPayloads(cfg: Config, s: State, step: Step)
    requires cfg.Valid() && Enabled(cfg, s, step) && PayloadsKept(s) && (InputStep(step) || ReaderStep(step))
    ensures PayloadsKept(Next(cfg, s, step))
  {
    var s', r := Next(cfg, s, step), step.reader;
    LogsOnlyGrow(cfg, s, step);
    GrowthKeeps(s.readers, s'.readers);
    assert AllRaw(s'.readers, ReaderHand(s'.readers[r]));
    assert AllRaw(s'.readers, s'.aggregate) by {
      assert AllRaw(s.readers, ReaderHand(s.readers[r]));
    }
    hide AllRaw, AllValidated, LaneKept, ReaderHand, LogsGrow;
  }

  lemma DistributorKeepsPayloads(cfg: Config, s: State, step: Step)
    requires cfg.Valid() && Enabled(cfg, s, step) && PayloadsKept(s) && DistributorStep(step) && !step.DistributorSend?
    ensures PayloadsKept(Next(cfg, s, step))
  {
    hide ProcessedFrom, Validated;
    var s', d := Next(cfg, s, step), step.dist;
    assert AllRaw(s.readers, DistributorHand(s.distributors[d]));
    if step.DistributorTake? {
      assert s.aggregate[0] in s.aggregate;
      assert Raw(s.readers, s.aggregate[0].(via := d));
    }
    assert AllRaw(s.readers, DistributorHand(s'.distributors[d]));
    assert AllRaw(s.readers, s'.aggregate);
    hide AllRaw, AllValidated, LaneKept, DistributorHand, Resolved;
  }

  lemma DispatchKeepsPayloads(cfg: Config, s: State, d: nat)
    requires cfg.Valid() && Enabled(cfg, s, DistributorSend(d)) && PayloadsKept(s)
    ensures PayloadsKept(Next(cfg, s, DistributorSend(d)))
  {
    hide ProcessedFrom, Raw, Validated;
    var s', l := Next(cfg, s, DistributorSend(d)), s.distributors[d].st.lane;
    assert AllRaw(s.readers, DistributorHand(s.distributors[d])) && LaneKept(s.readers, s.lanes[l]);
    assert LaneKept(s.readers, s'.lanes[l]);
    assert DistributorHand(s'.distributors[d]) == [];
    assert AllRaw(s.readers, []);
    hide AllRaw, AllValidated, LaneKept, DistributorHand, Resolved;
  }

  lemma WorkerKeepsPayloads(cfg: Config, s: State, step: Step)
    requires cfg.Valid() && Enabled(cfg, s, step) && PayloadsKept(s) && WorkerStep(step)
    ensures PayloadsKept(Next(cfg, s, step))
  {
    hide ProcessMarketData, ProcessedFrom;
    var s', l := Next(cfg, s, step), step.lane;
    assert LaneKept(s.readers, s.lanes[l]);
    if step.WorkerTake? {
      TakenIsValidated(s.readers, s.lanes[l].buf[0], step.now);
    }
    hide Raw, Validated;
    assert LaneKept(s.readers, s'.lanes[l]);
    assert AllValidated(s.readers, s'.result);
    hide AllRaw, AllValidated, LaneKept, WorkerHand;
  }

  lemma TakenIsValidated(readers: seq<Reader>, x: Item, now: int)
    requires Raw(readers, x)
    ensures Validated(readers, x.(data := ProcessMarketData(x.data, now)))
  {
    hide ProcessMarketData;
    assert ProcessedFrom(ProcessMarketData(x.data, now), x.data);
  }

  lemma ConsumeKeepsPayloads(cfg: Config, s: State)
    requires cfg.Valid() && Enabled(cfg, s, Consume) && PayloadsKept(s)
    ensures PayloadsKept(Next(cfg, s, Consume))
  {
    hide Raw, Validated;
    assert s.result[0] in s.result;
  }

  lemma StartKeepsPayloads(cfg: Config, s: State, step: Step)
    requires cfg.Valid() && Enabled(cfg, s, step) && PayloadsKept(s) && StartStep(step)
    ensures PayloadsKept(Next(cfg, s, step))
  {
    var s' := Next(cfg, s, step);
    LogsOnlyGrow(cfg, s, step);
    GrowthKeeps(s.readers, s'.readers);
    hide Raw, Validated, LogsGrow;
    assert AllRaw(s'.readers, []) && AllValidated(s'.readers, []);
    forall l | 0 <= l < |s'.lanes|
      ensures LaneKept(s'.readers, s'.lanes[l])
    {
      if l < |s.lanes| {
        assert LaneKept(s.readers, s.lanes[l]);
        assert WorkerHand(s'.lanes[l]) == WorkerHand(s.lanes[l]);
      }
    }
    hide AllRaw, AllValidated, LaneKept;
  }

  lemma StepKeepsPayloads(cfg: Config, s: State, step: Step)
    requires cfg.Valid() && Enabled(cfg, s, step) && PayloadsKept(s)
    ensures PayloadsKept(Next(cfg, s, step))
  {
    assert step.Cancel? ==> Next(cfg, s, step) == s.(dead := s.dead + {step.context});
    CancelKeepsPayloads(s, s.dead + if step.Cancel? then {step.context} else {});
    hide PayloadsKept, Next, Enabled;
    if StartStep(step) {
      StartKeepsPayloads(cfg, s, step);
    } else if InputStep(step) || ReaderStep(step) {
      ReaderKeepsPayloads(cfg, s, step);
    } else if step.DistributorSend? {
      DispatchKeepsPayloads(cfg, s, step.dist);
    } else if DistributorStep(step) {
      DistributorKeepsPayloads(cfg, s, step);
    } else if WorkerStep(step) {
      WorkerKeepsPayloads(cfg, s, step);
    } else if step.Consume? {
      ConsumeKeepsPayloads(cfg, s);
    }
  }

  lemma CancelKeepsPayloads(s: State, dead: set<nat>)
    requires PayloadsKept(s)
    ensures PayloadsKept(s.(dead := dead))
  {
  }

  lemma {:induction false} PayloadsAlwaysKept(cfg: Config, steps: seq<Step>, s: State)
    requires cfg.Valid() && Reached(cfg, steps, s)
    ensures PayloadsKept(s)
  {
    if steps != [] {
      var before, step := LastStep(cfg, steps, s);
      PayloadsAlwaysKept(cfg, steps[..|steps| - 1], before);
      StepKeepsPayloads(cfg, before, step);
    }
  }

  // ---------------------------------------------------------------- timestamps

  /** The worker of channel l took a record at some moment of the run when its clock showed now. */
  ghost predicate TookAt(steps: seq<Step>, l: nat, now: int) {
    exists g :: 0 <= g < |steps| && steps[g] == WorkerTake(l, now)
  }

  /** x is the record received, but for a timestamp that was missing: a supported record with a price then
      has that of the worker's clock when it took the record. */
  ghost predicate AsReceived(steps: seq<Step>, readers: seq<Reader>, l: nat, x: Item) {
    && x.src < |readers| && x.idx < |readers[x.src].received|
    && var raw := readers[x.src].received[x.idx];
       if raw.timestamp == 0 && Supported(raw) then
         x.data == raw.(timestamp := x.data.timestamp) && TookAt(steps, l, x.data.timestamp)
       else x.data == raw
  }

  /** What a worker holds and has published after a step: what it did before, or the record it just took. */
  lemma WorkerItemsAfter(cfg: Config, s: State, step: Step, l: nat, x: Item)
    requires cfg.Valid() && Enabled(cfg, s, step) && l < |Next(cfg, s, step).lanes|
    requires x in WorkerHand(Next(cfg, s, step).lanes[l]) + Next(cfg, s, step).lanes[l].out
    ensures
      || (l < |s.lanes| && x in WorkerHand(s.lanes[l]) + s.lanes[l].out)
      || (step.WorkerTake? && step.lane == l && l < |s.lanes| && s.lanes[l].buf != []
          && x == s.lanes[l].buf[0].(data := ProcessMarketData(s.lanes[l].buf[0].data, step.now)))
  {
    hide ProcessMarketData, Resolved;
  }

  lemma StaysAsReceived(earlier: seq<Step>, steps: seq<Step>, before: seq<Reader>, after: seq<Reader>, l: nat, x: Item)
    requires earlier <= steps && LogsGrow(before, after) && AsReceived(earlier, before, l, x)
    ensures AsReceived(steps, after, l, x)
  {
    assert forall now :: TookAt(earlier, l, now) ==> TookAt(steps, l, now);
  }

  lemma TakenAsReceived(steps: seq<Step>, before: seq<Reader>, after: seq<Reader>, l: nat, taken: Item, now: int)
    requires Raw(before, taken) && LogsGrow(before, after) && TookAt(steps, l, now)
    ensures AsReceived(steps, after, l, taken.(data := ProcessMarketData(taken.data, now)))
  {
    OnlyMissingStamps(taken.data, now);
    hide ProcessMarketData, TookAt;
  }

  /** Over every run: whatever a worker has published, or holds, is what was received, but for a missing
      timestamp of a supported record with a price, which is the worker's clock. */
  lemma {:induction false} PublishedAsReceived(cfg: Config, steps: seq<Step>, s: State, l: nat, x: Item)
    requires cfg.Valid() && Reached(cfg, steps, s)
    requires l < |s.lanes| && x in WorkerHand(s.lanes[l]) + s.lanes[l].out
    ensures AsReceived(steps, s.readers, l, x)
  {
    hide Next, Enabled, ProcessMarketData, AsReceived, LogsGrow, Raw;
    var before, step := LastStep(cfg, steps, s);
    var earlier := steps[..|steps| - 1];
    WorkerItemsAfter(cfg, before, step, l, x);
    LogsOnlyGrow(cfg, before, step);
    if l < |before.lanes| && x in WorkerHand(before.lanes[l]) + before.lanes[l].out {
      PublishedAsReceived(cfg, earlier, before, l, x);
      StaysAsReceived(earlier, steps, before.readers, s.readers, l, x);
    } else {
      PayloadsAlwaysKept(cfg, earlier, before);
      assert LaneKept(before.readers, before.lanes[l]);
      assert steps[|earlier|] == WorkerTake(l, step.now);
      TakenAsReceived(steps, before.readers, s.readers, l, before.lanes[l].buf[0], step.now);
    }
  }

  // ---------------------------------------------------------------- drained runs

  /** Nothing is left anywhere between the input channels and the consumer. */
  predicate Drained(s: State) {
    && (forall r :: 0 <= r < |s.readers| ==> s.readers[r].queue == [] && ReaderHand(s.readers[r]) == [])
    && s.aggregate == [] && s.result == []
    && (forall d :: 0 <= d < |s.distributors| ==> DistributorHand(s.distributors[d]) == [])
    && (forall l :: 0 <= l < |s.lanes| ==> LaneItems(s.lanes[l]) == [])
  }

  /** When nothing timed out or was cancelled, a drained run has delivered every received record
      exactly once and nothing else, each validated from what was received. */
  lemma DrainedDeliversEverything(cfg: Config, steps: seq<Step>, s: State)
    requires cfg.Valid() && Reached(cfg, steps, s) && Drained(s)
    requires s.timedOut == [] && s.cancelled == []
    ensures forall t :: Count(s.consumed, t) == if WasReceived(s, t) then 1 else 0
    ensures forall x :: x in s.consumed ==> Validated(s.readers, x)
  {
    PayloadsAlwaysKept(cfg, steps, s);
    forall t
      ensures Count(s.consumed, t) == if WasReceived(s, t) then 1 else 0
    {
      Conservation(cfg, steps, s, t);
      CountAllPadded([], ReaderPlaces(s.readers), t);
      CountAllPadded([], DistributorPlaces(s.distributors), t);
      CountAllPadded([], LanePlaces(s.lanes), t);
      assert [] + ReaderPlaces(s.readers) == ReaderPlaces(s.readers);
      assert [] + DistributorPlaces(s.distributors) == DistributorPlaces(s.distributors);
      assert [] + LanePlaces(s.lanes) == LanePlaces(s.lanes);
    }
  }
}
