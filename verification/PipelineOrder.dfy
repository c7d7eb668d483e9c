/** Order kept along the pipeline. */
module PipelineOrder {
  import opened Market
  import opened Pipeline
  import opened PipelineConservation

  // ---------------------------------------------------------------- tracks and trails

  /** The tags of an item in flight. */
  datatype Key = Key(src: nat, idx: nat, via: int)

  function KeyOf(x: Item): Key {
    Key(x.src, x.idx, x.via)
  }

  function Keys(xs: seq<Item>): seq<Key> {
    seq(|xs|, i requires 0 <= i < |xs| => KeyOf(xs[i]))
  }

  /** Everything the worker of a channel has published, holds, and still has to read, in order. */
  function Trail(l: Lane): seq<Key> {
    Keys(l.out) + Keys(WorkerHand(l)) + Keys(l.buf)
  }

  /** Items from one input that went through one distributor keep the input's order. */
  ghost predicate Ordered(ks: seq<Key>) {
    forall i, j :: 0 <= i < j < |ks| && ks[i].src == ks[j].src && ks[i].via == ks[j].via ==> ks[i].idx < ks[j].idx
  }

  ghost predicate AllBefore(ks: seq<Key>, k: Key) {
    forall i :: 0 <= i < |ks| && ks[i].src == k.src && ks[i].via == k.via ==> ks[i].idx < k.idx
  }

  lemma OrderedAppend(ks: seq<Key>, k: Key)
    requires Ordered(ks) && AllBefore(ks, k)
    ensures Ordered(ks + [k])
  {
  }

  lemma OrderedDrop(a: seq<Key>, b: seq<Key>, c: seq<Key>)
    requires Ordered(a + b + c)
    ensures Ordered(a + c)
  {
    var all := a + b + c;
    var ks := a + c;
    forall i, j | 0 <= i < j < |ks| && ks[i].src == ks[j].src && ks[i].via == ks[j].via
      ensures ks[i].idx < ks[j].idx
    {
      var i' := if i < |a| then i else i + |b|;
      var j' := if j < |a| then j else j + |b|;
      assert all[i'] == ks[i] && all[j'] == ks[j];
    }
  }

  // ---------------------------------------------------------------- the invariant

  /** How many records of a reader have left its hand. */
  function Settled(r: Reader): int {
    |r.received| - |ReaderHand(r)|
  }

  predicate Released(readers: seq<Reader>, k: Key) {
    k.src < |readers| && k.idx < Settled(readers[k.src])
  }

  /** k was taken from its input before everything of that input still in the aggregated channel. */
  ghost predicate AheadOf(k: Key, aggregate: seq<Item>) {
    forall y :: y in aggregate && y.src == k.src ==> k.idx < y.idx
  }

  ghost predicate HandsInOrder(s: State) {
    && (forall r :: 0 <= r < |s.readers| && ReaderHas(s.readers[r]) ==>
          |s.readers[r].received| > 0 && KeyOf(s.readers[r].st.item) == Key(r, |s.readers[r].received| - 1, -1))
    && (forall d :: 0 <= d < |s.distributors| && DistributorHas(s.distributors[d]) ==>
          && s.distributors[d].st.item.via == d
          && Released(s.readers, KeyOf(s.distributors[d].st.item))
          && AheadOf(KeyOf(s.distributors[d].st.item), s.aggregate))
  }

  ghost predicate AggregateInOrder(s: State) {
    && (forall i :: 0 <= i < |s.aggregate| ==> s.aggregate[i].via == -1 && Released(s.readers, KeyOf(s.aggregate[i])))
    && (forall i, j :: 0 <= i < j < |s.aggregate| && s.aggregate[i].src == s.aggregate[j].src ==>
        s.aggregate[i].idx < s.aggregate[j].idx)
  }

  ghost predicate TrailInOrder(s: State, trail: seq<Key>) {
    && Ordered(trail)
    && (forall i :: 0 <= i < |trail| ==>
          0 <= trail[i].via < |s.distributors| && Released(s.readers, trail[i]) && AheadOf(trail[i], s.aggregate))
    && (forall d :: 0 <= d < |s.distributors| && DistributorHas(s.distributors[d]) ==>
        AllBefore(trail, KeyOf(s.distributors[d].st.item)))
  }

  ghost predicate InOrder(s: State) {
    && HandsInOrder(s)
    && AggregateInOrder(s)
    && (forall l :: 0 <= l < |s.lanes| ==> TrailInOrder(s, Trail(s.lanes[l])))
  }

  // ---------------------------------------------------------------- how steps move trails

  /** Taking and publishing move a record along the trail without changing it. */
  lemma TakeKeepsTrail(cfg: Config, s: State, l: nat, now: int)
    requires cfg.Valid() && Enabled(cfg, s, WorkerTake(l, now))
    ensures Trail(Next(cfg, s, WorkerTake(l, now)).lanes[l]) == Trail(s.lanes[l])
  {
    hide ProcessMarketData;
    var before, after := s.lanes[l], Next(cfg, s, WorkerTake(l, now)).lanes[l];
    assert Keys(before.buf) == [KeyOf(before.buf[0])] + Keys(before.buf[1..]);
    assert Keys(WorkerHand(after)) == [KeyOf(before.buf[0])];
  }

  lemma PublishKeepsTrail(cfg: Config, s: State, l: nat)
    requires cfg.Valid() && Enabled(cfg, s, WorkerSend(l))
    ensures Trail(Next(cfg, s, WorkerSend(l)).lanes[l]) == Trail(s.lanes[l])
  {
    var before, after := s.lanes[l], Next(cfg, s, WorkerSend(l)).lanes[l];
    assert Keys(after.out) == Keys(before.out) + Keys(WorkerHand(before));
    assert Keys(WorkerHand(after)) == [];
  }

  lemma EnterKeepsTrail(l: Lane, context: nat)
    requires l.st.WorkerFree? || l.st.Processed?
    ensures Trail(WorkerWaits(l, context)) == Trail(l)
  {
  }

  /** Dropping removes the held record from the trail. */
  lemma DropShortensTrail(cfg: Config, s: State, step: Step)
    requires cfg.Valid() && Enabled(cfg, s, step) && (step.WorkerTimeout? || step.WorkerCancel?)
    ensures Trail(s.lanes[step.lane]) ==
      Keys(s.lanes[step.lane].out) + Keys(WorkerHand(s.lanes[step.lane])) + Keys(s.lanes[step.lane].buf)
    ensures Trail(Next(cfg, s, step).lanes[step.lane]) == Keys(s.lanes[step.lane].out) + Keys(s.lanes[step.lane].buf)
  {
    assert Keys(WorkerHand(Next(cfg, s, step).lanes[step.lane])) == [];
  }

  /** A dispatch appends the offered record to the trail of its target. */
  lemma DispatchExtendsTrail(cfg: Config, s: State, d: nat)
    requires cfg.Valid() && Enabled(cfg, s, DistributorSend(d))
    ensures
      var l := s.distributors[d].st.lane;
      Trail(Next(cfg, s, DistributorSend(d)).lanes[l]) == Trail(s.lanes[l]) + [KeyOf(s.distributors[d].st.item)]
  {
    var l := s.distributors[d].st.lane;
    assert Keys(s.lanes[l].buf + [s.distributors[d].st.item]) ==
      Keys(s.lanes[l].buf) + [KeyOf(s.distributors[d].st.item)];
  }

  // ---------------------------------------------------------------- steps keep order

  /** A trail stays in order when released records stay released, the aggregated channel is not
      extended and no distributor starts a new offer. */
  lemma TrailStaysInOrder(s: State, s': State, trail: seq<Key>)
    requires TrailInOrder(s, trail) && |s.distributors| <= |s'.distributors|
    requires forall k :: Released(s.readers, k) ==> Released(s'.readers, k)
    requires forall y :: y in s'.aggregate ==> y in s.aggregate
    requires forall d :: 0 <= d < |s'.distributors| && DistributorHas(s'.distributors[d]) ==>
               d < |s.distributors| && DistributorHas(s.distributors[d])
                 && s.distributors[d].st.item == s'.distributors[d].st.item
    ensures TrailInOrder(s', trail)
  {
  }

  lemma StartKeepsOrder(cfg: Config, s: State, step: Step)
    requires cfg.Valid() && Enabled(cfg, s, step) && StartStep(step) && InOrder(s)
    ensures InOrder(Next(cfg, s, step))
  {
    var s' := Next(cfg, s, step);
    StartKeepsHands(cfg, s, step);
    hide HandsInOrder, AggregateInOrder, TrailInOrder;
    assert forall k :: Released(s.readers, k) ==> Released(s'.readers, k);
    forall l | 0 <= l < |s'.lanes|
      ensures TrailInOrder(s', Trail(s'.lanes[l]))
    {
      if l < |s.lanes| {
        assert Trail(s'.lanes[l]) == Trail(s.lanes[l]);
        TrailStaysInOrder(s, s', Trail(s.lanes[l]));
      } else {
        EmptyTrailInOrder(s');
        assert Trail(s'.lanes[l]) == [];
      }
    }
  }

  lemma EmptyTrailInOrder(s: State)
    ensures TrailInOrder(s, [])
  {
  }

  lemma StartKeepsHands(cfg: Config, s: State, step: Step)
    requires cfg.Valid() && Enabled(cfg, s, step) && StartStep(step) && HandsInOrder(s) && AggregateInOrder(s)
    ensures HandsInOrder(Next(cfg, s, step)) && AggregateInOrder(Next(cfg, s, step))
  {
  }

  lemma ReaderKeepsOrder(cfg: Config, s: State, step: Step)
    requires cfg.Valid() && Enabled(cfg, s, step) && InOrder(s)
    requires InputStep(step) || (ReaderStep(step) && !step.ReaderSend?)
    ensures InOrder(Next(cfg, s, step))
  {
    var s' := Next(cfg, s, step);
    ReleasedStays(cfg, s, step);
    assert HandsInOrder(s') && AggregateInOrder(s');
    hide Trail, TrailInOrder, HandsInOrder, AggregateInOrder, Released;
    forall l | 0 <= l < |s'.lanes|
      ensures TrailInOrder(s', Trail(s'.lanes[l]))
    {
      TrailStaysInOrder(s, s', Trail(s.lanes[l]));
    }
  }

  lemma ReleasedStays(cfg: Config, s: State, step: Step)
    requires cfg.Valid() && Enabled(cfg, s, step) && HandsInOrder(s)
    requires InputStep(step) || (ReaderStep(step) && !step.ReaderSend?)
    ensures forall k :: Released(s.readers, k) ==> Released(Next(cfg, s, step).readers, k)
  {
  }

  /** A record just forwarded is later in its input than everything released before it. */
  lemma ForwardedTrailInOrder(s: State, s': State, item: Item, trail: seq<Key>)
    requires TrailInOrder(s, trail)
    requires s'.distributors == s.distributors && s'.aggregate == s.aggregate + [item]
    requires forall k :: Released(s.readers, k) ==> Released(s'.readers, k) && (k.src == item.src ==> k.idx < item.idx)
    ensures TrailInOrder(s', trail)
  {
  }

  lemma ForwardKeepsHands(cfg: Config, s: State, r: nat)
    requires cfg.Valid() && Enabled(cfg, s, ReaderSend(r)) && HandsInOrder(s)
    ensures HandsInOrder(Next(cfg, s, ReaderSend(r)))
  {
  }

  lemma ForwardKeepsAggregate(cfg: Config, s: State, r: nat)
    requires cfg.Valid() && Enabled(cfg, s, ReaderSend(r)) && HandsInOrder(s) && AggregateInOrder(s)
    ensures AggregateInOrder(Next(cfg, s, ReaderSend(r)))
  {
    var s' := Next(cfg, s, ReaderSend(r));
    assert s'.aggregate == s.aggregate + [s.readers[r].st.item];
    hide Next;
  }

  lemma ForwardKeepsOrder(cfg: Config, s: State, r: nat)
    requires cfg.Valid() && Enabled(cfg, s, ReaderSend(r)) && InOrder(s)
    ensures InOrder(Next(cfg, s, ReaderSend(r)))
  {
    var s' := Next(cfg, s, ReaderSend(r));
    var item := s.readers[r].st.item;
    ForwardKeepsHands(cfg, s, r);
    ForwardKeepsAggregate(cfg, s, r);
    assert forall k :: Released(s.readers, k) ==> Released(s'.readers, k) && (k.src == item.src ==> k.idx < item.idx);
    hide Trail, TrailInOrder, HandsInOrder, AggregateInOrder;
    forall l | 0 <= l < |s'.lanes|
      ensures TrailInOrder(s', Trail(s'.lanes[l]))
    {
      ForwardedTrailInOrder(s, s', item, Trail(s.lanes[l]));
    }
  }

  lemma TakingLeavesAggregate(cfg: Config, s: State, d: nat)
    requires cfg.Valid() && Enabled(cfg, s, DistributorTake(d)) && AggregateInOrder(s)
    ensures AggregateInOrder(Next(cfg, s, DistributorTake(d)))
  {
  }

  lemma TakenIsAhead(cfg: Config, s: State, d: nat)
    requires cfg.Valid() && Enabled(cfg, s, DistributorTake(d)) && HandsInOrder(s) && AggregateInOrder(s)
    ensures HandsInOrder(Next(cfg, s, DistributorTake(d)))
  {
    var s' := Next(cfg, s, DistributorTake(d));
    assert forall y :: y in s'.aggregate ==> y in s.aggregate;
    assert forall k :: AheadOf(k, s.aggregate) ==> AheadOf(k, s'.aggregate);
    var k := KeyOf(s.aggregate[0].(via := d));
    assert AheadOf(k, s'.aggregate) && Released(s.readers, k);
    hide AheadOf, Released, AggregateInOrder;
  }

  /** The record taken is later in its input than everything any trail holds of its track. */
  lemma TakenIsAfterTrail(cfg: Config, s: State, d: nat, trail: seq<Key>)
    requires cfg.Valid() && Enabled(cfg, s, DistributorTake(d)) && TrailInOrder(s, trail)
    ensures TrailInOrder(Next(cfg, s, DistributorTake(d)), trail)
  {
    var s' := Next(cfg, s, DistributorTake(d));
    assert s.aggregate[0] in s.aggregate;
    assert forall y :: y in s'.aggregate ==> y in s.aggregate;
    assert AllBefore(trail, KeyOf(s.aggregate[0].(via := d)));
  }

  lemma DistributorTakeKeepsOrder(cfg: Config, s: State, d: nat)
    requires cfg.Valid() && Enabled(cfg, s, DistributorTake(d)) && InOrder(s)
    ensures InOrder(Next(cfg, s, DistributorTake(d)))
  {
    var s' := Next(cfg, s, DistributorTake(d));
    TakenIsAhead(cfg, s, d);
    TakingLeavesAggregate(cfg, s, d);
    hide Trail, TrailInOrder, HandsInOrder, AggregateInOrder;
    forall l | 0 <= l < |s'.lanes|
      ensures TrailInOrder(s', Trail(s'.lanes[l]))
    {
      TakenIsAfterTrail(cfg, s, d, Trail(s.lanes[l]));
    }
  }

  /** Looking up a channel and entering a select change nothing in the order. */
  lemma WaitingKeepsOrder(cfg: Config, s: State, step: Step)
    requires cfg.Valid() && Enabled(cfg, s, step) && (step.DistributorChoose? || step.DistributorEnter?) && InOrder(s)
    ensures InOrder(Next(cfg, s, step))
  {
    hide Trail;
    var s' := Next(cfg, s, step);
    forall l | 0 <= l < |s'.lanes|
      ensures TrailInOrder(s', Trail(s'.lanes[l]))
    {
      TrailStaysInOrder(s, s', Trail(s.lanes[l]));
    }
  }

  /** The record just dispatched goes last, and no other distributor offers a record of its track. */
  lemma DispatchedTrailInOrder(s: State, s': State, d: nat, trail: seq<Key>)
    requires TrailInOrder(s, trail) && HandsInOrder(s)
    requires d < |s.distributors| && s.distributors[d].st.Offering?
    requires s'.readers == s.readers && s'.aggregate == s.aggregate && |s'.distributors| == |s.distributors|
    requires !DistributorHas(s'.distributors[d])
    requires forall e :: 0 <= e < |s.distributors| && e != d ==> s'.distributors[e] == s.distributors[e]
    ensures TrailInOrder(s', trail + [KeyOf(s.distributors[d].st.item)])
  {
    OrderedAppend(trail, KeyOf(s.distributors[d].st.item));
  }

  lemma DispatchKeepsOrder(cfg: Config, s: State, d: nat)
    requires cfg.Valid() && Enabled(cfg, s, DistributorSend(d)) && InOrder(s)
    ensures InOrder(Next(cfg, s, DistributorSend(d)))
  {
    var s' := Next(cfg, s, DistributorSend(d));
    var target := s.distributors[d].st.lane;
    DispatchExtendsTrail(cfg, s, d);
    DispatchedTrailInOrder(s, s', d, Trail(s.lanes[target]));
    assert HandsInOrder(s') && AggregateInOrder(s');
    hide Trail, TrailInOrder, HandsInOrder, AggregateInOrder;
    forall l | 0 <= l < |s'.lanes|
      ensures TrailInOrder(s', Trail(s'.lanes[l]))
    {
      if l != target {
        TrailStaysInOrder(s, s', Trail(s.lanes[l]));
      }
    }
  }

  lemma DistributorDropKeepsOrder(cfg: Config, s: State, step: Step)
    requires cfg.Valid() && Enabled(cfg, s, step) && (step.DistributorTimeout? || step.DistributorCancel?) && InOrder(s)
    ensures InOrder(Next(cfg, s, step))
  {
    var s' := Next(cfg, s, step);
    assert HandsInOrder(s') && AggregateInOrder(s');
    hide Trail, TrailInOrder, HandsInOrder, AggregateInOrder;
    forall l | 0 <= l < |s'.lanes|
      ensures TrailInOrder(s', Trail(s'.lanes[l]))
    {
      TrailStaysInOrder(s, s', Trail(s.lanes[l]));
    }
  }

  /** A step that changes one worker channel only, and leaves its trail in order. */
  lemma LaneStepKeepsOrder(s: State, s': State, l: nat)
    requires InOrder(s) && l < |s.lanes| && |s'.lanes| == |s.lanes| && s'.lanes == s.lanes[l := s'.lanes[l]]
    requires s'.readers == s.readers && s'.aggregate == s.aggregate && s'.distributors == s.distributors
    requires TrailInOrder(s, Trail(s'.lanes[l]))
    ensures InOrder(s')
  {
    hide Trail;
    forall i | 0 <= i < |s'.lanes|
      ensures TrailInOrder(s', Trail(s'.lanes[i]))
    {
      assert TrailInOrder(s, Trail(s'.lanes[i]));
    }
  }

  lemma WorkerMoveKeepsOrder(cfg: Config, s: State, step: Step)
    requires cfg.Valid() && Enabled(cfg, s, step) && (step.WorkerEnter? || step.WorkerTake? || step.WorkerSend?)
    requires InOrder(s)
    ensures InOrder(Next(cfg, s, step))
  {
    if step.WorkerTake? {
      TakeKeepsTrail(cfg, s, step.lane, step.now);
    } else if step.WorkerSend? {
      PublishKeepsTrail(cfg, s, step.lane);
    } else {
      EnterKeepsTrail(s.lanes[step.lane], s.context);
    }
    hide Trail, TrailInOrder, HandsInOrder, AggregateInOrder, ProcessMarketData;
    LaneStepKeepsOrder(s, Next(cfg, s, step), step.lane);
  }

  lemma WorkerDropKeepsOrder(cfg: Config, s: State, step: Step)
    requires cfg.Valid() && Enabled(cfg, s, step) && (step.WorkerTimeout? || step.WorkerCancel?) && InOrder(s)
    ensures InOrder(Next(cfg, s, step))
  {
    var lane := s.lanes[step.lane];
    DropShortensTrail(cfg, s, step);
    hide Trail, Keys, TrailInOrder, HandsInOrder, AggregateInOrder, WorkerHand;
    assert TrailInOrder(s, Trail(lane));
    DropKeepsTrailOrder(s, Keys(lane.out), Keys(WorkerHand(lane)), Keys(lane.buf));
    LaneStepKeepsOrder(s, Next(cfg, s, step), step.lane);
  }

  lemma DropKeepsTrailOrder(s: State, a: seq<Key>, b: seq<Key>, c: seq<Key>)
    requires TrailInOrder(s, a + b + c)
    ensures TrailInOrder(s, a + c)
  {
    var all := a + b + c;
    var ks := a + c;
    OrderedDrop(a, b, c);
    forall i | 0 <= i < |ks|
      ensures exists j :: 0 <= j < |all| && all[j] == ks[i]
    {
      assert all[if i < |a| then i else i + |b|] == ks[i];
    }
    assert forall i :: 0 <= i < |ks| ==> ks[i] in all;
  }

  lemma StepKeepsOrder(cfg: Config, s: State, step: Step)
    requires cfg.Valid() && Enabled(cfg, s, step) && InOrder(s)
    ensures InOrder(Next(cfg, s, step))
  {
    assert step.Cancel? || step.Consume? ==>
        var s' := Next(cfg, s, step);
        s'.readers == s.readers && s'.aggregate == s.aggregate && s'.distributors == s.distributors
          && s'.lanes == s.lanes;
    hide InOrder, Next, Enabled;
    if StartStep(step) {
      StartKeepsOrder(cfg, s, step);
    } else if step.ReaderSend? {
      ForwardKeepsOrder(cfg, s, step.reader);
    } else if InputStep(step) || ReaderStep(step) {
      ReaderKeepsOrder(cfg, s, step);
    } else if step.DistributorTake? {
      DistributorTakeKeepsOrder(cfg, s, step.dist);
    } else if step.DistributorSend? {
      DispatchKeepsOrder(cfg, s, step.dist);
    } else if step.DistributorChoose? || step.DistributorEnter? {
      WaitingKeepsOrder(cfg, s, step);
    } else if DistributorStep(step) {
      DistributorDropKeepsOrder(cfg, s, step);
    } else if step.WorkerTimeout? || step.WorkerCancel? {
      WorkerDropKeepsOrder(cfg, s, step);
    } else if WorkerStep(step) {
      WorkerMoveKeepsOrder(cfg, s, step);
    } else {
      QuietKeepsOrder(s, Next(cfg, s, step));
    }
  }

  /** Steps that touch neither readers, aggregated channel, distributors nor worker channels. */
  lemma QuietKeepsOrder(s: State, s': State)
    requires InOrder(s)
    requires s'.readers == s.readers && s'.aggregate == s.aggregate && s'.distributors == s.distributors
    requires s'.lanes == s.lanes
    ensures InOrder(s')
  {
    hide Trail;
    forall l | 0 <= l < |s'.lanes|
      ensures TrailInOrder(s', Trail(s'.lanes[l]))
    {
      assert TrailInOrder(s, Trail(s.lanes[l]));
    }
  }

  lemma {:induction false} AlwaysInOrder(cfg: Config, steps: seq<Step>, s: State)
    requires cfg.Valid() && Reached(cfg, steps, s)
    ensures InOrder(s)
  {
    if steps != [] {
      var before, step := LastStep(cfg, steps, s);
      AlwaysInOrder(cfg, steps[..|steps| - 1], before);
      StepKeepsOrder(cfg, before, step);
    }
  }

  // ---------------------------------------------------------------- what consumers may rely on

  /** Over every run: what a worker published from one input through one distributor is, in order, a
      subsequence of what that input delivered, each record validated. */
  lemma PublishedInInputOrder(cfg: Config, steps: seq<Step>, s: State, l: nat, i: nat, j: nat)
    requires cfg.Valid() && Reached(cfg, steps, s)
    requires l < |s.lanes| && i < j < |s.lanes[l].out|
    requires s.lanes[l].out[i].src == s.lanes[l].out[j].src && s.lanes[l].out[i].via == s.lanes[l].out[j].via
    ensures s.lanes[l].out[i].idx < s.lanes[l].out[j].idx
    ensures Validated(s.readers, s.lanes[l].out[i]) && Validated(s.readers, s.lanes[l].out[j])
  {
    AlwaysInOrder(cfg, steps, s);
    PayloadsAlwaysKept(cfg, steps, s);
    var trail := Trail(s.lanes[l]);
    assert trail[i] == KeyOf(s.lanes[l].out[i]) && trail[j] == KeyOf(s.lanes[l].out[j]);
    assert s.lanes[l].out[i] in s.lanes[l].out && s.lanes[l].out[j] in s.lanes[l].out;
  }

  /** How many starts succeeded. */
  function Starts(steps: seq<Step>): nat {
    if steps == [] then 0 else Starts(steps[..|steps| - 1]) + if steps[|steps| - 1].Start? then 1 else 0
  }

  lemma {:induction false} OneDistributorPerStart(cfg: Config, steps: seq<Step>, s: State)
    requires cfg.Valid() && Reached(cfg, steps, s)
    ensures |s.distributors| == Starts(steps)
  {
    if steps != [] {
      var before, step := LastStep(cfg, steps, s);
      OneDistributorPerStart(cfg, steps[..|steps| - 1], before);
    }
  }

  /** With at most one successful start, each worker publishes each input's records in order. */
  lemma SingleStartKeepsInputOrder(cfg: Config, steps: seq<Step>, s: State, l: nat, i: nat, j: nat)
    requires cfg.Valid() && Reached(cfg, steps, s) && Starts(steps) <= 1
    requires l < |s.lanes| && i < j < |s.lanes[l].out| && s.lanes[l].out[i].src == s.lanes[l].out[j].src
    ensures s.lanes[l].out[i].idx < s.lanes[l].out[j].idx
  {
    AlwaysInOrder(cfg, steps, s);
    OneDistributorPerStart(cfg, steps, s);
    var trail := Trail(s.lanes[l]);
    assert trail[i] == KeyOf(s.lanes[l].out[i]) && trail[j] == KeyOf(s.lanes[l].out[j]);
    assert TrailInOrder(s, trail);
    PublishedInInputOrder(cfg, steps, s, l, i, j);
  }
}
