/** Where a distributor's dispatches go: round robin over the worker channels it finds in the pool. */
module PipelineDispatch {
  import opened Market
  import opened Pipeline
  import opened PipelineOrder

  // ---------------------------------------------------------------- lookups

  /** The pools a distributor found when it looked up the channel of its first, second, ... dispatch. */
  function Lookups(cfg: Config, steps: seq<Step>, d: nat): seq<seq<nat>>
    requires cfg.Valid()
  {
    if steps == [] then []
    else
      var n := |steps| - 1;
      var before := After(cfg, INITIAL, steps[..n]);
      Lookups(cfg, steps[..n], d)
        + if before.Some? && steps[n] == DistributorChoose(d) then [before.value.pool] else []
  }

  predicate Distinct(pool: seq<nat>) {
    forall i, j :: 0 <= i < j < |pool| ==> pool[i] != pool[j]
  }

  /** The channels of the pool are distinct. */
  lemma {:induction false} PoolIsDistinct(cfg: Config, steps: seq<Step>, s: State)
    requires cfg.Valid() && Reached(cfg, steps, s)
    ensures Distinct(s.pool)
  {
    if steps != [] {
      var before, step := LastStep(cfg, steps, s);
      PoolIsDistinct(cfg, steps[..|steps| - 1], before);
      ReachedIsWellShaped(cfg, steps[..|steps| - 1], before);
      PoolAfter(cfg, before, step);
    }
  }

  lemma PoolAfter(cfg: Config, s: State, step: Step)
    requires cfg.Valid() && Enabled(cfg, s, step) && InRange(cfg, s) && Distinct(s.pool)
    ensures Distinct(Next(cfg, s, step).pool)
    ensures !step.MakeChannel? ==> Next(cfg, s, step).pool == s.pool
  {
    hide ProcessMarketData, Resolved, Staffed;
  }

  /** The pools found are full and their channels distinct; the k-th dispatch, resolved or under way, is
      offered to entry k mod N of the pool found for it. */
  ghost predicate FollowsLookups(cfg: Config, dist: Distributor, pools: seq<seq<nat>>)
    requires cfg.Valid()
  {
    && (forall k :: 0 <= k < |pools| ==> |pools[k]| == cfg.workers && Distinct(pools[k]))
    && |dist.offers| <= |pools| && dist.workerIndex == |dist.offers| % cfg.workers
    && (forall k :: 0 <= k < |dist.offers| ==> dist.offers[k].lane == pools[k][k % cfg.workers])
    && (Bound(dist) ==>
          |pools| == |dist.offers| + 1 && dist.st.lane == pools[|dist.offers|][|dist.offers| % cfg.workers])
    && (!Bound(dist) && !dist.st.DistributorDone? ==> |pools| == |dist.offers|)
  }

  lemma StepFollowsLookups(cfg: Config, s: State, step: Step, d: nat, pools: seq<seq<nat>>)
    requires cfg.Valid() && Enabled(cfg, s, step) && InRange(cfg, s) && Distinct(s.pool)
    requires d < |s.distributors| && FollowsLookups(cfg, s.distributors[d], pools)
    ensures
      var found := if step == DistributorChoose(d) then [s.pool] else [];
      FollowsLookups(cfg, Next(cfg, s, step).distributors[d], pools + found)
  {
    hide ProcessMarketData, Staffed, WithChannel, Distinct;
    SuccessorMod(|s.distributors[d].offers|, cfg.workers);
    assert pools + [] == pools;
  }

  lemma {:induction false} AlwaysFollowsLookups(cfg: Config, steps: seq<Step>, s: State, d: nat)
    requires cfg.Valid() && Reached(cfg, steps, s) && d < |s.distributors|
    ensures FollowsLookups(cfg, s.distributors[d], Lookups(cfg, steps, d))
  {
    var before, step := LastStep(cfg, steps, s);
    var earlier := steps[..|steps| - 1];
    if d < |before.distributors| {
      AlwaysFollowsLookups(cfg, earlier, before, d);
      ReachedIsWellShaped(cfg, earlier, before);
      PoolIsDistinct(cfg, earlier, before);
      StepFollowsLookups(cfg, before, step, d, Lookups(cfg, earlier, d));
    } else {
      NoLookupsYet(cfg, earlier, before, d);
      assert 0 % cfg.workers == 0;
      assert s.distributors[d] == Distributor(0, [], DistributorFree);
    }
  }

  lemma {:induction false} NoLookupsYet(cfg: Config, steps: seq<Step>, s: State, d: nat)
    requires cfg.Valid() && Reached(cfg, steps, s) && |s.distributors| <= d
    ensures Lookups(cfg, steps, d) == []
  {
    hide ProcessMarketData;
    if steps != [] {
      var before, step := LastStep(cfg, steps, s);
      NoLookupsYet(cfg, steps[..|steps| - 1], before, d);
    }
  }

  /** Over runs of any length, whatever starts replaced the pool meanwhile: the k-th dispatch a distributor
      resolves, by a send or by the timeout, is offered to the channel that was entry k mod N of the pool
      when it looked it up. */
  lemma AlwaysRoundRobin(cfg: Config, steps: seq<Step>, s: State, d: nat, k: nat)
    requires cfg.Valid() && Reached(cfg, steps, s) && d < |s.distributors| && k < |s.distributors[d].offers|
    ensures k < |Lookups(cfg, steps, d)| && |Lookups(cfg, steps, d)[k]| == cfg.workers
    ensures s.distributors[d].offers[k].lane == Lookups(cfg, steps, d)[k][k % cfg.workers]
  {
    AlwaysFollowsLookups(cfg, steps, s, d);
  }

  // ---------------------------------------------------------------- where dispatched records are

  function KeyOfOffer(o: Offer, d: nat): Key {
    Key(o.src, o.idx, d)
  }

  predicate Dropped(s: State, k: Key) {
    k in Keys(s.timedOut) || k in Keys(s.cancelled)
  }

  /** A record sent is in the channel it was offered to, in its worker's hand or among what that worker
      published, unless the worker dropped it; one not sent is among the timed out. */
  ghost predicate LiesWhereOffered(s: State, d: nat, o: Offer) {
    if o.sent then o.lane < |s.lanes| && (KeyOfOffer(o, d) in Trail(s.lanes[o.lane]) || Dropped(s, KeyOfOffer(o, d)))
    else KeyOfOffer(o, d) in Keys(s.timedOut)
  }

  /** Distributor k.via sent the record k to channel l. */
  ghost predicate SentTo(s: State, k: Key, l: nat) {
    0 <= k.via < |s.distributors| && Offer(k.src, k.idx, l, true) in s.distributors[k.via].offers
  }

  ghost predicate AllLieWhereOffered(s: State) {
    && (forall d, o :: 0 <= d < |s.distributors| && o in s.distributors[d].offers ==> LiesWhereOffered(s, d, o))
    && (forall l, k :: 0 <= l < |s.lanes| && k in Trail(s.lanes[l]) ==> SentTo(s, k, l))
  }

  lemma KeysConcat(xs: seq<Item>, ys: seq<Item>)
    ensures Keys(xs + ys) == Keys(xs) + Keys(ys)
  {
  }

  /** Ledgers only grow. */
  lemma LedgersAfter(cfg: Config, s: State, step: Step)
    requires cfg.Valid() && Enabled(cfg, s, step)
    ensures
      var s' := Next(cfg, s, step);
      Keys(s.timedOut) <= Keys(s'.timedOut) && Keys(s.cancelled) <= Keys(s'.cancelled)
  {
    hide ProcessMarketData, Resolved, Staffed, WithChannel;
  }

  /** What leaves a trail has been dropped; what enters one has just been sent there. */
  lemma TrailAfter(cfg: Config, s: State, step: Step, l: nat)
    requires cfg.Valid() && Enabled(cfg, s, step) && l < |s.lanes|
    ensures
      var s' := Next(cfg, s, step);
      && (forall k :: k in Trail(s.lanes[l]) ==> k in Trail(s'.lanes[l]) || Dropped(s', k))
      && (forall k :: k in Trail(s'.lanes[l]) ==>
            || k in Trail(s.lanes[l])
            || (step.DistributorSend? && l == s.distributors[step.dist].st.lane
                && k == KeyOf(s.distributors[step.dist].st.item)))
  {
    hide ProcessMarketData, Resolved;
    if WorkerStep(step) && step.lane == l {
      WorkerTrailAfter(cfg, s, step);
    } else if step.DistributorSend? && s.distributors[step.dist].st.lane == l {
      DispatchExtendsTrail(cfg, s, step.dist);
    } else {
      assert Trail(Next(cfg, s, step).lanes[l]) == Trail(s.lanes[l]);
    }
  }

  lemma WorkerTrailAfter(cfg: Config, s: State, step: Step)
    requires cfg.Valid() && Enabled(cfg, s, step) && WorkerStep(step)
    ensures
      var s' := Next(cfg, s, step);
      && (forall k :: k in Trail(s.lanes[step.lane]) ==> k in Trail(s'.lanes[step.lane]) || Dropped(s', k))
      && (forall k :: k in Trail(s'.lanes[step.lane]) ==> k in Trail(s.lanes[step.lane]))
  {
    hide ProcessMarketData;
    if step.WorkerTake? {
      TakeKeepsTrail(cfg, s, step.lane, step.now);
    } else if step.WorkerSend? {
      PublishKeepsTrail(cfg, s, step.lane);
    } else if step.WorkerEnter? {
      EnterKeepsTrail(s.lanes[step.lane], s.context);
    } else {
      DropShortensTrail(cfg, s, step);
      KeysConcat(s.timedOut, WorkerHand(s.lanes[step.lane]));
      KeysConcat(s.cancelled, WorkerHand(s.lanes[step.lane]));
    }
  }

  /** What a step adds to a distributor's log. */
  lemma OffersAfter(cfg: Config, s: State, step: Step, d: nat)
    requires cfg.Valid() && Enabled(cfg, s, step) && d < |Next(cfg, s, step).distributors|
    ensures
      var resolved := (step.DistributorSend? || step.DistributorTimeout?) && step.dist == d;
      Next(cfg, s, step).distributors[d].offers ==
      if |s.distributors| <= d then []
      else if resolved then
        var st := s.distributors[d].st;
        s.distributors[d].offers + [Offer(st.item.src, st.item.idx, st.lane, step.DistributorSend?)]
      else s.distributors[d].offers
  {
    hide ProcessMarketData, Staffed, WithChannel;
  }

  lemma StepKeepsLying(cfg: Config, s: State, step: Step)
    requires cfg.Valid() && Enabled(cfg, s, step) && InOrder(s) && AllLieWhereOffered(s)
    ensures AllLieWhereOffered(Next(cfg, s, step))
  {
    var s' := Next(cfg, s, step);
    forall d, o | 0 <= d < |s'.distributors| && o in s'.distributors[d].offers
      ensures LiesWhereOffered(s', d, o)
    {
      OfferStillLies(cfg, s, step, d, o);
    }
    forall l, k | 0 <= l < |s'.lanes| && k in Trail(s'.lanes[l])
      ensures SentTo(s', k, l)
    {
      StillSentTo(cfg, s, step, l, k);
    }
  }

  lemma OfferStillLies(cfg: Config, s: State, step: Step, d: nat, o: Offer)
    requires cfg.Valid() && Enabled(cfg, s, step) && InOrder(s) && AllLieWhereOffered(s)
    requires d < |Next(cfg, s, step).distributors| && o in Next(cfg, s, step).distributors[d].offers
    ensures LiesWhereOffered(Next(cfg, s, step), d, o)
  {
    var s' := Next(cfg, s, step);
    OffersAfter(cfg, s, step, d);
    LedgersAfter(cfg, s, step);
    if o in s.distributors[d].offers {
      assert LiesWhereOffered(s, d, o);
      LanesGrow(cfg, s, step);
      if o.sent {
        TrailAfter(cfg, s, step, o.lane);
      }
    } else if step.DistributorSend? {
      DispatchExtendsTrail(cfg, s, d);
    } else {
      var x := s.distributors[d].st.item;
      KeysConcat(s.timedOut, [x]);
      assert Keys([x]) == [KeyOfOffer(o, d)];
      assert [KeyOfOffer(o, d)][0] in Keys(s'.timedOut);
    }
  }

  lemma LanesGrow(cfg: Config, s: State, step: Step)
    requires cfg.Valid() && Enabled(cfg, s, step)
    ensures |s.lanes| <= |Next(cfg, s, step).lanes|
    ensures forall l :: |s.lanes| <= l < |Next(cfg, s, step).lanes| ==> Trail(Next(cfg, s, step).lanes[l]) == []
  {
    hide ProcessMarketData, Resolved;
  }

  lemma StillSentTo(cfg: Config, s: State, step: Step, l: nat, k: Key)
    requires cfg.Valid() && Enabled(cfg, s, step) && InOrder(s) && AllLieWhereOffered(s)
    requires l < |Next(cfg, s, step).lanes| && k in Trail(Next(cfg, s, step).lanes[l])
    ensures SentTo(Next(cfg, s, step), k, l)
  {
    var s' := Next(cfg, s, step);
    LanesGrow(cfg, s, step);
    TrailAfter(cfg, s, step, l);
    DistributorsGrow(cfg, s, step);
    if k in Trail(s.lanes[l]) {
      assert SentTo(s, k, l);
      OffersAfter(cfg, s, step, k.via);
    } else {
      assert k.via == step.dist;
      OffersAfter(cfg, s, step, k.via);
    }
  }

  lemma DistributorsGrow(cfg: Config, s: State, step: Step)
    requires cfg.Valid() && Enabled(cfg, s, step)
    ensures |s.distributors| <= |Next(cfg, s, step).distributors|
  {
    hide ProcessMarketData, Resolved, Staffed, WithChannel;
  }

  lemma {:induction false} AlwaysLying(cfg: Config, steps: seq<Step>, s: State)
    requires cfg.Valid() && Reached(cfg, steps, s)
    ensures AllLieWhereOffered(s)
  {
    if steps != [] {
      var before, step := LastStep(cfg, steps, s);
      AlwaysLying(cfg, steps[..|steps| - 1], before);
      AlwaysInOrder(cfg, steps[..|steps| - 1], before);
      StepKeepsLying(cfg, before, step);
    }
  }

  // ---------------------------------------------------------------- records and their channels

  /** What a distributor dispatched, in order. */
  function OfferKeys(offers: seq<Offer>, d: nat): seq<Key> {
    seq(|offers|, i requires 0 <= i < |offers| => KeyOfOffer(offers[i], d))
  }

  lemma StepKeepsOffersInOrder(cfg: Config, s: State, step: Step, d: nat)
    requires cfg.Valid() && Enabled(cfg, s, step) && InOrder(s) && d < |Next(cfg, s, step).distributors|
    requires d < |s.distributors| ==> TrailInOrder(s, OfferKeys(s.distributors[d].offers, d))
    ensures TrailInOrder(Next(cfg, s, step), OfferKeys(Next(cfg, s, step).distributors[d].offers, d))
  {
    var s' := Next(cfg, s, step);
    OffersAfter(cfg, s, step, d);
    if |s.distributors| <= d {
      EmptyTrailInOrder(s');
      assert OfferKeys([], d) == [];
    } else {
      var trail := OfferKeys(s.distributors[d].offers, d);
      if step.ReaderSend? {
        ForwardedTrailAfter(cfg, s, step.reader, trail);
      } else if step.DistributorTake? {
        TakenIsAfterTrail(cfg, s, step.dist, trail);
      } else if (step.DistributorSend? || step.DistributorTimeout?) && step.dist == d {
        DispatchedTrailInOrder(s, s', d, trail);
        assert OfferKeys(s'.distributors[d].offers, d) == trail + [KeyOf(s.distributors[d].st.item)];
      } else {
        OthersKeepTrail(cfg, s, step, trail);
      }
    }
  }

  lemma ForwardedTrailAfter(cfg: Config, s: State, r: nat, trail: seq<Key>)
    requires cfg.Valid() && Enabled(cfg, s, ReaderSend(r)) && InOrder(s) && TrailInOrder(s, trail)
    ensures TrailInOrder(Next(cfg, s, ReaderSend(r)), trail)
  {
    var s', item := Next(cfg, s, ReaderSend(r)), s.readers[r].st.item;
    assert forall k :: Released(s.readers, k) ==> Released(s'.readers, k) && (k.src == item.src ==> k.idx < item.idx);
    hide TrailInOrder;
    ForwardedTrailInOrder(s, s', item, trail);
  }

  lemma OthersKeepTrail(cfg: Config, s: State, step: Step, trail: seq<Key>)
    requires cfg.Valid() && Enabled(cfg, s, step) && InOrder(s) && TrailInOrder(s, trail)
    requires !step.ReaderSend? && !step.DistributorTake?
    ensures TrailInOrder(Next(cfg, s, step), trail)
  {
    hide ProcessMarketData, Staffed, WithChannel, TrailInOrder, Trail;
    var s' := Next(cfg, s, step);
    if InputStep(step) || ReaderStep(step) {
      ReleasedStays(cfg, s, step);
    }
    TrailStaysInOrder(s, s', trail);
  }

  lemma {:induction false} AlwaysDispatchedInOrder(cfg: Config, steps: seq<Step>, s: State, d: nat)
    requires cfg.Valid() && Reached(cfg, steps, s) && d < |s.distributors|
    ensures TrailInOrder(s, OfferKeys(s.distributors[d].offers, d))
  {
    var before, step := LastStep(cfg, steps, s);
    AlwaysInOrder(cfg, steps[..|steps| - 1], before);
    if d < |before.distributors| {
      AlwaysDispatchedInOrder(cfg, steps[..|steps| - 1], before, d);
    }
    StepKeepsOffersInOrder(cfg, before, step, d);
  }

  /** Over every run: the record of a resolved dispatch is in the channel it was offered to, in that
      channel's worker's hand or output, or dropped by that worker if it was sent, among the timed out if
      not; and it is in no other channel, hand or output. */
  lemma DispatchedRecordStays(cfg: Config, steps: seq<Step>, s: State, d: nat, k: nat)
    requires cfg.Valid() && Reached(cfg, steps, s) && d < |s.distributors| && k < |s.distributors[d].offers|
    ensures LiesWhereOffered(s, d, s.distributors[d].offers[k])
    ensures
      var o := s.distributors[d].offers[k];
      forall l :: 0 <= l < |s.lanes| && KeyOfOffer(o, d) in Trail(s.lanes[l]) ==> o.sent && l == o.lane
  {
    AlwaysLying(cfg, steps, s);
    AlwaysDispatchedInOrder(cfg, steps, s, d);
    hide Reached, LiesWhereOffered;
    var offers := s.distributors[d].offers;
    var o, keys := offers[k], OfferKeys(offers, d);
    forall l | 0 <= l < |s.lanes| && KeyOfOffer(o, d) in Trail(s.lanes[l])
      ensures o.sent && l == o.lane
    {
      assert SentTo(s, KeyOfOffer(o, d), l);
      var j :| 0 <= j < |offers| && offers[j] == Offer(o.src, o.idx, l, true);
      assert keys[j] == keys[k];
    }
  }

  /** Over every run: whatever is or was in a channel, some distributor sent there. */
  lemma ChannelHoldsDispatches(cfg: Config, steps: seq<Step>, s: State, l: nat, k: Key) returns (i: nat)
    requires cfg.Valid() && Reached(cfg, steps, s) && l < |s.lanes| && k in Trail(s.lanes[l])
    ensures 0 <= k.via < |s.distributors| && i < |s.distributors[k.via].offers|
    ensures s.distributors[k.via].offers[i] == Offer(k.src, k.idx, l, true)
  {
    AlwaysLying(cfg, steps, s);
    assert SentTo(s, k, l);
    i :| 0 <= i < |s.distributors[k.via].offers| && s.distributors[k.via].offers[i] == Offer(k.src, k.idx, l, true);
  }

  // ---------------------------------------------------------------- balance

  lemma SuccessorMod(k: nat, n: nat)
    requires n > 0
    ensures (k + 1) % n == (k % n + 1) % n
    ensures (k + 1) % n == if k % n + 1 == n then 0 else k % n + 1
    ensures (k + 1) / n == if k % n + 1 == n then k / n + 1 else k / n
  {
    var q, r := k / n, k % n;
    SuccessorParts(k, n, q, r);
    DivModUnique(r + 1, n, if r + 1 == n then 1 else 0, if r + 1 == n then 0 else r + 1);
  }

  lemma SuccessorParts(k: nat, n: nat, q: nat, r: nat)
    requires n > 0 && r < n && k == n * q + r
    ensures (k + 1) % n == if r + 1 == n then 0 else r + 1
    ensures (k + 1) / n == if r + 1 == n then q + 1 else q
  {
    if r + 1 == n {
      assert n * (q + 1) == n * q + n;
      DivModUnique(k + 1, n, q + 1, 0);
    } else {
      DivModUnique(k + 1, n, q, r + 1);
    }
  }

  lemma MultipleGap(n: int, d: int)
    requires n >= 0
    ensures d >= 1 ==> n * d >= n
    ensures d <= -1 ==> n * d <= -n
  {
  }

  lemma DivModUnique(k: nat, n: nat, q: nat, r: nat)
    requires n > 0 && r < n && k == n * q + r
    ensures k / n == q && k % n == r
  {
    var q', r' := k / n, k % n;
    MultipleGap(n, q - q');
    assert n * (q - q') == n * q - n * q';
  }

  /** How many of some dispatches were offered to a channel. */
  function Share(offers: seq<Offer>, lane: nat): nat {
    if offers == [] then 0
    else Share(offers[..|offers| - 1], lane) + if offers[|offers| - 1].lane == lane then 1 else 0
  }

  /** How many of the first k positions are v modulo n. */
  function Turns(k: nat, n: nat, v: nat): nat
    requires n > 0
  {
    k / n + if v < k % n then 1 else 0
  }

  lemma TurnsNext(k: nat, n: nat, v: nat)
    requires v < n
    ensures Turns(k + 1, n, v) == Turns(k, n, v) + if k % n == v then 1 else 0
  {
    SuccessorMod(k, n);
  }

  lemma {:induction false} ShareCounted(offers: seq<Offer>, pool: seq<nat>, i: nat, j: nat, v: nat)
    requires i <= j <= |offers| && v < |pool| && Distinct(pool)
    requires forall k :: i <= k < j ==> offers[k].lane == pool[k % |pool|]
    ensures Share(offers[i..j], pool[v]) == Turns(j, |pool|, v) - Turns(i, |pool|, v)
  {
    hide Turns;
    if i < j {
      var k := j - 1;
      ShareCounted(offers, pool, i, k, v);
      assert offers[i..j][..k - i] == offers[i..k] && offers[i..j][k - i] == offers[k];
      TurnsNext(k, |pool|, v);
      ChannelOfTurn(pool, k, v);
    }
  }

  lemma ChannelOfTurn(pool: seq<nat>, k: nat, v: nat)
    requires v < |pool| && Distinct(pool)
    ensures pool[k % |pool|] == pool[v] <==> k % |pool| == v
  {
  }

  /** While a distributor finds the same pool, its shares of dispatches offered to any two channels of it
      never differ by more than one, from whatever dispatch on one counts. */
  lemma DispatchBalanced(cfg: Config, steps: seq<Step>, s: State, d: nat, i: nat, j: nat, pool: seq<nat>, v: nat,
                         w: nat)
    requires cfg.Valid() && Reached(cfg, steps, s) && d < |s.distributors|
    requires i < j <= |s.distributors[d].offers| && v in pool && w in pool
    requires forall k :: i <= k < j && k < |Lookups(cfg, steps, d)| ==> Lookups(cfg, steps, d)[k] == pool
    ensures
      var offers := s.distributors[d].offers[i..j];
      -1 <= Share(offers, v) - Share(offers, w) <= 1
  {
    AlwaysFollowsLookups(cfg, steps, s, d);
    var offers, pools := s.distributors[d].offers, Lookups(cfg, steps, d);
    assert pools[i] == pool;
    var a :| 0 <= a < |pool| && pool[a] == v;
    var b :| 0 <= b < |pool| && pool[b] == w;
    ShareCounted(offers, pool, i, j, a);
    ShareCounted(offers, pool, i, j, b);
  }

  // ---------------------------------------------------------------- one start

  /** How many starts have begun, successful or not. */
  function Begun(steps: seq<Step>): nat {
    if steps == [] then 0 else Begun(steps[..|steps| - 1]) + if steps[|steps| - 1].NewContext? then 1 else 0
  }

  /** Channel k of the pool is channel k. */
  predicate FirstPool(s: State) {
    && |s.pool| == |s.lanes| && (s.starting ==> s.made == |s.pool|)
    && forall k :: 0 <= k < |s.pool| ==> s.pool[k] == k
  }

  lemma {:induction false} OneStartOnePool(cfg: Config, steps: seq<Step>, s: State)
    requires cfg.Valid() && Reached(cfg, steps, s) && Begun(steps) <= 1
    ensures FirstPool(s) && (Begun(steps) == 0 ==> s.pool == [] && !s.starting && s.distributors == [])
    ensures |s.distributors| <= 1 && (s.starting ==> s.distributors == [])
  {
    hide ProcessMarketData, Resolved;
    if steps != [] {
      var before, step := LastStep(cfg, steps, s);
      OneStartOnePool(cfg, steps[..|steps| - 1], before);
      ReachedIsWellShaped(cfg, steps[..|steps| - 1], before);
      hide Reached;
    }
  }

  lemma {:induction false} OneStartLookups(cfg: Config, steps: seq<Step>, s: State, d: nat, k: nat)
    requires cfg.Valid() && Reached(cfg, steps, s) && Begun(steps) <= 1 && k < |Lookups(cfg, steps, d)|
    ensures forall i :: 0 <= i < |Lookups(cfg, steps, d)[k]| ==> Lookups(cfg, steps, d)[k][i] == i
  {
    var before, step := LastStep(cfg, steps, s);
    var earlier := steps[..|steps| - 1];
    if k < |Lookups(cfg, earlier, d)| {
      OneStartLookups(cfg, earlier, before, d, k);
    } else {
      OneStartOnePool(cfg, earlier, before);
    }
  }

  /** In a run with one start: dispatch k is offered to channel k mod N, whose numbers are the pool's, the
      shares of any two channels differ by at most one, and whatever channel, hand or output holds the
      record of dispatch k is that of channel k mod N. */
  lemma OneStartRoundRobin(cfg: Config, steps: seq<Step>, s: State, d: nat, k: nat)
    requires cfg.Valid() && Reached(cfg, steps, s) && Begun(steps) <= 1
    requires d < |s.distributors| && k < |s.distributors[d].offers|
    ensures s.distributors[d].offers[k].lane == k % cfg.workers
    ensures forall l :: 0 <= l < |s.lanes| && KeyOfOffer(s.distributors[d].offers[k], d) in Trail(s.lanes[l]) ==>
      l == k % cfg.workers
    ensures forall v, w :: 0 <= v < cfg.workers && 0 <= w < cfg.workers ==>
      -1 <= Share(s.distributors[d].offers, v) - Share(s.distributors[d].offers, w) <= 1
  {
    AlwaysFollowsLookups(cfg, steps, s, d);
    var pools := Lookups(cfg, steps, d);
    OneStartLookups(cfg, steps, s, d, k);
    DispatchedRecordStays(cfg, steps, s, d, k);
    var pool := seq(cfg.workers, i => i);
    assert s.distributors[d].offers[k].lane == k % cfg.workers;
    forall i | 0 <= i < |pools|
      ensures pools[i] == pool
    {
      OneStartLookups(cfg, steps, s, d, i);
    }
    var offers := s.distributors[d].offers;
    assert offers[0..|offers|] == offers;
    forall v, w | 0 <= v < cfg.workers && 0 <= w < cfg.workers
      ensures -1 <= Share(offers, v) - Share(offers, w) <= 1
    {
      assert pool[v] == v && pool[w] == w;
      DispatchBalanced(cfg, steps, s, d, 0, |offers|, pool, v, w);
    }
  }
}
