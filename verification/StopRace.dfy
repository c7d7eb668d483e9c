/** Calls stopping the same adapters at the same time (service.go's loop over live.go's Stop), statement
    by statement. */
module StopRace {

  /** What Stop reads and closes of an adapter. */
  datatype Adapter = Adapter(running: bool, stopClosed: bool, dataClosed: bool)

  /** Where a caller stands within one adapter's Stop: before the check of the running flag, past it,
      past clearing the flags, past closing the stop channel, or dead of closing a closed channel. */
  datatype Phase = Checking | Passed | Cleared | HalfClosed | Panicked

  /** A caller goes through the adapters in order. */
  datatype Caller = Caller(at: nat, phase: Phase)

  /** passed records which caller found which adapter running. */
  datatype State = State(adapters: seq<Adapter>, callers: seq<Caller>, passed: set<(nat, nat)>)

  predicate Enabled(s: State, i: nat) {
    i < |s.callers| && s.callers[i].at < |s.adapters| && !s.callers[i].phase.Panicked?
  }

  /** The caller's next statement. */
  function Next(s: State, i: nat): State
    requires Enabled(s, i)
  {
    var k := s.callers[i].at;
    var a := s.adapters[k];
    match s.callers[i].phase
    case Checking =>
      if a.running then s.(callers := s.callers[i := Caller(k, Passed)], passed := s.passed + {(i, k)})
      else s.(callers := s.callers[i := Caller(k + 1, Checking)])
    case Passed => s.(adapters := s.adapters[k := a.(running := false)], callers := s.callers[i := Caller(k, Cleared)])
    case Cleared =>
      if a.stopClosed then s.(callers := s.callers[i := Caller(k, Panicked)])
      else s.(adapters := s.adapters[k := a.(stopClosed := true)], callers := s.callers[i := Caller(k, HalfClosed)])
    case HalfClosed =>
      if a.dataClosed then s.(callers := s.callers[i := Caller(k, Panicked)])
      else s.(adapters := s.adapters[k := a.(dataClosed := true)], callers := s.callers[i := Caller(k + 1, Checking)])
    case Panicked => s
  }

  ghost predicate Reaches(from: State, steps: seq<nat>, s: State)
    decreases |steps|
  {
    if steps == [] then s == from
    else Enabled(from, steps[0]) && Reaches(Next(from, steps[0]), steps[1..], s)
  }

  /** Any number of callers about to stop adapters of which the running ones have open channels. */
  ghost predicate Initial(s: State) {
    && s.passed == {}
    && (forall k :: 0 <= k < |s.adapters| && s.adapters[k].running ==>
        !s.adapters[k].stopClosed && !s.adapters[k].dataClosed)
    && (forall i :: 0 <= i < |s.callers| ==> s.callers[i] == Caller(0, Checking))
  }

  // ---------------------------------------------------------------- the invariant

  /** The caller has closed the adapter's stop channel. */
  predicate Closer(s: State, i: nat, k: nat) {
    && (i, k) in s.passed && i < |s.callers|
    && (s.callers[i].at > k || (s.callers[i].at == k && s.callers[i].phase.HalfClosed?))
  }

  predicate Within(s: State, i: nat, k: nat) {
    i < |s.callers| && s.callers[i].at == k && k < |s.adapters| && !s.callers[i].phase.Checking?
  }

  /** Where callers are: within the adapters they found running and have not finished with. */
  ghost predicate Places(s: State) {
    && (forall k :: 0 <= k < |s.adapters| && s.adapters[k].running ==>
        !s.adapters[k].stopClosed && !s.adapters[k].dataClosed)
    && (forall i: nat, k: nat :: (i, k) in s.passed ==>
          i < |s.callers| && k < |s.adapters| && (s.callers[i].at > k || Within(s, i, k)))
    && (forall i: nat, k: nat :: Within(s, i, k) ==> (i, k) in s.passed)
    && (forall i: nat :: i < |s.callers| && !s.callers[i].phase.Checking? ==> s.callers[i].at < |s.adapters|)
    && (forall i: nat :: i < |s.callers| && !s.callers[i].phase.Checking? && !s.callers[i].phase.Passed? ==>
          !s.adapters[s.callers[i].at].running)
  }

  /** Each stop channel is closed by one caller. */
  ghost predicate OneCloser(s: State) {
    && (forall i: nat, j: nat, k: nat :: Closer(s, i, k) && Closer(s, j, k) ==> i == j)
    && (forall i: nat, k: nat :: Closer(s, i, k) ==>
        k < |s.adapters| && s.adapters[k].stopClosed && !s.adapters[k].running)
  }

  ghost predicate HasCloser(s: State, k: nat) {
    exists j: nat :: Closer(s, j, k)
  }

  ghost predicate HasFinisher(s: State, k: nat) {
    exists j: nat :: Closer(s, j, k) && s.callers[j].at > k
  }

  ghost predicate HasOtherCloser(s: State, i: nat, k: nat) {
    exists j: nat :: Closer(s, j, k) && j != i
  }

  /** What a caller that found an adapter running finds closed there, another such caller has closed. */
  ghost predicate ClosedByCallers(s: State) {
    && (forall i: nat, k: nat :: (i, k) in s.passed && k < |s.adapters| && s.adapters[k].stopClosed ==> HasCloser(s, k))
    && (forall i: nat, k: nat :: (i, k) in s.passed && k < |s.adapters| && s.adapters[k].dataClosed ==>
        HasFinisher(s, k))
    && (forall i: nat :: i < |s.callers| && s.callers[i].phase.Panicked? ==> HasOtherCloser(s, i, s.callers[i].at))
  }

  ghost predicate Invariant(s: State) {
    Places(s) && OneCloser(s) && ClosedByCallers(s)
  }

  lemma StepKeepsPlaces(s: State, i: nat)
    requires Places(s) && Enabled(s, i)
    ensures Places(Next(s, i))
  {
  }

  /** Who closed the stop channel finds the data channel open. */
  lemma CloserFinishes(s: State, i: nat)
    requires Invariant(s) && Enabled(s, i) && s.callers[i].phase.HalfClosed?
    ensures !s.adapters[s.callers[i].at].dataClosed
  {
    var k := s.callers[i].at;
    assert Within(s, i, k) && Closer(s, i, k);
  }

  /** Closers stay closers; only closing an open stop channel makes one. */
  lemma ClosersAfter(s: State, i: nat)
    requires Invariant(s) && Enabled(s, i)
    ensures
      var s', at := Next(s, i), s.callers[i].at;
      && (forall j: nat, k: nat :: Closer(s', j, k) ==>
            Closer(s, j, k)
              || (j == i && k == at && s.callers[i].phase.Cleared? && !s.adapters[k].stopClosed
                  && s'.adapters[k].stopClosed))
      && (forall j: nat, k: nat :: Closer(s, j, k) ==> Closer(s', j, k) && s'.callers[j].at >= s.callers[j].at)
      && (s.callers[i].phase.Cleared? && !s.adapters[at].stopClosed ==> Closer(s', i, at))
  {
    assert !s.callers[i].phase.Checking? ==> Within(s, i, s.callers[i].at);
    if s.callers[i].phase.HalfClosed? {
      CloserFinishes(s, i);
    }
  }

  lemma StepKeepsOneCloser(s: State, i: nat)
    requires Invariant(s) && Enabled(s, i)
    ensures OneCloser(Next(s, i))
  {
    ClosersAfter(s, i);
    var s', at := Next(s, i), s.callers[i].at;
    hide Closer;
    forall j: nat, l: nat, k: nat | Closer(s', j, k) && Closer(s', l, k)
      ensures j == l
    {
    }
  }

  lemma StopChannelHasCloser(s: State, i: nat, j: nat, k: nat)
    requires Invariant(s) && Enabled(s, i)
    requires (j, k) in Next(s, i).passed && k < |s.adapters| && Next(s, i).adapters[k].stopClosed
    ensures HasCloser(Next(s, i), k)
  {
    ClosersAfter(s, i);
    hide Closer;
    if s.adapters[k].stopClosed {
      assert (j, k) in s.passed;
      var c: nat :| Closer(s, c, k);
    }
  }

  lemma DataChannelHasFinisher(s: State, i: nat, j: nat, k: nat)
    requires Invariant(s) && Enabled(s, i)
    requires (j, k) in Next(s, i).passed && k < |s.adapters| && Next(s, i).adapters[k].dataClosed
    ensures HasFinisher(Next(s, i), k)
  {
    ClosersAfter(s, i);
    if s.adapters[k].dataClosed {
      assert (j, k) in s.passed;
      var c: nat :| Closer(s, c, k) && s.callers[c].at > k;
    } else {
      assert k == s.callers[i].at && s.callers[i].phase.HalfClosed? && Closer(s, i, k);
    }
  }

  lemma StepKeepsClosedByCallers(s: State, i: nat)
    requires Invariant(s) && Enabled(s, i)
    ensures ClosedByCallers(Next(s, i))
  {
    var s' := Next(s, i);
    forall j: nat, k: nat | (j, k) in s'.passed && k < |s'.adapters| && s'.adapters[k].stopClosed
      ensures HasCloser(s', k)
    {
      StopChannelHasCloser(s, i, j, k);
    }
    forall j: nat, k: nat | (j, k) in s'.passed && k < |s'.adapters| && s'.adapters[k].dataClosed
      ensures HasFinisher(s', k)
    {
      DataChannelHasFinisher(s, i, j, k);
    }
    forall j: nat | j < |s'.callers| && s'.callers[j].phase.Panicked?
      ensures HasOtherCloser(s', j, s'.callers[j].at)
    {
      PanickedHasOtherCloser(s, i, j);
    }
  }

  lemma PanickedHasOtherCloser(s: State, i: nat, j: nat)
    requires Invariant(s) && Enabled(s, i)
    requires j < |s.callers| && Next(s, i).callers[j].phase.Panicked?
    ensures HasOtherCloser(Next(s, i), j, Next(s, i).callers[j].at)
  {
    ClosersAfter(s, i);
    if i == j {
      CallerPanics(s, i);
    }
    hide Closer;
    var c: nat :| Closer(s, c, s.callers[j].at) && c != j;
  }

  /** A caller panics only over a channel another one has closed. */
  lemma CallerPanics(s: State, i: nat)
    requires Invariant(s) && Enabled(s, i) && Next(s, i).callers[i].phase.Panicked?
    ensures HasOtherCloser(s, i, s.callers[i].at)
  {
    var k := s.callers[i].at;
    assert Within(s, i, k);
    if s.callers[i].phase.Cleared? {
      var j: nat :| Closer(s, j, k);
    } else {
      var j: nat :| Closer(s, j, k) && s.callers[j].at > k;
    }
  }

  lemma StepKeepsInvariant(s: State, i: nat)
    requires Invariant(s) && Enabled(s, i)
    ensures Invariant(Next(s, i))
  {
    StepKeepsPlaces(s, i);
    StepKeepsOneCloser(s, i);
    StepKeepsClosedByCallers(s, i);
  }

  lemma {:induction false} AlwaysInvariant(from: State, steps: seq<nat>, s: State)
    requires Invariant(from) && Reaches(from, steps, s)
    ensures Invariant(s)
    decreases |steps|
  {
    if steps != [] {
      StepKeepsInvariant(from, steps[0]);
      AlwaysInvariant(Next(from, steps[0]), steps[1..], s);
    }
  }

  /** Every caller has gone through all adapters or panicked. */
  ghost predicate Over(s: State) {
    forall i :: 0 <= i < |s.callers| ==> s.callers[i].at >= |s.adapters| || s.callers[i].phase.Panicked?
  }

  /** Two callers found the same adapter running: the second checked before the first had cleared it. */
  ghost predicate Overlapped(s: State) {
    exists i: nat, j: nat, k: nat :: i != j && (i, k) in s.passed && (j, k) in s.passed
  }

  ghost predicate SomeonePanicked(s: State) {
    exists i :: 0 <= i < |s.callers| && s.callers[i].phase.Panicked?
  }

  /** Over every interleaving of any number of stopping calls: one of them panics exactly when two found
      the same adapter running. */
  lemma PanicIffOverlapped(from: State, steps: seq<nat>, s: State)
    requires Initial(from) && Reaches(from, steps, s) && Over(s)
    ensures SomeonePanicked(s) <==> Overlapped(s)
  {
    AlwaysInvariant(from, steps, s);
    if SomeonePanicked(s) {
      var i: nat :| i < |s.callers| && s.callers[i].phase.Panicked?;
      var j: nat :| Closer(s, j, s.callers[i].at) && j != i;
      assert Within(s, i, s.callers[i].at);
    }
    if Overlapped(s) {
      var i: nat, j: nat, k: nat :| i != j && (i, k) in s.passed && (j, k) in s.passed;
      assert !(Closer(s, i, k) && Closer(s, j, k));
    }
  }

  predicate PanickedAt(s: State, i: nat, k: nat) {
    i < |s.callers| && s.callers[i].at == k && s.callers[i].phase.Panicked?
  }

  /** Of the callers that found an adapter running exactly one gets through; the others panic there. */
  lemma OneGetsThrough(from: State, steps: seq<nat>, s: State, i: nat, j: nat, k: nat)
    requires Initial(from) && Reaches(from, steps, s) && Over(s)
    requires i != j && (i, k) in s.passed && (j, k) in s.passed
    ensures PanickedAt(s, i, k) || PanickedAt(s, j, k)
    ensures exists c: nat :: Closer(s, c, k) && !PanickedAt(s, c, k)
  {
    AlwaysInvariant(from, steps, s);
    assert !(Closer(s, i, k) && Closer(s, j, k));
    var p: nat := if Closer(s, i, k) then j else i;
    assert PanickedAt(s, p, k);
    var c: nat :| Closer(s, c, s.callers[p].at) && c != p;
  }

  // ---------------------------------------------------------------- both outcomes occur

  lemma {:induction false} ReachesFurther(from: State, steps: seq<nat>, s: State, i: nat) returns (longer: seq<nat>)
    requires Reaches(from, steps, s) && Enabled(s, i)
    ensures longer == steps + [i] && Reaches(from, longer, Next(s, i))
    decreases |steps|
  {
    longer := steps + [i];
    if steps == [] {
      assert [i][1..] == [];
    } else {
      var rest := ReachesFurther(Next(from, steps[0]), steps[1..], s, i);
      assert longer[1..] == rest;
    }
  }

  const ONE_RUNNING := State([Adapter(true, false, false)], [Caller(0, Checking), Caller(0, Checking)], {})

  /** Both callers of two check before either has cleared the flag: the second to close panics. */
  lemma TwoStopsPanic() returns (steps: seq<nat>, s: State)
    ensures Initial(ONE_RUNNING) && Reaches(ONE_RUNNING, steps, s) && Over(s)
    ensures Overlapped(s) && SomeonePanicked(s)
  {
    var both := {(0 as nat, 0 as nat), (1 as nat, 0 as nat)};
    steps, s := [], ONE_RUNNING;
    steps := ReachesFurther(ONE_RUNNING, steps, s, 0);
    s := Next(s, 0);
    steps := ReachesFurther(ONE_RUNNING, steps, s, 1);
    s := Next(s, 1);
    assert s == State([Adapter(true, false, false)], [Caller(0, Passed), Caller(0, Passed)], both);
    steps := ReachesFurther(ONE_RUNNING, steps, s, 0);
    s := Next(s, 0);
    steps := ReachesFurther(ONE_RUNNING, steps, s, 1);
    s := Next(s, 1);
    assert s == State([Adapter(false, false, false)], [Caller(0, Cleared), Caller(0, Cleared)], both);
    steps := ReachesFurther(ONE_RUNNING, steps, s, 0);
    s := Next(s, 0);
    steps := ReachesFurther(ONE_RUNNING, steps, s, 1);
    s := Next(s, 1);
    assert s == State([Adapter(false, true, false)], [Caller(0, HalfClosed), Caller(0, Panicked)], both);
    steps := ReachesFurther(ONE_RUNNING, steps, s, 0);
    s := Next(s, 0);
    assert s.callers[1].phase.Panicked?;
    assert (0 as nat, 0 as nat) in s.passed && (1 as nat, 0 as nat) in s.passed;
  }

  /** One after the other they stop it without a panic. */
  lemma TwoStopsInTurn() returns (steps: seq<nat>, s: State)
    ensures Reaches(ONE_RUNNING, steps, s) && Over(s) && !Overlapped(s) && !SomeonePanicked(s)
  {
    var first := {(0 as nat, 0 as nat)};
    steps, s := [], ONE_RUNNING;
    steps := ReachesFurther(ONE_RUNNING, steps, s, 0);
    s := Next(s, 0);
    steps := ReachesFurther(ONE_RUNNING, steps, s, 0);
    s := Next(s, 0);
    assert s == State([Adapter(false, false, false)], [Caller(0, Cleared), Caller(0, Checking)], first);
    steps := ReachesFurther(ONE_RUNNING, steps, s, 0);
    s := Next(s, 0);
    steps := ReachesFurther(ONE_RUNNING, steps, s, 0);
    s := Next(s, 0);
    assert s == State([Adapter(false, true, true)], [Caller(1, Checking), Caller(0, Checking)], first);
    steps := ReachesFurther(ONE_RUNNING, steps, s, 1);
    s := Next(s, 1);
  }
}
