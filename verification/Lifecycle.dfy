/** Start, stop and mode switch of the exchange service over its two adapter families (service.go with
    the adapters' Start and Stop of live.go). */
module Lifecycle {

  // ---------------------------------------------------------------- specification values

  /** An adapter; closed means its two channels have been closed, which Stop does and nothing undoes. */
  datatype AdapterView = AdapterView(running: bool, healthy: bool, closed: bool)

  const NEW_ADAPTER := AdapterView(false, false, false)

  /** How a call ends. Closing a closed channel panics. */
  datatype Outcome = Done | Failed | Panicked

  function StartedAdapter(a: AdapterView, dialled: bool): AdapterView {
    if a.running || !dialled then a else a.(running := true, healthy := true)
  }

  function StoppedAdapter(a: AdapterView): AdapterView {
    if a.running then AdapterView(false, false, true) else a
  }

  /** Stopping it would close its channels a second time. */
  predicate Rerun(a: AdapterView) {
    a.running && a.closed
  }

  /** The service's two mode strings. */
  datatype Mode = Live | Test

  datatype Service = Service(mode: Mode, live: seq<AdapterView>, test: seq<AdapterView>, running: bool) {
    function Active(): seq<AdapterView> {
      if mode.Test? then test else live
    }

    function Inactive(): seq<AdapterView> {
      if mode.Test? then live else test
    }

    function WithActive(ads: seq<AdapterView>): Service {
      if mode.Test? then this.(test := ads) else this.(live := ads)
    }
  }

  datatype Ended = Ended(service: Service, outcome: Outcome)

  // ---------------------------------------------------------------- specification of the calls

  /** Which dials succeed: one answer per adapter of the family being started. */
  type Dials = seq<bool>

  predicate Dialled(dials: Dials, i: nat) {
    i < |dials| && dials[i]
  }

  function StartAll(ads: seq<AdapterView>, dials: Dials): seq<AdapterView> {
    seq(|ads|, i requires 0 <= i < |ads| => StartedAdapter(ads[i], Dialled(dials, i)))
  }

  predicate AnyStarted(ads: seq<AdapterView>, dials: Dials) {
    exists i :: 0 <= i < |ads| && (ads[i].running || Dialled(dials, i))
  }

  /** Adapters stopped in order, up to the first whose Stop panics. */
  function StopAll(ads: seq<AdapterView>): (r: seq<AdapterView>)
    ensures |r| == |ads|
  {
    if ads == [] then []
    else [StoppedAdapter(ads[0])] + if Rerun(ads[0]) then ads[1..] else StopAll(ads[1..])
  }

  predicate StopPanics(ads: seq<AdapterView>) {
    exists i :: 0 <= i < |ads| && Rerun(ads[i])
  }

  function AfterStart(v: Service, dials: Dials): Ended {
    if v.running then Ended(v, Done)
    else if AnyStarted(v.Active(), dials) then Ended(v.WithActive(StartAll(v.Active(), dials)).(running := true), Done)
    else Ended(v.WithActive(StartAll(v.Active(), dials)), Failed)
  }

  function AfterStop(v: Service): Ended {
    if !v.running then Ended(v, Done)
    else if StopPanics(v.Active()) then Ended(v.WithActive(StopAll(v.Active())), Panicked)
    else Ended(v.WithActive(StopAll(v.Active())).(running := false), Done)
  }

  /** A switch from the point where it has read the running flag. */
  function SwitchFrom(v: Service, target: Mode, dials: Dials, wasRunning: bool): Ended {
    var stopped := v.WithActive(StopAll(v.Active()));
    if StopPanics(v.Active()) then Ended(stopped, Panicked)
    else
      var switched := stopped.(running := false, mode := target);
      if wasRunning then AfterStart(switched, dials) else Ended(switched, Done)
  }

  function AfterSwitch(v: Service, target: Mode, dials: Dials): Ended {
    if v.mode == target then Ended(v, Done) else SwitchFrom(v, target, dials, v.running)
  }

  // ---------------------------------------------------------------- the objects

  class Adapter {
    var isRunning: bool
    var isHealthy: bool
    var closed: bool

    constructor ()
      ensures View() == NEW_ADAPTER
    {
      isRunning, isHealthy, closed := false, false, false;
    }

    function View(): AdapterView
      reads this
    {
      AdapterView(isRunning, isHealthy, closed)
    }

    method Start(dialled: bool) returns (ok: bool)
      modifies this
      ensures View() == StartedAdapter(old(View()), dialled)
      ensures ok <==> old(isRunning) || dialled
    {
      if isRunning {
        return true;
      }
      if !dialled {
        return false;
      }
      isRunning := true;
      isHealthy := true;
      return true;
    }

    method Stop() returns (panicked: bool)
      modifies this
      ensures View() == StoppedAdapter(old(View()))
      ensures panicked <==> old(Rerun(View()))
    {
      if !isRunning {
        return false;
      }
      isRunning := false;
      isHealthy := false;
      if closed {
        return true;
      }
      closed := true;
      return false;
    }
  }

  function Views(ads: seq<Adapter>): seq<AdapterView>
    reads ads
  {
    seq(|ads|, i requires 0 <= i < |ads| reads ads => ads[i].View())
  }

  /** No adapter is listed twice, within a family or across the two. */
  ghost predicate Distinct(ads: seq<Adapter>) {
    forall i, j :: 0 <= i < j < |ads| ==> ads[i] != ads[j]
  }

  class ExchangeService {
    var currentMode: Mode
    var liveAdapters: seq<Adapter>
    var testAdapters: seq<Adapter>
    var activeAdapters: seq<Adapter>
    var isRunning: bool

    /** The mode is Test exactly when the active family is the test family. */
    ghost predicate Valid()
      reads this
    {
      && Distinct(liveAdapters + testAdapters)
      && activeAdapters == (if currentMode.Test? then testAdapters else liveAdapters)
    }

    function Value(): Service
      reads this, liveAdapters, testAdapters
    {
      Service(currentMode, Views(liveAdapters), Views(testAdapters), isRunning)
    }

    constructor (live: seq<Adapter>, test: seq<Adapter>)
      requires Distinct(live + test)
      ensures Valid() && liveAdapters == live && testAdapters == test
      ensures currentMode.Live? && !isRunning
    {
      currentMode := Live;
      liveAdapters, testAdapters, activeAdapters := live, test, live;
      isRunning := false;
    }

    /** The family that is not active. */
    function Others(): seq<Adapter>
      reads this
    {
      if currentMode.Test? then liveAdapters else testAdapters
    }

    method StartDataProcessing(dials: Dials) returns (outcome: Outcome)
      requires Valid()
      modifies this, liveAdapters, testAdapters
      ensures Valid() && liveAdapters == old(liveAdapters) && testAdapters == old(testAdapters)
      ensures Ended(Value(), outcome) == AfterStart(old(Value()), dials)
      ensures activeAdapters == old(activeAdapters) && currentMode == old(currentMode)
      ensures Views(Others()) == old(Views(Others()))
      ensures forall k :: 0 <= k < |Others()| ==> Others()[k].View() == old(Others()[k].View())
      ensures old(isRunning) ==> outcome == Done && Value() == old(Value())
      ensures !old(isRunning) ==>
        && (forall k :: 0 <= k < |activeAdapters| ==>
              && (activeAdapters[k].isRunning <==> old(activeAdapters[k].isRunning) || Dialled(dials, k))
              && (!old(activeAdapters[k].isRunning) && Dialled(dials, k) ==> activeAdapters[k].isHealthy))
        && (outcome == Failed <==> forall k :: 0 <= k < |activeAdapters| ==> !activeAdapters[k].isRunning)
        && (isRunning <==> outcome == Done) && outcome != Panicked
    {
      if isRunning {
        return Done;
      }
      var inputs := StartActiveAdapters(dials);
      if inputs == 0 {
        return Failed;
      }
      isRunning := true;
      return Done;
    }

    /** The start loop: how many adapters deliver an input channel. */
    method StartActiveAdapters(dials: Dials) returns (inputs: nat)
      requires Valid()
      modifies activeAdapters
      ensures Views(activeAdapters) == StartAll(old(Views(activeAdapters)), dials)
      ensures Views(Others()) == old(Views(Others()))
      ensures forall k :: 0 <= k < |Others()| ==> Others()[k].View() == old(Others()[k].View())
      ensures inputs > 0 <==> AnyStarted(old(Views(activeAdapters)), dials)
      ensures inputs == 0 <==> forall k :: 0 <= k < |activeAdapters| ==> !activeAdapters[k].isRunning
      ensures forall k :: 0 <= k < |activeAdapters| ==>
        && (activeAdapters[k].isRunning <==> old(activeAdapters[k].isRunning) || Dialled(dials, k))
        && (!old(activeAdapters[k].isRunning) && Dialled(dials, k) ==> activeAdapters[k].isHealthy)
    {
      ghost var before := Views(activeAdapters);
      inputs := 0;
      for i := 0 to |activeAdapters|
        invariant forall k :: 0 <= k < i ==> activeAdapters[k].View() == StartedAdapter(before[k], Dialled(dials, k))
        invariant forall k :: i <= k < |activeAdapters| ==> activeAdapters[k].View() == before[k]
        invariant forall k :: 0 <= k < |Others()| ==> Others()[k].View() == old(Others()[k].View())
        invariant inputs > 0 <==> exists k :: 0 <= k < i && (before[k].running || Dialled(dials, k))
      {
        ApartFrom(this, i);
        assert activeAdapters[i].View() == before[i];
        var ok := activeAdapters[i].Start(i < |dials| && dials[i]);
        if ok {
          inputs := inputs + 1;
        }
      }
    }

    method StopCurrentAdapters() returns (panicked: bool)
      requires Valid()
      modifies activeAdapters
      ensures Views(activeAdapters) == StopAll(old(Views(activeAdapters)))
      ensures Views(Others()) == old(Views(Others()))
      ensures forall k :: 0 <= k < |Others()| ==> Others()[k].View() == old(Others()[k].View())
      ensures panicked <==> StopPanics(old(Views(activeAdapters)))
      ensures !panicked ==> forall k :: 0 <= k < |activeAdapters| ==>
        && !activeAdapters[k].isRunning
        && (old(activeAdapters[k].isRunning) ==> !activeAdapters[k].isHealthy && activeAdapters[k].closed)
    {
      hide StopAll, Rerun;
      ghost var before := Views(activeAdapters);
      for i := 0 to |activeAdapters|
        invariant forall k :: 0 <= k < i ==> !Rerun(before[k])
        invariant forall k :: 0 <= k < i ==> activeAdapters[k].View() == StopAll(before)[k] == StoppedAdapter(before[k])
        invariant forall k :: i <= k < |activeAdapters| ==> activeAdapters[k].View() == before[k]
        invariant forall k :: 0 <= k < |Others()| ==> Others()[k].View() == old(Others()[k].View())
      {
        ApartFrom(this, i);
        StopAllAt(before, i);
        assert activeAdapters[i].View() == before[i];
        var p := activeAdapters[i].Stop();
        if p {
          return true;
        }
      }
      return false;
    }

    method StopDataProcessing() returns (outcome: Outcome)
      requires Valid()
      modifies this, liveAdapters, testAdapters
      ensures Valid() && liveAdapters == old(liveAdapters) && testAdapters == old(testAdapters)
      ensures Ended(Value(), outcome) == AfterStop(old(Value()))
      ensures activeAdapters == old(activeAdapters)
      ensures outcome == Done ==> !isRunning
      ensures outcome == Done && old(isRunning) ==> forall k :: 0 <= k < |activeAdapters| ==>
        && !activeAdapters[k].isRunning
        && (old(activeAdapters[k].isRunning) ==> !activeAdapters[k].isHealthy && activeAdapters[k].closed)
    {
      if !isRunning {
        return Done;
      }
      var panicked := StopCurrentAdapters();
      if panicked {
        return Panicked;
      }
      isRunning := false;
      return Done;
    }

    method SwitchToTestMode(dials: Dials) returns (outcome: Outcome)
      requires Valid()
      modifies this, liveAdapters, testAdapters
      ensures Valid() && liveAdapters == old(liveAdapters) && testAdapters == old(testAdapters)
      ensures Ended(Value(), outcome) == AfterSwitch(old(Value()), Test, dials)
      ensures outcome != Panicked ==> currentMode.Test? && activeAdapters == testAdapters
      ensures old(currentMode).Test? ==> outcome == Done && Value() == old(Value())
      ensures outcome != Panicked && old(currentMode).Live? ==>
        && (forall k :: 0 <= k < |liveAdapters| ==> !liveAdapters[k].isRunning)
        && (forall k :: 0 <= k < |testAdapters| ==>
              (testAdapters[k].isRunning <==> old(testAdapters[k].isRunning) || (old(isRunning) && Dialled(dials, k))))
        && (!old(isRunning) ==> Views(testAdapters) == old(Views(testAdapters)))
        && (outcome == Failed <==> old(isRunning) && forall k :: 0 <= k < |testAdapters| ==> !testAdapters[k].isRunning)
        && (isRunning <==> old(isRunning) && outcome == Done)
    {
      hide AfterStart, StartAll, StopAll, StopPanics, Distinct, Dialled;
      if currentMode.Test? {
        return Done;
      }
      ghost var before := Value();
      var wasRunning := isRunning;
      var panicked := StopCurrentAdapters();
      ghost var stopped := before.WithActive(StopAll(before.Active()));
      assert Value() == stopped;
      if panicked {
        return Panicked;
      }
      isRunning := false;
      activeAdapters := testAdapters;
      currentMode := Test;
      assert Value() == stopped.(running := false, mode := Test);
      if wasRunning {
        outcome := StartDataProcessing(dials);
      } else {
        outcome := Done;
      }
    }

    method SwitchToLiveMode(dials: Dials) returns (outcome: Outcome)
      requires Valid()
      modifies this, liveAdapters, testAdapters
      ensures Valid() && liveAdapters == old(liveAdapters) && testAdapters == old(testAdapters)
      ensures Ended(Value(), outcome) == AfterSwitch(old(Value()), Live, dials)
      ensures outcome != Panicked ==> currentMode.Live? && activeAdapters == liveAdapters
      ensures old(currentMode).Live? ==> outcome == Done && Value() == old(Value())
      ensures outcome != Panicked && old(currentMode).Test? ==>
        && (forall k :: 0 <= k < |testAdapters| ==> !testAdapters[k].isRunning)
        && (forall k :: 0 <= k < |liveAdapters| ==>
              (liveAdapters[k].isRunning <==> old(liveAdapters[k].isRunning) || (old(isRunning) && Dialled(dials, k))))
        && (!old(isRunning) ==> Views(liveAdapters) == old(Views(liveAdapters)))
        && (outcome == Failed <==> old(isRunning) && forall k :: 0 <= k < |liveAdapters| ==> !liveAdapters[k].isRunning)
        && (isRunning <==> old(isRunning) && outcome == Done)
    {
      hide AfterStart, StartAll, StopAll, StopPanics, Distinct, Dialled;
      if currentMode.Live? {
        return Done;
      }
      ghost var before := Value();
      var wasRunning := isRunning;
      var panicked := StopCurrentAdapters();
      ghost var stopped := before.WithActive(StopAll(before.Active()));
      assert Value() == stopped;
      if panicked {
        return Panicked;
      }
      isRunning := false;
      activeAdapters := liveAdapters;
      currentMode := Live;
      assert Value() == stopped.(running := false, mode := Live);
      if wasRunning {
        outcome := StartDataProcessing(dials);
      } else {
        outcome := Done;
      }
    }
  }

  /** An active adapter is no other active adapter and none of the inactive family. */
  lemma ApartFrom(e: ExchangeService, i: nat)
    requires e.Valid() && i < |e.activeAdapters|
    ensures forall k :: 0 <= k < |e.activeAdapters| && k != i ==> e.activeAdapters[k] != e.activeAdapters[i]
    ensures forall k :: 0 <= k < |e.Others()| ==> e.Others()[k] != e.activeAdapters[i]
  {
    var all := e.liveAdapters + e.testAdapters;
    assert forall k :: 0 <= k < |e.liveAdapters| ==> all[k] == e.liveAdapters[k];
    assert forall k :: 0 <= k < |e.testAdapters| ==> all[|e.liveAdapters| + k] == e.testAdapters[k];
  }

  /** Up to the first panic StopAll stops adapter by adapter; after it, it leaves the rest alone. */
  lemma {:induction false} StopAllAt(ads: seq<AdapterView>, i: nat)
    requires i < |ads| && forall k :: 0 <= k < i ==> !Rerun(ads[k])
    ensures StopAll(ads)[i] == StoppedAdapter(ads[i])
    ensures Rerun(ads[i]) ==> forall k :: i < k < |ads| ==> StopAll(ads)[k] == ads[k]
  {
    if i > 0 {
      StopAllAt(ads[1..], i - 1);
      assert StopAll(ads) == [StoppedAdapter(ads[0])] + StopAll(ads[1..]);
      assert forall k :: 0 < k < |ads| ==> StopAll(ads)[k] == StopAll(ads[1..])[k - 1] && ads[k] == ads[1..][k - 1];
    }
  }

  // ---------------------------------------------------------------- runs of calls

  datatype Call = StartCall(dials: Dials) | StopCall | SwitchCall(target: Mode, dials: Dials)

  function AfterCall(v: Service, c: Call): Ended {
    match c
    case StartCall(dials) => AfterStart(v, dials)
    case StopCall => AfterStop(v)
    case SwitchCall(target, dials) => AfterSwitch(v, target, dials)
  }

  ghost predicate NoneRunning(ads: seq<AdapterView>) {
    forall i :: 0 <= i < |ads| ==> !ads[i].running
  }

  /** The inactive family is stopped; the service runs exactly when one of its active adapters does. */
  ghost predicate Agrees(v: Service) {
    && NoneRunning(v.Inactive())
    && (v.running <==> !NoneRunning(v.Active()))
  }

  lemma {:induction false} StopAllStops(ads: seq<AdapterView>)
    requires !StopPanics(ads)
    ensures forall i :: 0 <= i < |ads| ==> StopAll(ads)[i] == StoppedAdapter(ads[i])
    ensures NoneRunning(StopAll(ads))
  {
    forall i | 0 <= i < |ads|
      ensures StopAll(ads)[i] == StoppedAdapter(ads[i])
    {
      StopAllAt(ads, i);
    }
  }

  lemma StartKeepsAgreement(v: Service, dials: Dials)
    requires Agrees(v)
    ensures Agrees(AfterStart(v, dials).service)
  {
    var ads, started := v.Active(), StartAll(v.Active(), dials);
    if !v.running && AnyStarted(ads, dials) {
      var i :| 0 <= i < |ads| && (ads[i].running || Dialled(dials, i));
      assert started[i].running;
    }
  }

  /** Once stopped and with the mode turned round, the families agree again. */
  lemma SwitchedAgrees(v: Service, target: Mode)
    requires Agrees(v) && v.mode != target && !StopPanics(v.Active())
    ensures Agrees(v.WithActive(StopAll(v.Active())).(running := false, mode := target))
  {
    StopAllStops(v.Active());
  }

  /** Every call that does not panic keeps the agreement, whatever dials fail. */
  lemma CallKeepsAgreement(v: Service, c: Call)
    requires Agrees(v) && AfterCall(v, c).outcome != Panicked
    ensures Agrees(AfterCall(v, c).service)
  {
    match c
    case StartCall(dials) => StartKeepsAgreement(v, dials);
    case StopCall =>
      if v.running {
        StopAllStops(v.Active());
      }
    case SwitchCall(target, dials) =>
      if v.mode != target {
        SwitchedAgrees(v, target);
        StartKeepsAgreement(v.WithActive(StopAll(v.Active())).(running := false, mode := target), dials);
      }
  }

  /** w follows from v by these calls, none of which panicked. */
  ghost predicate Follows(v: Service, calls: seq<Call>, w: Service)
    decreases |calls|
  {
    if calls == [] then w == v
    else AfterCall(v, calls[0]).outcome != Panicked && Follows(AfterCall(v, calls[0]).service, calls[1..], w)
  }

  /** Over every sequence of completed calls mode, families and running flag agree. */
  lemma {:induction false} AlwaysAgrees(v: Service, calls: seq<Call>, w: Service)
    requires Agrees(v) && Follows(v, calls, w)
    ensures Agrees(w)
    decreases |calls|
  {
    if calls != [] {
      CallKeepsAgreement(v, calls[0]);
      AlwaysAgrees(AfterCall(v, calls[0]).service, calls[1..], w);
    }
  }

  /** The mode these calls ask for last. */
  function LastTarget(mode: Mode, calls: seq<Call>): Mode {
    if calls == [] then mode
    else
      var c := calls[|calls| - 1];
      if c.SwitchCall? then c.target else LastTarget(mode, calls[..|calls| - 1])
  }

  lemma {:induction false} LastTargetOfRest(mode: Mode, calls: seq<Call>)
    requires calls != []
    ensures LastTarget(mode, calls) ==
      LastTarget(if calls[0].SwitchCall? then calls[0].target else mode, calls[1..])
  {
    var n := |calls| - 1;
    if n > 0 && !calls[n].SwitchCall? {
      LastTargetOfRest(mode, calls[..n]);
      assert calls[..n][1..] == calls[1..][..n - 1];
    }
  }

  /** Over every sequence of completed calls the service is in the mode last asked for, whether it was
      running or not and whatever dials failed. */
  lemma {:induction false} ModeIsLastTarget(v: Service, calls: seq<Call>, w: Service)
    requires Follows(v, calls, w)
    ensures w.mode == LastTarget(v.mode, calls)
    decreases |calls|
  {
    if calls != [] {
      ModeIsLastTarget(AfterCall(v, calls[0]).service, calls[1..], w);
      LastTargetOfRest(v.mode, calls);
    }
  }

  // ---------------------------------------------------------------- closed channels

  ghost predicate NoReruns(v: Service) {
    !StopPanics(v.live) && !StopPanics(v.test)
  }

  ghost predicate DialsClosed(ads: seq<AdapterView>, dials: Dials) {
    exists i :: 0 <= i < |ads| && ads[i].closed && Dialled(dials, i)
  }

  /** The call starts, successfully, an adapter that has been stopped before. */
  ghost predicate RestartsStopped(v: Service, c: Call) {
    match c
    case StartCall(dials) => !v.running && DialsClosed(v.Active(), dials)
    case StopCall => false
    case SwitchCall(target, dials) => v.mode != target && v.running && DialsClosed(v.Inactive(), dials)
  }

  lemma StartRerunsIff(v: Service, dials: Dials)
    requires Agrees(v) && NoReruns(v) && !v.running
    ensures StopPanics(AfterStart(v, dials).service.Active()) <==> DialsClosed(v.Active(), dials)
    ensures DialsClosed(v.Active(), dials) ==> AfterStart(v, dials).service.running
    ensures AfterStart(v, dials).service.Inactive() == v.Inactive()
  {
    var ads, started := v.Active(), StartAll(v.Active(), dials);
    assert AfterStart(v, dials).service.Active() == started;
    if DialsClosed(ads, dials) {
      var i :| 0 <= i < |ads| && ads[i].closed && Dialled(dials, i);
      assert Rerun(started[i]);
    }
    if StopPanics(started) {
      var i :| 0 <= i < |started| && Rerun(started[i]);
      assert ads[i].closed && Dialled(dials, i);
    }
  }

  /** From a service without restarted adapters no call panics, and stopping panics right after a call
      exactly when that call restarted an adapter that had been stopped. */
  lemma StopPanicsIff(v: Service, c: Call)
    requires Agrees(v) && NoReruns(v)
    ensures AfterCall(v, c).outcome != Panicked
    ensures AfterStop(AfterCall(v, c).service).outcome == Panicked <==> RestartsStopped(v, c)
    ensures NoReruns(AfterCall(v, c).service) <==> !RestartsStopped(v, c)
  {
    match c
    case StartCall(dials) =>
      if !v.running {
        StartRerunsIff(v, dials);
      }
    case StopCall =>
      if v.running {
        StopAllStops(v.Active());
      }
    case SwitchCall(target, dials) =>
      if v.mode != target {
        var switched := v.WithActive(StopAll(v.Active())).(running := false, mode := target);
        StopAllStops(v.Active());
        SwitchedAgrees(v, target);
        assert switched.Active() == v.Inactive();
        if v.running {
          StartRerunsIff(switched, dials);
        }
      }
  }

  ghost predicate NeverRestarts(v: Service, calls: seq<Call>)
    decreases |calls|
  {
    calls == [] || (!RestartsStopped(v, calls[0]) && NeverRestarts(AfterCall(v, calls[0]).service, calls[1..]))
  }

  /** As long as no stopped adapter is started again, no call ever panics. */
  lemma {:induction false} OneShotRunsNeverPanic(v: Service, calls: seq<Call>) returns (w: Service)
    requires Agrees(v) && NoReruns(v) && NeverRestarts(v, calls)
    ensures Follows(v, calls, w) && Agrees(w) && NoReruns(w)
    decreases |calls|
  {
    w := v;
    if calls != [] {
      StopPanicsIff(v, calls[0]);
      CallKeepsAgreement(v, calls[0]);
      w := OneShotRunsNeverPanic(AfterCall(v, calls[0]).service, calls[1..]);
    }
  }

  ghost predicate AllNew(ads: seq<AdapterView>) {
    ads != [] && forall i :: 0 <= i < |ads| ==> ads[i] == NEW_ADAPTER
  }

  ghost predicate AllDialled(dials: Dials, ads: seq<AdapterView>) {
    |dials| >= |ads| && forall i :: 0 <= i < |dials| ==> dials[i]
  }

  /** With every dial succeeding, a started service survives the switch to test mode and back; the
      next switch panics, because the way back restarted adapters whose channels are closed. */
  lemma ThirdSwitchPanics(v: Service, dials: Dials)
    requires v.mode.Live? && !v.running && AllNew(v.live) && AllNew(v.test)
    requires AllDialled(dials, v.live) && AllDialled(dials, v.test)
    ensures
      var started := AfterStart(v, dials);
      var test := AfterSwitch(started.service, Test, dials);
      var live := AfterSwitch(test.service, Live, dials);
      && started.outcome == test.outcome == live.outcome == Done
      && AfterSwitch(live.service, Test, dials).outcome == Panicked
  {
    var up := AdapterView(true, true, false);
    var s := AfterStart(v, dials).service;
    assert v.live[0] == NEW_ADAPTER && Dialled(dials, 0);
    assert s.live[0] == up && !StopPanics(s.live) && s.test == v.test;
    StopAllStops(s.live);
    StopAllAt(s.live, 0);
    var t := AfterSwitch(s, Test, dials).service;
    assert s.test[0] == NEW_ADAPTER;
    assert t.live == StopAll(s.live) && t.test == StartAll(s.test, dials);
    assert t.test[0] == up && !StopPanics(t.test) && t.running;
    var l := AfterSwitch(t, Live, dials).service;
    StopAllStops(t.test);
    assert l.live == StartAll(t.live, dials);
    assert t.live[0] == AdapterView(false, false, true);
    assert Rerun(l.live[0]);
  }

  // ---------------------------------------------------------------- a stop inside a switch

  /** Where in a switch a StopDataProcessing, which takes only the run lock, can complete: right after
      the running flag was read, after the adapters were stopped, after the flag was reset, or after the
      mode was turned round. */
  datatype Place = AfterReading | AfterStopping | AfterReset | BeforeRestart

  function StopIf(here: bool, v: Service): Ended {
    if here then AfterStop(v) else Ended(v, Done)
  }

  /** A switch with a stop completing inside it. */
  function StopInsideSwitch(v: Service, target: Mode, dials: Dials, place: Place): Ended {
    var read := StopIf(place.AfterReading?, v);
    if read.outcome == Panicked || StopPanics(read.service.Active()) then Ended(read.service, Panicked)
    else
      var stopped := StopIf(place.AfterStopping?, read.service.WithActive(StopAll(read.service.Active())));
      if stopped.outcome == Panicked then stopped
      else
        var reset := StopIf(place.AfterReset?, stopped.service.(running := false));
        var turned := StopIf(place.BeforeRestart?, reset.service.(mode := target));
        if v.running then AfterStart(turned.service, dials) else Ended(turned.service, Done)
  }

  /** Stopping adapters that are stopped changes nothing. */
  lemma {:induction false} StopAllAgain(ads: seq<AdapterView>)
    requires NoneRunning(ads)
    ensures StopAll(ads) == ads && !StopPanics(ads)
  {
    if ads != [] {
      StopAllAgain(ads[1..]);
    }
  }

  /** Wherever it completes, the stop leaves the switch as it would have gone without it. */
  lemma InsideStopChangesNothing(v: Service, target: Mode, dials: Dials, place: Place)
    requires Agrees(v) && v.mode != target && v.running && !StopPanics(v.Active())
    ensures StopInsideSwitch(v, target, dials, place) == SwitchFrom(v, target, dials, true)
  {
    var ads := v.Active();
    StopAllStops(ads);
    StopAllAgain(StopAll(ads));
    var stopped := v.WithActive(StopAll(ads));
    assert stopped.Active() == StopAll(ads) && stopped.WithActive(StopAll(ads)) == stopped;
    hide StopAll, StopPanics, AfterStart, NoneRunning;
    match place
    case AfterReading =>
    case AfterStopping =>
    case AfterReset =>
    case BeforeRestart =>
  }

  /** One after the other, in either order, both calls leave the service stopped. Interleaved, the stop
      is lost, wherever it completes, exactly when the switch finds an adapter to start. */
  lemma StopLostIff(v: Service, target: Mode, dials: Dials, place: Place)
    requires Agrees(v) && v.mode != target && v.running
    requires !StopPanics(v.Active()) && AfterStop(AfterSwitch(v, target, dials).service).outcome != Panicked
    ensures !AfterSwitch(AfterStop(v).service, target, dials).service.running
    ensures !AfterStop(AfterSwitch(v, target, dials).service).service.running
    ensures StopInsideSwitch(v, target, dials, place).outcome != Panicked
    ensures StopInsideSwitch(v, target, dials, place).service.running
            <==> exists i :: 0 <= i < |v.Inactive()| && Dialled(dials, i)
  {
    InsideStopChangesNothing(v, target, dials, place);
    var stopped := AfterStop(v).service;
    StopAllStops(v.Active());
    assert stopped.Active() == StopAll(v.Active()) && stopped.Inactive() == v.Inactive();
    StopAllAgain(stopped.Active());
    var switched := v.WithActive(StopAll(v.Active())).(running := false, mode := target);
    assert switched.Active() == v.Inactive();
  }

  // ---------------------------------------------------------------- a start inside a switch

  function StartIf(here: bool, v: Service, dials: Dials): Ended {
    if here then AfterStart(v, dials) else Ended(v, Done)
  }

  /** A switch with a StartDataProcessing, which takes only the run lock too, completing inside it. */
  function StartInsideSwitch(v: Service, target: Mode, inner: Dials, dials: Dials, place: Place): Ended {
    var read := StartIf(place.AfterReading?, v, inner).service;
    if StopPanics(read.Active()) then Ended(read.WithActive(StopAll(read.Active())), Panicked)
    else
      var stopped := StartIf(place.AfterStopping?, read.WithActive(StopAll(read.Active())), inner).service;
      var reset := StartIf(place.AfterReset?, stopped.(running := false), inner).service;
      var turned := StartIf(place.BeforeRestart?, reset.(mode := target), inner).service;
      if v.running then AfterStart(turned, dials) else Ended(turned, Done)
  }

  /** The inner start finds the service not running with the old family still active but stopped. */
  predicate StartsOldFamily(v: Service, place: Place) {
    place.AfterReset? || (place.AfterStopping? && !v.running)
  }

  ghost predicate AnyDialled(ads: seq<AdapterView>, dials: Dials) {
    exists i :: 0 <= i < |ads| && Dialled(dials, i)
  }

  /** Starting a stopped family has it run exactly when a dial succeeds. */
  lemma StartedFamily(v: Service, dials: Dials)
    requires NoneRunning(v.Active()) && !v.running
    ensures
      var w := AfterStart(v, dials).service;
      && w.mode == v.mode && w.Inactive() == v.Inactive()
      && (w.running <==> AnyDialled(v.Active(), dials)) && (NoneRunning(w.Active()) <==> !AnyDialled(v.Active(), dials))
  {
    var started := StartAll(v.Active(), dials);
    if AnyDialled(v.Active(), dials) {
      var i :| 0 <= i < |v.Active()| && Dialled(dials, i);
      assert started[i].running;
    }
  }

  /** Turned round, a service agrees exactly when its old family is stopped, if the new one is and the
      flag is reset. */
  lemma TurnedAgreesIff(v: Service, target: Mode)
    requires v.mode != target && NoneRunning(v.Inactive())
    ensures Agrees(v.(mode := target, running := false)) <==> NoneRunning(v.Active())
  {
    var turned := v.(mode := target, running := false);
    assert turned.Inactive() == v.Active() && turned.Active() == v.Inactive();
  }

  /** A start completing inside a switch leaves mode, families and running flag in agreement exactly
      unless it comes while the old family is stopped but still active, and one of its dials succeeds:
      then the switch turns to the new family and the old one keeps running. */
  lemma StartInsideSwitchAgreesIff(v: Service, target: Mode, inner: Dials, dials: Dials, place: Place)
    requires Agrees(v) && v.mode != target
    requires StartInsideSwitch(v, target, inner, dials, place).outcome != Panicked
    ensures Agrees(StartInsideSwitch(v, target, inner, dials, place).service)
            <==> !(StartsOldFamily(v, place) && AnyDialled(v.Active(), inner))
  {
    var read := StartIf(place.AfterReading?, v, inner).service;
    StartKeepsAgreement(v, inner);
    StopAllStops(read.Active());
    var stopped := read.WithActive(StopAll(read.Active()));
    assert stopped.Active() == StopAll(read.Active()) && stopped.Inactive() == v.Inactive() && stopped.mode == v.mode;
    assert AnyDialled(stopped.Active(), inner) <==> AnyDialled(v.Active(), inner);
    hide StopAll, StopPanics, Agrees, AfterStart, NoneRunning;
    var reset := stopped.(running := false);
    TurnedAgreesIff(stopped, target);
    var turned := reset.(mode := target);
    assert Agrees(turned);
    StartKeepsAgreement(turned, dials);
    match place
    case AfterReading =>
    case BeforeRestart =>
      StartKeepsAgreement(turned, inner);
      StartKeepsAgreement(AfterStart(turned, inner).service, dials);
    case AfterStopping =>
      if v.running {
        RunningStartsNothing(stopped, inner);
      } else {
        StartedFamily(stopped, inner);
        TurnedAgreesIff(AfterStart(stopped, inner).service, target);
      }
    case AfterReset =>
      StartedFamily(reset, inner);
      StartedThenTurned(AfterStart(reset, inner).service, target, dials);
  }

  lemma RunningStartsNothing(v: Service, dials: Dials)
    requires v.running
    ensures AfterStart(v, dials) == Ended(v, Done)
  {
  }

  /** A running old family spoils the turned service for good; a stopped one does not. */
  lemma StartedThenTurned(w: Service, target: Mode, dials: Dials)
    requires w.mode != target && NoneRunning(w.Inactive())
    requires w.running <==> !NoneRunning(w.Active())
    ensures
      var turned := w.(mode := target);
      && (Agrees(turned) <==> !w.running)
      && (Agrees(AfterStart(turned, dials).service) <==> !w.running)
  {
    var turned := w.(mode := target);
    assert turned.Inactive() == w.Active() && turned.Active() == w.Inactive();
    if w.running {
      RunningStartsNothing(turned, dials);
    } else {
      StartKeepsAgreement(turned, dials);
    }
  }
}
