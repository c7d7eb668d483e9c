/** The two read-write locks of the exchange service, with Go's semantics: a writer first announces
    itself, which keeps new readers and other writers out, then waits for the readers inside. */
module Locks {

  /** Lock operations, and the work between them that matters here: stopping and starting the active
      adapters. */
  datatype Op =
    | RLock(lock: nat) | RUnlock(lock: nat) | Lock(lock: nat) | Unlock(lock: nat)
    | StopAdapters | StartAdapters | Work

  /** A call in progress: the operations left, the locks held, and whether the Lock at the head of the
      list has been announced. */
  datatype Thread = Thread(todo: seq<Op>, readHeld: set<nat>, writeHeld: set<nat>, announced: bool)

  predicate Announces(t: Thread, lock: nat) {
    t.announced && t.todo != [] && t.todo[0] == Lock(lock)
  }

  /** A writer holds the lock or has announced itself on it. */
  ghost predicate WriterAt(ts: seq<Thread>, lock: nat) {
    exists j :: 0 <= j < |ts| && (lock in ts[j].writeHeld || Announces(ts[j], lock))
  }

  ghost predicate ReaderAt(ts: seq<Thread>, lock: nat) {
    exists j :: 0 <= j < |ts| && lock in ts[j].readHeld
  }

  ghost predicate CanStep(ts: seq<Thread>, i: nat) {
    i < |ts| && ts[i].todo != [] &&
    match ts[i].todo[0]
    case RLock(l) => !WriterAt(ts, l)
    case Lock(l) => if ts[i].announced then !ReaderAt(ts, l) else !WriterAt(ts, l)
    case _ => true
  }

  function ReadsAfter(op: Op, r: set<nat>): set<nat> {
    match op
    case RLock(l) => r + {l}
    case RUnlock(l) => r - {l}
    case _ => r
  }

  function WritesAfter(op: Op, w: set<nat>): set<nat> {
    match op
    case Lock(l) => w + {l}
    case Unlock(l) => w - {l}
    case _ => w
  }

  /** A Lock takes two steps, announcing and entering; everything else takes one. */
  function Advanced(t: Thread): Thread
    requires t.todo != []
  {
    var op := t.todo[0];
    if op.Lock? && !t.announced then t.(announced := true)
    else Thread(t.todo[1..], ReadsAfter(op, t.readHeld), WritesAfter(op, t.writeHeld), false)
  }

  // ---------------------------------------------------------------- the service's calls

  const MODE := 0
  const RUN := 1

  /** Calls by the path they take: a switch finds the mode already set, fails to stop adapters, finds
      the service stopped, or restarts it; a stop finds the service stopped or running. */
  datatype Call =
    | SwitchDone | SwitchStopFails | SwitchStopped | SwitchRestarts
    | StartProcessing | StopIdle | StopRunning
    | CurrentMode | ActiveAdapters | IsRunning | Stats

  function Program(c: Call): seq<Op> {
    match c
    case SwitchDone => [Lock(MODE), Unlock(MODE)]
    case SwitchStopFails => [Lock(MODE), RLock(RUN), RUnlock(RUN), StopAdapters, Unlock(MODE)]
    case SwitchStopped =>
      [Lock(MODE), RLock(RUN), RUnlock(RUN), StopAdapters, Lock(RUN), Unlock(RUN), Work, Unlock(MODE)]
    case SwitchRestarts =>
      [Lock(MODE), RLock(RUN), RUnlock(RUN), StopAdapters, Lock(RUN), Unlock(RUN), Work, Lock(RUN), StartAdapters,
       Unlock(RUN), Unlock(MODE)]
    case StartProcessing => [Lock(RUN), StartAdapters, Unlock(RUN)]
    case StopIdle => [Lock(RUN), Unlock(RUN)]
    case StopRunning => [Lock(RUN), StopAdapters, Unlock(RUN)]
    case CurrentMode => [RLock(MODE), Work, RUnlock(MODE)]
    case ActiveAdapters => [RLock(MODE), Work, RUnlock(MODE)]
    case IsRunning => [RLock(RUN), Work, RUnlock(RUN)]
    case Stats => [RLock(MODE), RLock(RUN), Work, RUnlock(RUN), RUnlock(MODE)]
  }

  datatype Step = Invoke(call: Call) | Advance(thread: nat)

  ghost predicate Enabled(ts: seq<Thread>, step: Step) {
    step.Invoke? || CanStep(ts, step.thread)
  }

  function Next(ts: seq<Thread>, step: Step): seq<Thread>
    requires step.Advance? ==> step.thread < |ts| && ts[step.thread].todo != []
  {
    match step
    case Invoke(c) => ts + [Thread(Program(c), {}, {}, false)]
    case Advance(i) => ts[i := Advanced(ts[i])]
  }

  /** ts results from start by these steps, each enabled in its turn. */
  ghost predicate Leads(start: seq<Thread>, steps: seq<Step>, ts: seq<Thread>)
    decreases |steps|
  {
    if steps == [] then ts == start
    else Enabled(start, steps[0]) && Leads(Next(start, steps[0]), steps[1..], ts)
  }

  // ---------------------------------------------------------------- the locking discipline

  ghost predicate Above(lock: nat, held: set<nat>) {
    forall h :: h in held ==> h < lock
  }

  /** A lock is taken only above all held ones and released only when held. Adapters are stopped only
      under one of the two locks, and started only under the run lock. */
  ghost predicate Allowed(op: Op, r: set<nat>, w: set<nat>) {
    match op
    case RLock(l) => Above(l, r + w)
    case Lock(l) => Above(l, r + w)
    case RUnlock(l) => l in r
    case Unlock(l) => l in w
    case StopAdapters => MODE in w || RUN in w
    case StartAdapters => RUN in w
    case Work => true
  }

  /** Every operation is allowed in its turn and nothing is kept at the end. */
  ghost predicate Hierarchical(todo: seq<Op>, r: set<nat>, w: set<nat>)
    decreases |todo|
  {
    if todo == [] then r == {} && w == {}
    else Allowed(todo[0], r, w) && Hierarchical(todo[1..], ReadsAfter(todo[0], r), WritesAfter(todo[0], w))
  }

  ghost predicate Disciplined(t: Thread) {
    Hierarchical(t.todo, t.readHeld, t.writeHeld) && (t.announced ==> t.todo != [] && t.todo[0].Lock?)
  }

  ghost predicate AllDisciplined(ts: seq<Thread>) {
    forall i :: 0 <= i < |ts| ==> Disciplined(ts[i])
  }

  lemma AdvancedStaysDisciplined(t: Thread)
    requires Disciplined(t) && t.todo != []
    ensures Disciplined(Advanced(t))
  {
  }

  // ---------------------------------------------------------------- no deadlock

  predicate Acquires(t: Thread) {
    t.todo != [] && (t.todo[0].RLock? || t.todo[0].Lock?)
  }

  /** Some acquiring thread wants the highest lock any thread wants. */
  lemma {:induction false} HighestWanted(ts: seq<Thread>) returns (i: nat)
    requires exists j :: 0 <= j < |ts| && Acquires(ts[j])
    ensures i < |ts| && Acquires(ts[i])
    ensures forall j :: 0 <= j < |ts| && Acquires(ts[j]) ==> ts[j].todo[0].lock <= ts[i].todo[0].lock
  {
    var n := |ts| - 1;
    if k :| 0 <= k < n && Acquires(ts[k]) {
      assert ts[..n][k] == ts[k];
      i := HighestWanted(ts[..n]);
      assert forall j :: 0 <= j < n ==> ts[..n][j] == ts[j];
      if Acquires(ts[n]) && ts[i].todo[0].lock < ts[n].todo[0].lock {
        i := n;
      }
    } else {
      i := n;
    }
  }

  /** A thread holding a lock still has something to do, and if that is an acquisition it is of a
      higher lock. */
  lemma HolderWantsHigher(t: Thread, lock: nat)
    requires Disciplined(t) && (lock in t.readHeld || lock in t.writeHeld)
    ensures t.todo != []
    ensures Acquires(t) ==> lock < t.todo[0].lock
  {
  }

  /** Disciplined threads never block each other: while any has something left, some can step. */
  lemma SomeThreadCanStep(ts: seq<Thread>) returns (i: nat)
    requires AllDisciplined(ts) && exists j :: 0 <= j < |ts| && ts[j].todo != []
    ensures CanStep(ts, i)
  {
    if k :| 0 <= k < |ts| && ts[k].todo != [] && !Acquires(ts[k]) {
      return k;
    }
    i := HighestWanted(ts);
    var lock := ts[i].todo[0].lock;
    forall j | 0 <= j < |ts|
      ensures lock !in ts[j].readHeld && lock !in ts[j].writeHeld
    {
      if lock in ts[j].readHeld || lock in ts[j].writeHeld {
        HolderWantsHigher(ts[j], lock);
      }
    }
    if !CanStep(ts, i) {
      i :| 0 <= i < |ts| && Announces(ts[i], lock);
    }
  }

  // ---------------------------------------------------------------- the calls are disciplined

  /** One operation in front of a disciplined rest. */
  lemma Prepend(op: Op, rest: seq<Op>, r: set<nat>, w: set<nat>, r': set<nat>, w': set<nat>)
    requires Hierarchical(rest, r', w')
    requires Allowed(op, r, w) && r' == ReadsAfter(op, r) && w' == WritesAfter(op, w)
    ensures Hierarchical([op] + rest, r, w)
  {
    assert ([op] + rest)[1..] == rest;
  }

  /** At most one operation, not one on a lock. */
  predicate IsBody(body: seq<Op>) {
    |body| <= 1 && (body != [] ==> body[0].StopAdapters? || body[0].StartAdapters? || body[0].Work?)
  }

  lemma BodyFirst(body: seq<Op>, rest: seq<Op>, r: set<nat>, w: set<nat>)
    requires IsBody(body) && (body != [] ==> Allowed(body[0], r, w)) && Hierarchical(rest, r, w)
    ensures Hierarchical(body + rest, r, w)
  {
    if body == [] {
      assert body + rest == rest;
    } else {
      Prepend(body[0], rest, r, w, r, w);
      assert [body[0]] == body;
    }
  }

  /** A whole write section on a lock above all held ones. */
  lemma WriteSection(l: nat, body: seq<Op>, rest: seq<Op>, r: set<nat>, w: set<nat>)
    requires IsBody(body) && (body != [] ==> Allowed(body[0], r, w + {l}))
    requires Above(l, r + w) && Hierarchical(rest, r, w)
    ensures Hierarchical([Lock(l)] + (body + ([Unlock(l)] + rest)), r, w)
  {
    var tail := [Unlock(l)] + rest;
    Prepend(Unlock(l), rest, r, w + {l}, r, w);
    BodyFirst(body, tail, r, w + {l});
    Prepend(Lock(l), body + tail, r, w, r, w + {l});
  }

  /** A whole read section on a lock above all held ones. */
  lemma ReadSection(l: nat, body: seq<Op>, rest: seq<Op>, r: set<nat>, w: set<nat>)
    requires IsBody(body) && (body != [] ==> Allowed(body[0], r + {l}, w))
    requires Above(l, r + w) && Hierarchical(rest, r, w)
    ensures Hierarchical([RLock(l)] + (body + ([RUnlock(l)] + rest)), r, w)
  {
    var tail := [RUnlock(l)] + rest;
    Prepend(RUnlock(l), rest, r + {l}, w, r, w);
    BodyFirst(body, tail, r + {l}, w);
    Prepend(RLock(l), body + tail, r, w, r + {l}, w);
  }

  /** The paths of a switch, from the section that reads the running flag on. */
  lemma SwitchIsHierarchical(rest: seq<Op>)
    requires Hierarchical(rest, {}, {MODE})
    ensures Hierarchical([Lock(MODE)] + ([RLock(RUN)] + ([RUnlock(RUN)] + ([StopAdapters] + rest))), {}, {})
  {
    Prepend(StopAdapters, rest, {}, {MODE}, {}, {MODE});
    ReadSection(RUN, [], [StopAdapters] + rest, {}, {MODE});
    assert [] + ([RUnlock(RUN)] + ([StopAdapters] + rest)) == [RUnlock(RUN)] + ([StopAdapters] + rest);
    Prepend(Lock(MODE), [RLock(RUN)] + ([RUnlock(RUN)] + ([StopAdapters] + rest)), {}, {}, {}, {MODE});
  }

  /** The last operation of every switch. */
  lemma ModeReleased()
    ensures Hierarchical([Unlock(MODE)], {}, {MODE})
  {
    Prepend(Unlock(MODE), [], {}, {MODE}, {}, {});
    assert [Unlock(MODE)] + [] == [Unlock(MODE)];
  }

  lemma SwitchDoneIsHierarchical()
    ensures Hierarchical(Program(SwitchDone), {}, {})
  {
    ModeReleased();
    Prepend(Lock(MODE), [Unlock(MODE)], {}, {}, {}, {MODE});
    assert Program(SwitchDone) == [Lock(MODE)] + [Unlock(MODE)];
  }

  lemma SwitchStopFailsIsHierarchical()
    ensures Hierarchical(Program(SwitchStopFails), {}, {})
  {
    hide Hierarchical;
    var end := [Unlock(MODE)];
    ModeReleased();
    SwitchIsHierarchical(end);
    assert Program(SwitchStopFails) == [Lock(MODE)] + ([RLock(RUN)] + ([RUnlock(RUN)] + ([StopAdapters] + end)));
  }

  lemma SwitchStoppedIsHierarchical()
    ensures Hierarchical(Program(SwitchStopped), {}, {})
  {
    hide Hierarchical;
    var end := [Unlock(MODE)];
    ModeReleased();
    Prepend(Work, end, {}, {MODE}, {}, {MODE});
    WriteSection(RUN, [], [Work] + end, {}, {MODE});
    var reset := [Lock(RUN)] + ([] + ([Unlock(RUN)] + ([Work] + end)));
    SwitchIsHierarchical(reset);
    assert Program(SwitchStopped) == [Lock(MODE)] + ([RLock(RUN)] + ([RUnlock(RUN)] + ([StopAdapters] + reset)));
  }

  lemma SwitchRestartsIsHierarchical()
    ensures Hierarchical(Program(SwitchRestarts), {}, {})
  {
    hide Hierarchical;
    var end := [Unlock(MODE)];
    ModeReleased();
    WriteSection(RUN, [StartAdapters], end, {}, {MODE});
    var restart := [Lock(RUN)] + ([StartAdapters] + ([Unlock(RUN)] + end));
    assert restart == [Lock(RUN), StartAdapters, Unlock(RUN), Unlock(MODE)];
    Prepend(Work, restart, {}, {MODE}, {}, {MODE});
    WriteSection(RUN, [], [Work] + restart, {}, {MODE});
    var reset := [Lock(RUN)] + ([] + ([Unlock(RUN)] + ([Work] + restart)));
    assert reset == [Lock(RUN), Unlock(RUN), Work, Lock(RUN), StartAdapters, Unlock(RUN), Unlock(MODE)];
    SwitchIsHierarchical(reset);
    assert Program(SwitchRestarts) == [Lock(MODE)] + ([RLock(RUN)] + ([RUnlock(RUN)] + ([StopAdapters] + reset)));
  }

  lemma StatsIsHierarchical()
    ensures Hierarchical(Program(Stats), {}, {})
  {
    Prepend(RUnlock(MODE), [], {MODE}, {}, {}, {});
    assert [RUnlock(MODE)] + [] == [RUnlock(MODE)];
    ReadSection(RUN, [Work], [RUnlock(MODE)], {MODE}, {});
    var inner := [RLock(RUN)] + ([Work] + ([RUnlock(RUN)] + [RUnlock(MODE)]));
    Prepend(RLock(MODE), inner, {}, {}, {MODE}, {});
    assert Program(Stats) == [RLock(MODE)] + inner;
  }

  /** Calls that consist of one section on one lock. */
  lemma SectionCallsAreHierarchical(c: Call)
    requires c in {StartProcessing, StopIdle, StopRunning, CurrentMode, ActiveAdapters, IsRunning}
    ensures Hierarchical(Program(c), {}, {})
  {
    assert Hierarchical([], {}, {});
    hide Hierarchical;
    var lock := if c in {CurrentMode, ActiveAdapters} then MODE else RUN;
    var body := if c.StopIdle? then [] else if c.StopRunning? then [StopAdapters]
      else if c.StartProcessing? then [StartAdapters] else [Work];
    if c in {CurrentMode, ActiveAdapters, IsRunning} {
      ReadSection(lock, body, [], {}, {});
      assert Program(c) == [RLock(lock)] + (body + ([RUnlock(lock)] + []));
    } else {
      WriteSection(lock, body, [], {}, {});
      assert Program(c) == [Lock(lock)] + (body + ([Unlock(lock)] + []));
    }
  }

  /** Every call of the service takes the mode lock before the run lock, never the other way. */
  lemma ProgramsAreHierarchical(c: Call)
    ensures Hierarchical(Program(c), {}, {})
  {
    hide Hierarchical, Program;
    match c
    case SwitchDone => SwitchDoneIsHierarchical();
    case SwitchStopFails => SwitchStopFailsIsHierarchical();
    case SwitchStopped => SwitchStoppedIsHierarchical();
    case SwitchRestarts => SwitchRestartsIsHierarchical();
    case Stats => StatsIsHierarchical();
    case StartProcessing => SectionCallsAreHierarchical(c);
    case StopIdle => SectionCallsAreHierarchical(c);
    case StopRunning => SectionCallsAreHierarchical(c);
    case CurrentMode => SectionCallsAreHierarchical(c);
    case ActiveAdapters => SectionCallsAreHierarchical(c);
    case IsRunning => SectionCallsAreHierarchical(c);
  }

  // ---------------------------------------------------------------- every run

  lemma StepKeepsDiscipline(ts: seq<Thread>, step: Step)
    requires AllDisciplined(ts) && Enabled(ts, step)
    ensures AllDisciplined(Next(ts, step))
  {
    match step
    case Invoke(c) => ProgramsAreHierarchical(c);
    case Advance(i) => AdvancedStaysDisciplined(ts[i]);
  }

  lemma {:induction false} RunKeepsDiscipline(start: seq<Thread>, steps: seq<Step>, ts: seq<Thread>)
    requires AllDisciplined(start) && Leads(start, steps, ts)
    ensures AllDisciplined(ts)
    decreases |steps|
  {
    if steps != [] {
      StepKeepsDiscipline(start, steps[0]);
      RunKeepsDiscipline(Next(start, steps[0]), steps[1..], ts);
    }
  }

  /** However many calls are in progress and however they interleave, while one is unfinished some
      call can take a step. */
  lemma DeadlockFree(steps: seq<Step>, ts: seq<Thread>)
    requires Leads([], steps, ts)
    ensures (exists j :: 0 <= j < |ts| && ts[j].todo != []) ==> exists i :: CanStep(ts, i)
  {
    RunKeepsDiscipline([], steps, ts);
    if exists j :: 0 <= j < |ts| && ts[j].todo != [] {
      var i := SomeThreadCanStep(ts);
    }
  }

  /** Operations left, an unannounced Lock counting twice. */
  function Left(t: Thread): nat
    decreases |t.todo|
  {
    if t.todo == [] then 0
    else Left(t.(todo := t.todo[1..], announced := false)) + if t.todo[0].Lock? && !t.announced then 2 else 1
  }

  function AllLeft(ts: seq<Thread>): nat {
    if ts == [] then 0 else AllLeft(ts[..|ts| - 1]) + Left(ts[|ts| - 1])
  }

  lemma {:induction false} LeftIgnoresHeld(t: Thread, u: Thread)
    requires t.todo == u.todo && t.announced == u.announced
    ensures Left(t) == Left(u)
    decreases |t.todo|
  {
    if t.todo != [] {
      LeftIgnoresHeld(t.(todo := t.todo[1..], announced := false), u.(todo := u.todo[1..], announced := false));
    }
  }

  lemma AdvancingLeavesOneLess(t: Thread)
    requires t.todo != [] && (t.announced ==> t.todo[0].Lock?)
    ensures Left(Advanced(t)) == Left(t) - 1
  {
    if t.todo[0].Lock? && !t.announced {
      assert Left(t) == Left(t.(todo := t.todo[1..], announced := false)) + 2;
      LeftIgnoresHeld(Advanced(t).(todo := t.todo[1..], announced := false),
                      t.(todo := t.todo[1..], announced := false));
    } else {
      LeftIgnoresHeld(Advanced(t), t.(todo := t.todo[1..], announced := false));
    }
  }

  lemma {:induction false} AllLeftUpdate(ts: seq<Thread>, i: nat, t: Thread)
    requires i < |ts|
    ensures AllLeft(ts[i := t]) + Left(ts[i]) == AllLeft(ts) + Left(t)
  {
    var n := |ts| - 1;
    if i < n {
      AllLeftUpdate(ts[..n], i, t);
      assert ts[i := t][..n] == ts[..n][i := t];
    } else {
      assert ts[i := t][..n] == ts[..n];
    }
  }

  /** Once no new call comes, the calls in progress finish within a number of steps fixed now:
      every step leaves one operation less, and by DeadlockFree steps run out only at the end. */
  lemma {:induction false} CallsFinish(ts: seq<Thread>, steps: seq<Step>, ts': seq<Thread>)
    requires AllDisciplined(ts) && Leads(ts, steps, ts')
    requires forall i :: 0 <= i < |steps| ==> steps[i].Advance?
    ensures AllLeft(ts') + |steps| == AllLeft(ts)
    decreases |steps|
  {
    if steps != [] {
      var i := steps[0].thread;
      StepKeepsDiscipline(ts, steps[0]);
      AdvancingLeavesOneLess(ts[i]);
      AllLeftUpdate(ts, i, Advanced(ts[i]));
      CallsFinish(Next(ts, steps[0]), steps[1..], ts');
    }
  }

  // ---------------------------------------------------------------- mutual exclusion

  /** At most one call is at a lock as a writer, and one that holds it excludes all readers. */
  ghost predicate Exclusive(ts: seq<Thread>) {
    && (forall i, j, l :: 0 <= i < |ts| && 0 <= j < |ts| && i != j && (l in ts[i].writeHeld || Announces(ts[i], l)) ==>
          l !in ts[j].writeHeld && !Announces(ts[j], l))
    && (forall i, j, l :: 0 <= i < |ts| && 0 <= j < |ts| && l in ts[i].writeHeld ==> l !in ts[j].readHeld)
  }

  lemma StepKeepsExclusion(ts: seq<Thread>, step: Step)
    requires Exclusive(ts) && Enabled(ts, step)
    ensures Exclusive(Next(ts, step))
  {
    if step.Advance? {
      var i := step.thread;
      var ts' := Next(ts, step);
      forall j, k, l | 0 <= j < |ts| && 0 <= k < |ts| && j != k && (l in ts'[j].writeHeld || Announces(ts'[j], l))
        ensures l !in ts'[k].writeHeld && !Announces(ts'[k], l)
      {
        assert (l in ts[j].writeHeld || Announces(ts[j], l))
          || (j == i && ts[i].todo[0] == Lock(l) && !ts[i].announced);
      }
    }
  }

  lemma {:induction false} AlwaysExclusive(start: seq<Thread>, steps: seq<Step>, ts: seq<Thread>)
    requires Exclusive(start) && Leads(start, steps, ts)
    ensures Exclusive(ts)
    decreases |steps|
  {
    if steps != [] {
      StepKeepsExclusion(start, steps[0]);
      AlwaysExclusive(Next(start, steps[0]), steps[1..], ts);
    }
  }

  // ---------------------------------------------------------------- who touches adapters at the same time

  predicate At(ts: seq<Thread>, i: nat, op: Op) {
    i < |ts| && ts[i].todo != [] && ts[i].todo[0] == op
  }

  /** Two calls stopping adapters at once hold different locks: one is a switch, under the mode lock, the
      other a stop, under the run lock. While adapters are being started only a switch can be stopping
      some, and no other call starts any. */
  lemma AdaptersTouchedAcrossLocks(steps: seq<Step>, ts: seq<Thread>, i: nat, j: nat)
    requires Leads([], steps, ts) && i != j
    ensures At(ts, i, StopAdapters) && At(ts, j, StopAdapters) ==>
      || (MODE in ts[i].writeHeld && RUN !in ts[i].writeHeld && RUN in ts[j].writeHeld && MODE !in ts[j].writeHeld)
      || (MODE in ts[j].writeHeld && RUN !in ts[j].writeHeld && RUN in ts[i].writeHeld && MODE !in ts[i].writeHeld)
    ensures At(ts, i, StartAdapters) && At(ts, j, StopAdapters) ==> MODE in ts[j].writeHeld && RUN !in ts[j].writeHeld
    ensures !(At(ts, i, StartAdapters) && At(ts, j, StartAdapters))
  {
    RunKeepsDiscipline([], steps, ts);
    AlwaysExclusive([], steps, ts);
    assert At(ts, i, StopAdapters) ==> MODE in ts[i].writeHeld || RUN in ts[i].writeHeld;
    assert At(ts, j, StopAdapters) ==> MODE in ts[j].writeHeld || RUN in ts[j].writeHeld;
    assert At(ts, i, StartAdapters) ==> RUN in ts[i].writeHeld;
    assert At(ts, j, StartAdapters) ==> RUN in ts[j].writeHeld;
  }

  lemma {:induction false} LeadsFurther(start: seq<Thread>, steps: seq<Step>, ts: seq<Thread>, step: Step)
    returns (longer: seq<Step>)
    requires Leads(start, steps, ts) && Enabled(ts, step)
    ensures longer == steps + [step] && Leads(start, longer, Next(ts, step))
    decreases |steps|
  {
    longer := steps + [step];
    if steps == [] {
      assert [step][1..] == [];
    } else {
      var rest := LeadsFurther(Next(start, steps[0]), steps[1..], ts, step);
      assert longer[1..] == rest;
    }
  }

  /** One more step of a run, leading to the given threads. */
  lemma StepTo(steps: seq<Step>, ts: seq<Thread>, step: Step, next: seq<Thread>) returns (longer: seq<Step>)
    requires Leads([], steps, ts) && Enabled(ts, step) && Next(ts, step) == next
    ensures Leads([], longer, next)
  {
    longer := LeadsFurther([], steps, ts, step);
  }

  /** A switch that has let go of the run lock is about to stop the adapters. */
  lemma SwitchStopping() returns (steps: seq<Step>, t: Thread)
    ensures Leads([], steps, [t])
    ensures t == Thread(Program(SwitchRestarts)[3..], {}, {MODE}, false) && t.todo[0] == StopAdapters
  {
    var p := Program(SwitchRestarts);
    assert p[0] == Lock(MODE) && p[1..][0] == RLock(RUN) && p[2..][0] == RUnlock(RUN);
    assert p[1..][1..] == p[2..] && p[2..][1..] == p[3..];
    assert Advanced(Thread(p, {}, {}, true)) == Thread(p[1..], {}, {MODE}, false);
    assert Advanced(Thread(p[1..], {}, {MODE}, false)) == Thread(p[2..], {RUN}, {MODE}, false);
    assert Advanced(Thread(p[2..], {RUN}, {MODE}, false)) == Thread(p[3..], {}, {MODE}, false);
    assert Leads([], [], []);
    hide Leads;
    steps := StepTo([], [], Invoke(SwitchRestarts), [Thread(p, {}, {}, false)]);
    steps := StepTo(steps, [Thread(p, {}, {}, false)], Advance(0), [Thread(p, {}, {}, true)]);
    steps := StepTo(steps, [Thread(p, {}, {}, true)], Advance(0), [Thread(p[1..], {}, {MODE}, false)]);
    steps := StepTo(steps, [Thread(p[1..], {}, {MODE}, false)], Advance(0), [Thread(p[2..], {RUN}, {MODE}, false)]);
    t := Thread(p[3..], {}, {MODE}, false);
    steps := StepTo(steps, [Thread(p[2..], {RUN}, {MODE}, false)], Advance(0), [t]);
  }

  /** Both overlaps do occur: a switch stops adapters while another call stops, or starts, them. */
  lemma AdaptersTouchedTogether(op: Op) returns (steps: seq<Step>, ts: seq<Thread>)
    requires op == StopAdapters || op == StartAdapters
    ensures Leads([], steps, ts) && At(ts, 0, StopAdapters) && At(ts, 1, op)
  {
    var c := if op == StopAdapters then StopRunning else StartProcessing;
    var p := Program(c);
    var t: Thread;
    steps, t := SwitchStopping();
    assert p[0] == Lock(RUN) && p[1..][0] == op;
    hide Leads, Program;
    var u0, u1, u2 := Thread(p, {}, {}, false), Thread(p, {}, {}, true), Thread(p[1..], {}, {RUN}, false);
    assert [t] + [u0] == [t, u0] && [t, u0][1 := u1] == [t, u1] && [t, u1][1 := u2] == [t, u2];
    assert Next([t], Invoke(c)) == [t, u0];
    steps := StepTo(steps, [t], Invoke(c), [t, u0]);
    assert Advanced(u0) == u1 && Advanced(u1) == u2;
    steps := StepTo(steps, [t, u0], Advance(1), [t, u1]);
    steps := StepTo(steps, [t, u1], Advance(1), [t, u2]);
    ts := [t, u2];
  }
}
