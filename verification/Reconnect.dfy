/** One exchange adapter (live.go): its reader and reconnector goroutines, interleaved with Start and
    Stop, statement by statement where another goroutine could come in between. */
module Reconnect {

  /** A line read from a connection. */
  datatype Line = Line(conn: nat, number: nat)

  /** A readData goroutine: spawned, reading lines of the connection it bound, holding a parsed line
      it is about to send, or returned. */
  datatype Reader = Spawned | Reading(conn: nat, next: nat) | Holding(conn: nat, line: nat) | Returned

  /** Where Start stands: not called, past the dial, past setting each of the two flags, past spawning
      the reader. */
  datatype Starter = NotStarting | Connected | RunningSet | HealthySet | ReaderSpawned

  /** Where Stop stands: not called, past clearing each of the two flags, past closing the stop channel,
      past closing the data channel. */
  datatype Stopper = NotStopping | RunningCleared | HealthyCleared | Signalled | ChannelsClosed

  /** Where handleReconnection stands: waiting for a tick, past each of the two checks, past closing the
      old connection, past a successful dial, past setting the health flag, or returned. */
  datatype Reconnector = NotStarted | Waiting | SeenUnhealthy | Checked | Closed | Dialled | Marked | Ended

  datatype Adapter = Adapter(
    isRunning: bool,
    isHealthy: bool,
    starter: Starter,
    stopper: Stopper,
    connections: nat,     // connections dialled so far; the current one is the last
    readers: seq<Reader>,
    reconnector: Reconnector,
    parsed: seq<Line>,    // every line parsed
    sent: seq<Line>,      // everything put on the data channel, in order
    dropped: seq<Line>,   // the send timed out, or the adapter was no longer running
    lost: seq<Line>,      // in the hand of a reader that found the data channel closed
    cancelled: bool)      // the context is done

  const NEW := Adapter(false, false, NotStarting, NotStopping, 0, [], NotStarted, [], [], [], [], false)

  datatype Step =
    | StartDial(ok: bool)
    | StartSetsRunning
    | StartSetsHealthy
    | StartSpawnsReader
    | StartSpawnsReconnector
    | StartAgain
    | StopClearsRunning
    | StopClearsHealthy
    | StopSignals
    | StopClosesData
    | Cancel
    | Bind(reader: nat)          // the scanner is created on the current connection
    | ReadLine(reader: nat)      // a line arrives and parses
    | SkipLine(reader: nat)      // a line arrives, empty or malformed
    | ReadFails(reader: nat)     // the connection ends: unhealthy, return
    | Send(reader: nat)
    | DropLine(reader: nat)      // send timed out, or the adapter is no longer running
    | SendPanics(reader: nat)    // the data channel was closed: recovered, return
    | ReaderStops(reader: nat)   // loop head sees not running, the stop channel or the context
    | Tick                       // the adapter is unhealthy
    | SeeRunning(running: bool)  // and running: reconnect
    | CloseOld
    | Dial(ok: bool)
    | MarkHealthy
    | Respawn
    | ReconnectorStops

  predicate Has(a: Adapter, r: nat) {
    r < |a.readers|
  }

  predicate StopSeen(a: Adapter) {
    a.stopper.Signalled? || a.stopper.ChannelsClosed?
  }

  /** Calls of Start exclude each other, and calls of Stop do; a stopped adapter is not started again. */
  predicate Enabled(a: Adapter, step: Step) {
    match step
    case StartDial(_) => a.starter.NotStarting? && !a.isRunning && a.stopper.NotStopping?
    case StartSetsRunning => a.starter.Connected?
    case StartSetsHealthy => a.starter.RunningSet?
    case StartSpawnsReader => a.starter.HealthySet?
    case StartSpawnsReconnector => a.starter.ReaderSpawned?
    case StartAgain => a.starter.NotStarting? && a.isRunning
    case StopClearsRunning => a.stopper.NotStopping? && a.isRunning
    case StopClearsHealthy => a.stopper.RunningCleared?
    case StopSignals => a.stopper.HealthyCleared?
    case StopClosesData => a.stopper.Signalled?
    case Cancel => true
    case Bind(r) => Has(a, r) && a.readers[r].Spawned? && a.connections > 0
    case ReadLine(r) => Has(a, r) && a.readers[r].Reading?
    case SkipLine(r) => Has(a, r) && a.readers[r].Reading?
    case ReadFails(r) => Has(a, r) && a.readers[r].Reading?
    case Send(r) => Has(a, r) && a.readers[r].Holding? && !a.stopper.ChannelsClosed?
    case DropLine(r) => Has(a, r) && a.readers[r].Holding?
    case SendPanics(r) => Has(a, r) && a.readers[r].Holding? && a.stopper.ChannelsClosed?
    case ReaderStops(r) => Has(a, r) && a.readers[r].Reading? && (!a.isRunning || StopSeen(a) || a.cancelled)
    case Tick => a.reconnector.Waiting? && !a.isHealthy
    case SeeRunning(running) => a.reconnector.SeenUnhealthy? && running == a.isRunning
    case CloseOld => a.reconnector.Checked?
    case Dial(_) => a.reconnector.Closed?
    case MarkHealthy => a.reconnector.Dialled?
    case Respawn => a.reconnector.Marked?
    case ReconnectorStops => a.reconnector.Waiting? && (StopSeen(a) || a.cancelled)
  }

  /** Past the checks, the flag not yet set. */
  predicate Reconnecting(r: Reconnector) {
    r.Checked? || r.Closed? || r.Dialled?
  }

  function Hand(r: Reader): seq<Line> {
    if r.Holding? then [Line(r.conn, r.line)] else []
  }

  function Next(a: Adapter, step: Step): Adapter
    requires Enabled(a, step)
  {
    match step
    case StartDial(ok) => if ok then a.(connections := a.connections + 1, starter := Connected) else a
    case StartSetsRunning => a.(isRunning := true, starter := RunningSet)
    case StartSetsHealthy => a.(isHealthy := true, starter := HealthySet)
    case StartSpawnsReader => a.(readers := a.readers + [Spawned], starter := ReaderSpawned)
    case StartSpawnsReconnector => a.(reconnector := Waiting, starter := NotStarting)
    case StartAgain => a
    case StopClearsRunning => a.(isRunning := false, stopper := RunningCleared)
    case StopClearsHealthy => a.(isHealthy := false, stopper := HealthyCleared)
    case StopSignals => a.(stopper := Signalled)
    case StopClosesData => a.(stopper := ChannelsClosed)
    case Cancel => a.(cancelled := true)
    case Bind(r) => a.(readers := a.readers[r := Reading(a.connections - 1, 0)])
    case ReadLine(r) =>
      var h := a.readers[r];
      a.(parsed := a.parsed + [Line(h.conn, h.next)], readers := a.readers[r := Holding(h.conn, h.next)])
    case SkipLine(r) => a.(readers := a.readers[r := Reading(a.readers[r].conn, a.readers[r].next + 1)])
    case ReadFails(r) => a.(isHealthy := false, readers := a.readers[r := Returned])
    case Send(r) =>
      var h := a.readers[r];
      a.(sent := a.sent + [Line(h.conn, h.line)], readers := a.readers[r := Reading(h.conn, h.line + 1)])
    case DropLine(r) =>
      var h := a.readers[r];
      a.(dropped := a.dropped + [Line(h.conn, h.line)], readers := a.readers[r := Reading(h.conn, h.line + 1)])
    case SendPanics(r) => a.(lost := a.lost + Hand(a.readers[r]), readers := a.readers[r := Returned])
    case ReaderStops(r) => a.(readers := a.readers[r := Returned])
    case Tick => a.(reconnector := SeenUnhealthy)
    case SeeRunning(running) => a.(reconnector := if running then Checked else Waiting)
    case CloseOld => a.(reconnector := Closed)
    case Dial(ok) =>
      if ok then a.(connections := a.connections + 1, reconnector := Dialled) else a.(reconnector := Waiting)
    case MarkHealthy => a.(isHealthy := true, reconnector := Marked)
    case Respawn => a.(readers := a.readers + [Spawned], reconnector := Waiting)
    case ReconnectorStops => a.(reconnector := Ended)
  }

  /** a results from a new adapter by these steps, each enabled in its turn. */
  ghost predicate Reaches(from: Adapter, steps: seq<Step>, a: Adapter)
    decreases |steps|
  {
    if steps == [] then a == from
    else Enabled(from, steps[0]) && Reaches(Next(from, steps[0]), steps[1..], a)
  }

  // ---------------------------------------------------------------- invariants

  predicate LiveAt(a: Adapter, i: nat) {
    i < |a.readers| && !a.readers[i].Returned?
  }

  ghost predicate SomeoneLive(a: Adapter) {
    exists i: nat :: LiveAt(a, i)
  }

  /** Start has not come to the spawning of its reader yet. */
  predicate Starting(a: Adapter) {
    a.starter.Connected? || a.starter.RunningSet? || a.starter.HealthySet?
  }

  /** At most one reader is live; none while a reconnection is under way. */
  ghost predicate ReaderAlone(a: Adapter) {
    && (forall i: nat, j: nat :: LiveAt(a, i) && LiveAt(a, j) ==> i == j)
    && (Reconnecting(a.reconnector) || a.reconnector.Marked? ==> !SomeoneLive(a))
    && (a.isRunning && a.reconnector.SeenUnhealthy? ==> !SomeoneLive(a))
  }

  /** A live reader of a running adapter means healthy. */
  ghost predicate FlagsAgree(a: Adapter) {
    && (a.isRunning && SomeoneLive(a) ==> a.isHealthy)
    && (a.isRunning && (a.reconnector.SeenUnhealthy? || Reconnecting(a.reconnector)) ==> !a.isHealthy)
    && (a.isRunning && (a.starter.HealthySet? || a.reconnector.Marked?) ==> a.isHealthy)
  }

  ghost predicate OneReader(a: Adapter) {
    ReaderAlone(a) && FlagsAgree(a) && Phases(a)
  }

  /** What holds before, during and after Start and Stop. */
  ghost predicate Phases(a: Adapter) {
    && (a.isRunning ==> a.stopper.NotStopping?)
    && (a.readers == [] || a.starter.ReaderSpawned? ==> a.reconnector.NotStarted?)
    && (Starting(a) || (a.starter.NotStarting? && a.stopper.NotStopping? && !a.isRunning) ==> a.readers == [])
    && (a.starter.ReaderSpawned? || (a.starter.NotStarting? && !a.stopper.NotStopping?)
        || (a.starter.NotStarting? && a.isRunning) ==>
          a.readers != [])
    && (a.starter.Connected? || (a.starter.NotStarting? && a.readers == []) ==>
        a.stopper.NotStopping? && !a.isRunning && !a.isHealthy)
    && (a.starter.RunningSet? || a.starter.HealthySet? || a.starter.ReaderSpawned? ==>
        a.isRunning || !a.stopper.NotStopping?)
  }

  lemma StepKeepsPhases(a: Adapter, step: Step)
    requires Phases(a) && Enabled(a, step)
    ensures Phases(Next(a, step))
  {
  }

  lemma LiveAfter(a: Adapter, step: Step)
    requires Enabled(a, step)
    ensures forall i: nat :: LiveAt(Next(a, step), i) ==>
      LiveAt(a, i) || (i == |a.readers| && (step.StartSpawnsReader? || step.Respawn?))
    ensures SomeoneLive(Next(a, step)) ==> SomeoneLive(a) || step.StartSpawnsReader? || step.Respawn?
    ensures step.ReadFails? ==> LiveAt(a, step.reader) && !LiveAt(Next(a, step), step.reader)
  {
  }

  lemma StepKeepsReaderAlone(a: Adapter, step: Step)
    requires OneReader(a) && Enabled(a, step)
    ensures ReaderAlone(Next(a, step))
  {
    LiveAfter(a, step);
    assert a.readers == [] ==> !SomeoneLive(a);
    hide LiveAt, SomeoneLive;
  }

  lemma StepKeepsFlags(a: Adapter, step: Step)
    requires OneReader(a) && Enabled(a, step)
    ensures FlagsAgree(Next(a, step))
  {
    LiveAfter(a, step);
    if step.ReadFails? {
      assert forall i: nat :: !LiveAt(Next(a, step), i);
    }
    hide LiveAt;
  }

  lemma StepKeepsOneReader(a: Adapter, step: Step)
    requires OneReader(a) && Enabled(a, step)
    ensures OneReader(Next(a, step))
  {
    StepKeepsReaderAlone(a, step);
    StepKeepsFlags(a, step);
    StepKeepsPhases(a, step);
  }

  predicate Earlier(x: Line, y: Line) {
    x.conn < y.conn || (x.conn == y.conn && x.number < y.number)
  }

  /** The next line a live reader can send. */
  function NextLine(a: Adapter, r: Reader): Line
    requires a.connections > 0 && !r.Returned?
  {
    match r
    case Spawned => Line(a.connections - 1, 0)
    case Reading(c, n) => Line(c, n)
    case Holding(c, n) => Line(c, n)
  }

  /** What has been sent is in strictly increasing order of connection and line, before anything a
      live reader, or the reader of a connection just dialled, can still send. */
  ghost predicate SentInOrder(a: Adapter) {
    && (forall i, j :: 0 <= i < j < |a.sent| ==> Earlier(a.sent[i], a.sent[j]))
    && (forall i :: 0 <= i < |a.sent| ==> a.sent[i].conn < a.connections)
    && (a.reconnector.Dialled? || a.reconnector.Marked? ==>
          a.connections > 0 && forall i :: 0 <= i < |a.sent| ==> a.sent[i].conn < a.connections - 1)
    && (SomeoneLive(a) || Starting(a) ==> a.connections > 0)
    && (a.readers == [] ==> a.sent == [])
    && (forall r: nat :: LiveAt(a, r) ==>
          NextLine(a, a.readers[r]).conn < a.connections && AllEarlier(a.sent, NextLine(a, a.readers[r])))
  }

  ghost predicate AllEarlier(sent: seq<Line>, y: Line) {
    forall i :: 0 <= i < |sent| ==> Earlier(sent[i], y)
  }

  /** Sending takes the one live reader's next line. */
  lemma SendKeepsOrder(a: Adapter, r: nat)
    requires OneReader(a) && SentInOrder(a) && Enabled(a, Send(r))
    ensures SentInOrder(Next(a, Send(r)))
  {
    var b := Next(a, Send(r));
    var line := NextLine(a, a.readers[r]);
    assert LiveAt(a, r);
    assert b.sent == a.sent + [line];
    forall i: nat | LiveAt(b, i)
      ensures NextLine(b, b.readers[i]).conn < b.connections && AllEarlier(b.sent, NextLine(b, b.readers[i]))
    {
      assert LiveAt(a, i) && i == r;
      assert Earlier(line, NextLine(b, b.readers[i]));
      assert AllEarlier(a.sent, line);
    }
  }

  predicate ReadsOn(step: Step) {
    step.Bind? || step.ReadLine? || step.SkipLine? || step.ReadFails? || step.DropLine? || step.SendPanics?
      || step.ReaderStops?
  }

  /** The other steps of readers only move a reader's next line on. */
  lemma ReadingKeepsOrder(a: Adapter, step: Step)
    requires OneReader(a) && SentInOrder(a) && Enabled(a, step)
    requires ReadsOn(step)
    ensures SentInOrder(Next(a, step))
  {
    var b := Next(a, step);
    assert LiveAt(a, step.reader);
    forall i: nat | LiveAt(b, i)
      ensures NextLine(b, b.readers[i]).conn < b.connections && AllEarlier(b.sent, NextLine(b, b.readers[i]))
    {
      assert LiveAt(a, i);
      var x, y := NextLine(a, a.readers[i]), NextLine(b, b.readers[i]);
      assert x == y || Earlier(x, y);
      assert AllEarlier(a.sent, x);
    }
    assert SomeoneLive(a);
  }

  /** A new reader's lines come after all sent. */
  lemma SpawningKeepsOrder(a: Adapter, step: Step)
    requires OneReader(a) && SentInOrder(a) && Enabled(a, step)
    requires step.StartSpawnsReader? || step.Respawn?
    ensures SentInOrder(Next(a, step))
  {
    var b := Next(a, step);
    LiveAfter(a, step);
    assert a.readers == [] ==> !SomeoneLive(a);
    forall i: nat | LiveAt(b, i)
      ensures b.connections > 0
      ensures NextLine(b, b.readers[i]).conn < b.connections && AllEarlier(b.sent, NextLine(b, b.readers[i]))
    {
      assert !LiveAt(a, i);
      assert b.readers[i] == Spawned;
    }
  }

  /** Starting, reconnecting and stopping send nothing otherwise. */
  lemma ConnectingKeepsOrder(a: Adapter, step: Step)
    requires OneReader(a) && SentInOrder(a) && Enabled(a, step)
    requires !step.Send? && !ReadsOn(step) && !step.StartSpawnsReader? && !step.Respawn?
    ensures SentInOrder(Next(a, step))
  {
    var b := Next(a, step);
    LiveAfter(a, step);
    assert b.readers == a.readers && b.sent == a.sent && b.connections >= a.connections;
    forall i: nat | LiveAt(b, i)
      ensures b.connections > 0
      ensures NextLine(b, b.readers[i]).conn < b.connections && AllEarlier(b.sent, NextLine(b, b.readers[i]))
    {
      assert LiveAt(a, i);
      assert SomeoneLive(a) && !a.readers[i].Returned?;
      SameNextLine(a, b, i);
    }
  }

  lemma SameNextLine(a: Adapter, b: Adapter, i: nat)
    requires LiveAt(a, i) && a.connections > 0 && b.readers == a.readers
    requires a.readers[i].Spawned? ==> b.connections == a.connections
    requires b.connections >= a.connections
    ensures NextLine(b, b.readers[i]) == NextLine(a, a.readers[i])
  {
  }

  lemma StepKeepsSentInOrder(a: Adapter, step: Step)
    requires OneReader(a) && SentInOrder(a) && Enabled(a, step)
    ensures SentInOrder(Next(a, step))
  {
    if step.Send? {
      SendKeepsOrder(a, step.reader);
    } else if ReadsOn(step) {
      ReadingKeepsOrder(a, step);
    } else if step.StartSpawnsReader? || step.Respawn? {
      SpawningKeepsOrder(a, step);
    } else {
      ConnectingKeepsOrder(a, step);
    }
  }

  lemma {:induction false} AlwaysOneReader(from: Adapter, steps: seq<Step>, a: Adapter)
    requires OneReader(from) && SentInOrder(from) && Reaches(from, steps, a)
    ensures OneReader(a) && SentInOrder(a)
    decreases |steps|
  {
    if steps != [] {
      StepKeepsOneReader(from, steps[0]);
      StepKeepsSentInOrder(from, steps[0]);
      AlwaysOneReader(Next(from, steps[0]), steps[1..], a);
    }
  }

  /** From a new adapter, over every interleaving of reader, reconnector, Start, Stop and cancellation:
      at most one reader is live, and a running adapter marked unhealthy has none. */
  lemma AtMostOneReader(steps: seq<Step>, a: Adapter, i: nat, j: nat)
    requires Reaches(NEW, steps, a)
    ensures LiveAt(a, i) && LiveAt(a, j) ==> i == j
    ensures a.isRunning && !a.isHealthy ==> !LiveAt(a, i)
  {
    AlwaysOneReader(NEW, steps, a);
  }

  /** The data channel carries every connection's lines unmixed and in order, connection after
      connection, each line at most once. */
  lemma ChannelKeepsLineOrder(steps: seq<Step>, a: Adapter, i: nat, j: nat)
    requires Reaches(NEW, steps, a) && i < j < |a.sent|
    ensures Earlier(a.sent[i], a.sent[j])
  {
    AlwaysOneReader(NEW, steps, a);
  }

  // ---------------------------------------------------------------- every line

  /** How many readers hold the line. */
  function Held(readers: seq<Reader>, x: Line): nat {
    if readers == [] then 0
    else Held(readers[..|readers| - 1], x) + if Hand(readers[|readers| - 1]) == [x] then 1 else 0
  }

  lemma {:induction false} HandChanges(readers: seq<Reader>, i: nat, r: Reader, x: Line)
    requires i < |readers|
    ensures
      Held(readers[i := r], x) + (if Hand(readers[i]) == [x] then 1 else 0) ==
      Held(readers, x) + (if Hand(r) == [x] then 1 else 0)
  {
    hide Hand;
    var n := |readers| - 1;
    if i < n {
      HandChanges(readers[..n], i, r, x);
      assert readers[i := r][..n] == readers[..n][i := r];
    } else {
      assert readers[i := r][..n] == readers[..n];
    }
  }

  lemma SpawnHoldsNothing(readers: seq<Reader>, x: Line)
    ensures Held(readers + [Spawned], x) == Held(readers, x)
  {
    assert (readers + [Spawned])[..|readers|] == readers;
  }

  /** As often as the line was parsed it is on the channel, dropped, lost or in a reader's hand. */
  predicate Accounted(a: Adapter, x: Line) {
    multiset(a.parsed)[x] == multiset(a.sent)[x] + multiset(a.dropped)[x] + multiset(a.lost)[x] + Held(a.readers, x)
  }

  /** A line goes from being parsed into the hand of reader r, or from its hand into one of the logs. */
  ghost predicate MovesLine(a: Adapter, b: Adapter, r: nat) {
    && r < |a.readers| && |b.readers| == |a.readers| && b.readers == a.readers[r := b.readers[r]]
    && var before, after := Hand(a.readers[r]), Hand(b.readers[r]);
       if before == [] then
         b.parsed == a.parsed + after && b.sent == a.sent && b.dropped == a.dropped && b.lost == a.lost
       else
         && after == [] && b.parsed == a.parsed
         && (|| (b.sent == a.sent + before && b.dropped == a.dropped && b.lost == a.lost)
             || (b.sent == a.sent && b.dropped == a.dropped + before && b.lost == a.lost)
             || (b.sent == a.sent && b.dropped == a.dropped && b.lost == a.lost + before))
  }

  lemma ReaderMovesLine(a: Adapter, step: Step)
    requires Enabled(a, step) && (step.Send? || ReadsOn(step))
    ensures MovesLine(a, Next(a, step), step.reader)
  {
    assert a.parsed + [] == a.parsed;
  }

  lemma MovingAccounts(a: Adapter, b: Adapter, r: nat, x: Line)
    requires MovesLine(a, b, r) && Accounted(a, x)
    ensures Accounted(b, x)
  {
    HandChanges(a.readers, r, b.readers[r], x);
    assert |Hand(a.readers[r])| <= 1 && |Hand(b.readers[r])| <= 1;
    hide Held, Hand;
  }

  /** Other steps at most spawn a reader. */
  ghost predicate LeavesLines(a: Adapter, b: Adapter) {
    && b.parsed == a.parsed && b.sent == a.sent && b.dropped == a.dropped && b.lost == a.lost
    && (b.readers == a.readers || b.readers == a.readers + [Spawned])
  }

  lemma OthersLeaveLines(a: Adapter, step: Step)
    requires Enabled(a, step) && !step.Send? && !ReadsOn(step)
    ensures LeavesLines(a, Next(a, step))
  {
  }

  lemma StepAccounts(a: Adapter, step: Step, x: Line)
    requires Enabled(a, step) && Accounted(a, x)
    ensures Accounted(Next(a, step), x)
  {
    hide Next, Enabled, MovesLine, Held;
    if step.Send? || ReadsOn(step) {
      ReaderMovesLine(a, step);
      MovingAccounts(a, Next(a, step), step.reader, x);
    } else {
      OthersLeaveLines(a, step);
      SpawnHoldsNothing(a.readers, x);
    }
  }

  lemma {:induction false} AccountedFrom(from: Adapter, steps: seq<Step>, a: Adapter, x: Line)
    requires Accounted(from, x) && Reaches(from, steps, a)
    ensures Accounted(a, x)
    decreases |steps|
  {
    hide Accounted;
    if steps != [] {
      StepAccounts(from, steps[0], x);
      AccountedFrom(Next(from, steps[0]), steps[1..], a, x);
    }
  }

  /** Over every interleaving: no line parsed disappears and none is sent that was not parsed. */
  lemma EveryLineAccounted(steps: seq<Step>, a: Adapter, x: Line)
    requires Reaches(NEW, steps, a)
    ensures Accounted(a, x)
  {
    AccountedFrom(NEW, steps, a, x);
  }

  // ---------------------------------------------------------------- health after Stop

  lemma {:induction false} ReachesFurther(from: Adapter, steps: seq<Step>, a: Adapter, step: Step)
    requires Reaches(from, steps, a) && Enabled(a, step)
    ensures Reaches(from, steps + [step], Next(a, step))
    decreases |steps|
  {
    if steps == [] {
      assert [step][1..] == [];
    } else {
      ReachesFurther(Next(from, steps[0]), steps[1..], a, step);
      assert (steps + [step])[1..] == steps[1..] + [step];
    }
  }

  /** Some goroutine has passed its check and is still to set the health flag. */
  predicate FlagPending(a: Adapter) {
    Reconnecting(a.reconnector) || a.starter.Connected? || a.starter.RunningSet?
  }

  /** Once Stop has cleared both flags the health flag can be set only by who was about to set it then. */
  lemma {:induction false} NobodyMarksHealthy(from: Adapter, steps: seq<Step>, a: Adapter)
    requires !from.stopper.NotStopping? && !from.stopper.RunningCleared? && !from.isRunning
    requires !from.isHealthy && !FlagPending(from) && Reaches(from, steps, a)
    ensures !a.isHealthy
    decreases |steps|
  {
    if steps != [] {
      NobodyMarksHealthy(Next(from, steps[0]), steps[1..], a);
    }
  }

  /** Some continuation ends with the adapter reporting itself healthy. */
  ghost predicate CanReportHealthy(a: Adapter) {
    exists more: seq<Step>, b: Adapter :: Reaches(a, more, b) && b.isHealthy
  }

  /** A stopped adapter can come to report itself healthy exactly when Stop cleared the flag while a
      reconnection was between its checks and its setting of the flag, or a Start between its setting of
      the one flag and of the other. */
  lemma HealthyAfterStopIff(steps: seq<Step>, before: Adapter)
    requires Reaches(NEW, steps, before) && Enabled(before, StopClearsHealthy)
    ensures CanReportHealthy(Next(before, StopClearsHealthy))
      <==> Reconnecting(before.reconnector) || before.starter.RunningSet?
  {
    var a := Next(before, StopClearsHealthy);
    AlwaysOneReader(NEW, steps, before);
    if CanReportHealthy(a) && !FlagPending(a) {
      var more: seq<Step>, b: Adapter :| Reaches(a, more, b) && b.isHealthy;
      NobodyMarksHealthy(a, more, b);
    }
    if before.starter.RunningSet? {
      ReachesFurther(a, [], a, StartSetsHealthy);
    } else if Reconnecting(before.reconnector) {
      var more, b := FinishReconnecting(a);
    }
  }

  /** The rest of a reconnection whose dial succeeds. */
  lemma FinishReconnecting(a: Adapter) returns (more: seq<Step>, b: Adapter)
    requires Reconnecting(a.reconnector)
    ensures Reaches(a, more, b) && b.isHealthy
  {
    more, b := [], a;
    if b.reconnector.Checked? {
      ReachesFurther(a, more, b, CloseOld);
      more, b := more + [CloseOld], Next(b, CloseOld);
    }
    if b.reconnector.Closed? {
      ReachesFurther(a, more, b, Dial(true));
      more, b := more + [Dial(true)], Next(b, Dial(true));
    }
    ReachesFurther(a, more, b, MarkHealthy);
    more, b := more + [MarkHealthy], Next(b, MarkHealthy);
  }

  // ---------------------------------------------------------------- both ways occur

  /** From a new adapter: a Start in progress, or a connection lost and being dialled again. */
  function Meanwhile(reconnecting: bool): seq<Step> {
    if reconnecting then
      [StartDial(true), StartSetsRunning, StartSetsHealthy, StartSpawnsReader, StartSpawnsReconnector,
       Bind(0), ReadFails(0), Tick, SeeRunning(true)]
    else [StartDial(true), StartSetsRunning]
  }

  lemma TakeStep(from: Adapter, steps: seq<Step>, a: Adapter, step: Step, b: Adapter) returns (longer: seq<Step>)
    requires Reaches(from, steps, a) && Enabled(a, step) && Next(a, step) == b
    ensures longer == steps + [step] && Reaches(from, longer, b)
  {
    ReachesFurther(from, steps, a, step);
    longer := steps + [step];
  }

  /** Stop can come during either, and then the stopped adapter can report itself healthy. */
  lemma HealthyAfterStop(reconnecting: bool) returns (steps: seq<Step>, before: Adapter)
    ensures steps == Meanwhile(reconnecting) + [StopClearsRunning]
    ensures Reaches(NEW, steps, before) && Enabled(before, StopClearsHealthy)
    ensures if reconnecting then Reconnecting(before.reconnector) else before.starter.RunningSet?
    ensures CanReportHealthy(Next(before, StopClearsHealthy))
  {
    var dialled := NEW.(connections := 1, starter := Connected);
    var started := dialled.(isRunning := true, starter := RunningSet);
    steps := TakeStep(NEW, [], NEW, StartDial(true), dialled);
    steps := TakeStep(NEW, steps, dialled, StartSetsRunning, started);
    if reconnecting {
      steps, started := LosesConnection(steps, started);
    }
    before := started.(isRunning := false, stopper := RunningCleared);
    hide Reaches;
    steps := TakeStep(NEW, steps, started, StopClearsRunning, before);
    HealthyAfterStopIff(steps, before);
  }

  lemma LosesConnection(steps: seq<Step>, a: Adapter) returns (longer: seq<Step>, b: Adapter)
    requires Reaches(NEW, steps, a) && steps == [StartDial(true), StartSetsRunning]
    requires a == NEW.(connections := 1, isRunning := true, starter := RunningSet)
    ensures Reaches(NEW, longer, b) && longer == Meanwhile(true)
    ensures b.isRunning && b.stopper.NotStopping? && b.reconnector.Checked?
  {
    hide Reaches;
    b := a.(isHealthy := true, starter := HealthySet);
    longer := TakeStep(NEW, steps, a, StartSetsHealthy, b);
    longer := TakeStep(NEW, longer, b, StartSpawnsReader, b.(readers := [Spawned], starter := ReaderSpawned));
    b := b.(readers := [Spawned], starter := ReaderSpawned);
    longer := TakeStep(NEW, longer, b, StartSpawnsReconnector, b.(reconnector := Waiting, starter := NotStarting));
    b := b.(reconnector := Waiting, starter := NotStarting);
    longer := TakeStep(NEW, longer, b, Bind(0), b.(readers := [Reading(0, 0)]));
    b := b.(readers := [Reading(0, 0)]);
    longer := TakeStep(NEW, longer, b, ReadFails(0), b.(isHealthy := false, readers := [Returned]));
    b := b.(isHealthy := false, readers := [Returned]);
    longer := TakeStep(NEW, longer, b, Tick, b.(reconnector := SeenUnhealthy));
    b := b.(reconnector := SeenUnhealthy);
    longer := TakeStep(NEW, longer, b, SeeRunning(true), b.(reconnector := Checked));
    b := b.(reconnector := Checked);
  }
}
