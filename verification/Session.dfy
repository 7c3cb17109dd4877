/** The Chainway session of one antenna manager: start, reader, watchdog, context monitor and any number of Stop
    callers, interleaved step by step. The initial state is the one Start leaves behind. */
module Session {
  import opened Wrappers

  /** Inventory commands as the reader's socket sees them: when a write begins and when it returns. */
  datatype Command = StartBegin | StartEnd | StopBegin | StopEnd

  datatype StartPc = StartCheck | StartSending | StartCancel | StartClose | StartWg | StartExit
  datatype ReaderPc = Reading | ReaderWg | ReaderCancel | ReaderExit
  datatype WatchPc = Watching | Probing | WatchCancel | WatchWg | WatchExit
  datatype MonitorPc = Monitoring | MonitorLock | MonitorStop | MonitorClose | MonitorWg | MonitorExit
  datatype CallerPc = CallerLock | CallerWait | CallerStop | CallerClose | CallerReturned

  datatype Who = Monitor | Caller(id: nat)

  /** sessionStopOnce: others wait while its owner awaits the start attempt and sends stop-inventory. */
  datatype Once = Idle | AwaitStart(owner: Who) | SendingStop(owner: Who) | Finished

  datatype Limits = Limits(probeAfter: nat, deadAfter: nat)

  /** The session context, the running flag and the Done channel. */
  datatype Control = Control(cancelled: bool, parentCancelled: bool, running: bool, done: bool)

  /** The start attempt, the stop attempt, and the inventory commands they have written. */
  datatype Wire = Wire(start: StartPc, started: bool, once: Once, trace: seq<Command>)

  /** The watchdog and what it watches. */
  datatype Link = Link(watch: WatchPc, now: nat, lastRx: nat, probedAt: nat, probes: seq<nat>, dead: bool)

  datatype State = State(ctl: Control, wire: Wire, link: Link, reader: ReaderPc, monitor: MonitorPc,
                         callers: map<nat, CallerPc>)

  datatype Action =
    | CancelParent
    | StartStep(ok: bool)
    | TimePasses(to: nat)
    | Receive
    | WatchTick
    | WatchSeesCancel
    | ProbeReturns(ok: bool)
    | WatchStep
    | ReaderEnds
    | ReaderStep
    | MonitorSeesParent
    | MonitorSeesChild
    | MonitorStep
    | CallStop(id: nat)
    | CallerStep(id: nat, timeout: bool)
    | EnterOnce(who: Who)
    | OwnerStep

  predicate Initial(s: State) {
    && s.ctl.running && !s.ctl.done && (s.ctl.parentCancelled ==> s.ctl.cancelled)
    && s.wire == Wire(StartCheck, false, Idle, [])
    && s.link.watch == Watching && 0 < s.link.lastRx <= s.link.now && s.link.probedAt == 0 && s.link.probes == []
    && !s.link.dead
    && s.reader == Reading && s.monitor == Monitoring && s.callers == map[]
  }

  /** startDone is closed on the way out of the start attempt, before its wg.Done. */
  predicate StartDone(w: Wire) {
    w.start == StartWg || w.start == StartExit
  }

  /** The wait group counts the four goroutines that have not called wg.Done yet. */
  function WaitCount(s: State): nat {
    (if s.wire.start == StartExit then 0 else 1) +
    (if s.reader == ReaderCancel || s.reader == ReaderExit then 0 else 1) +
    (if s.link.watch == WatchExit then 0 else 1) +
    (if s.monitor == MonitorExit then 0 else 1)
  }

  // ---- Steps -------------------------------------------------------------------------------

  /** chainwayStartInventory. */
  function StartNext(w: Wire, cancelled: bool, ok: bool): Option<Wire> {
    match w.start
    case StartCheck =>
      if cancelled then Some(w.(start := StartClose))
      else Some(w.(start := StartSending, started := true, trace := w.trace + [StartBegin]))
    case StartSending => Some(w.(start := if ok then StartClose else StartCancel, trace := w.trace + [StartEnd]))
    case StartCancel => Some(w.(start := StartClose))
    case StartClose => Some(w.(start := StartWg))
    case StartWg => Some(w.(start := StartExit))
    case StartExit => None
  }

  /** Inside the once: wait for the start attempt, then send stop-inventory, whatever the write returns. */
  function OwnerNext(w: Wire): Option<Wire> {
    match w.once
    case AwaitStart(owner) =>
      if StartDone(w) then Some(w.(once := SendingStop(owner), trace := w.trace + [StopBegin])) else None
    case SendingStop(_) => Some(w.(once := Finished, trace := w.trace + [StopEnd]))
    case _ => None
  }

  /** chainwayWatchdog, the clock, and the read loop's timestamp. On a tick the watchdog gives up, probes once per
      last-received time, or goes on. */
  function LinkNext(c: Limits, l: Link, cancelled: bool, a: Action): Option<Link> {
    match a
    case TimePasses(to) => if l.now <= to then Some(l.(now := to)) else None
    case Receive => Some(l.(lastRx := l.now))
    case WatchTick =>
      if l.watch != Watching then None
      else if l.now - l.lastRx >= c.deadAfter then Some(l.(watch := WatchCancel, dead := true))
      else if l.now - l.lastRx >= c.probeAfter && l.probedAt != l.lastRx
      then Some(l.(watch := Probing, probedAt := l.lastRx, probes := l.probes + [l.lastRx]))
      else Some(l)
    case WatchSeesCancel => if l.watch == Watching && cancelled then Some(l.(watch := WatchWg)) else None
    case ProbeReturns(ok) =>
      if l.watch != Probing then None
      else if ok then Some(l.(watch := Watching)) else Some(l.(watch := WatchCancel, dead := true))
    case WatchStep =>
      (match l.watch
       case WatchCancel => Some(l.(watch := WatchWg))
       case WatchWg => Some(l.(watch := WatchExit))
       case _ => None)
    case _ => None
  }

  /** monitorContext, with its parent and child cases; a poll that finds neither changes nothing. */
  function MonitorNext(s: State, a: Action): Option<State> {
    match s.monitor
    case Monitoring =>
      if a == MonitorSeesParent && s.ctl.parentCancelled then Some(s.(monitor := MonitorLock))
      else if a == MonitorSeesChild && s.ctl.cancelled then Some(s.(monitor := MonitorStop))
      else None
    case _ => if a == MonitorStep then MonitorMoves(s) else None
  }

  function MonitorMoves(s: State): Option<State>
    requires s.monitor != Monitoring
  {
    match s.monitor
    case MonitorLock =>
      Some(s.(monitor := MonitorStop, ctl := s.ctl.(running := false, cancelled := s.ctl.cancelled || s.ctl.running)))
    case MonitorStop => if s.wire.once == Finished then Some(s.(monitor := MonitorClose)) else None
    case MonitorClose => Some(s.(monitor := MonitorWg, ctl := s.ctl.(done := true)))
    case MonitorWg => Some(s.(monitor := MonitorExit))
    case MonitorExit => None
  }

  /** One Stop caller: lock and cancel, wait for the goroutines or five seconds, stopSession, close Done. */
  function CallerNext(s: State, id: nat, timeout: bool): Option<State> {
    if id !in s.callers then None
    else match s.callers[id]
      case CallerLock =>
        if !s.ctl.running then Some(s.(callers := s.callers[id := CallerReturned]))
        else Some(s.(callers := s.callers[id := CallerWait], ctl := s.ctl.(running := false, cancelled := true)))
      case CallerWait =>
        if timeout || WaitCount(s) == 0 then Some(s.(callers := s.callers[id := CallerStop])) else None
      case CallerStop => if s.wire.once == Finished then Some(s.(callers := s.callers[id := CallerClose])) else None
      case CallerClose => Some(s.(callers := s.callers[id := CallerReturned], ctl := s.ctl.(done := true)))
      case CallerReturned => None
  }

  predicate AtStopSession(s: State, who: Who) {
    match who
    case Monitor => s.monitor == MonitorStop
    case Caller(id) => id in s.callers && s.callers[id] == CallerStop
  }

  function WithWire(s: State, w: Option<Wire>, cancels: bool): Option<State> {
    if w.None? then None else Some(s.(wire := w.value, ctl := s.ctl.(cancelled := s.ctl.cancelled || cancels)))
  }

  function WithLink(s: State, l: Option<Link>, cancels: bool): Option<State> {
    if l.None? then None else Some(s.(link := l.value, ctl := s.ctl.(cancelled := s.ctl.cancelled || cancels)))
  }

  function Next(c: Limits, s: State, a: Action): Option<State> {
    match a
    case CancelParent => Some(s.(ctl := s.ctl.(parentCancelled := true, cancelled := true)))
    case StartStep(ok) => WithWire(s, StartNext(s.wire, s.ctl.cancelled, ok), s.wire.start == StartCancel)
    case OwnerStep => WithWire(s, OwnerNext(s.wire), false)
    case EnterOnce(who) =>
      if s.wire.once == Idle && AtStopSession(s, who) then Some(s.(wire := s.wire.(once := AwaitStart(who)))) else None
    case Receive => if s.reader == Reading then WithLink(s, LinkNext(c, s.link, s.ctl.cancelled, a), false) else None
    case TimePasses(_) | WatchTick | WatchSeesCancel | ProbeReturns(_) | WatchStep =>
      WithLink(s, LinkNext(c, s.link, s.ctl.cancelled, a), a == WatchStep && s.link.watch == WatchCancel)
    case ReaderEnds => if s.reader == Reading then Some(s.(reader := ReaderWg)) else None
    case ReaderStep =>
      // The read loop's deferred wg.Done runs before the cancel that follows it.
      if s.reader == ReaderWg then Some(s.(reader := ReaderCancel))
      else if s.reader == ReaderCancel then Some(s.(reader := ReaderExit, ctl := s.ctl.(cancelled := true)))
      else None
    case MonitorSeesParent | MonitorSeesChild | MonitorStep => MonitorNext(s, a)
    case CallStop(id) => if id in s.callers then None else Some(s.(callers := s.callers[id := CallerLock]))
    case CallerStep(id, timeout) => CallerNext(s, id, timeout)
  }

  /** The state after a schedule, if every step of it is enabled. */
  function Run(c: Limits, s: State, schedule: seq<Action>): Option<State>
    decreases |schedule|
  {
    if schedule == [] then Some(s)
    else match Next(c, s, schedule[0])
      case None => None
      case Some(t) => Run(c, t, schedule[1..])
  }

  // ---- Invariant ---------------------------------------------------------------------------

  function StartPart(w: Wire): seq<Command> {
    if !w.started then [] else if w.start == StartSending then [StartBegin] else [StartBegin, StartEnd]
  }

  function StopPart(o: Once): seq<Command> {
    match o
    case SendingStop(_) => [StopBegin]
    case Finished => [StopBegin, StopEnd]
    case _ => []
  }

  /** The commands sent are the start attempt's, then the stop attempt's, each as far as it has come. */
  predicate CommandsInOrder(w: Wire) {
    && w.trace == StartPart(w) + StopPart(w.once)
    && (w.start == StartCheck ==> !w.started)
    && (w.start == StartSending || w.start == StartCancel ==> w.started)
    && (w.once.SendingStop? || w.once == Finished ==> StartDone(w))
  }

  predicate ProbesInOrder(l: Link) {
    && l.probedAt <= l.lastRx <= l.now && 0 < l.lastRx
    && (if l.probes == [] then l.probedAt == 0 else l.probedAt == l.probes[|l.probes| - 1])
    && (forall i, j | 0 <= i < j < |l.probes| :: l.probes[i] < l.probes[j])
  }

  predicate CallersConsistent(s: State) {
    forall id <- s.callers ::
      && (s.callers[id] == CallerWait || s.callers[id] == CallerStop || s.callers[id] == CallerClose ==>
          s.ctl.cancelled)
      && (s.callers[id] == CallerClose ==> s.wire.once == Finished)
  }

  predicate ControlConsistent(s: State) {
    && (s.ctl.parentCancelled ==> s.ctl.cancelled) && (!s.ctl.running ==> s.ctl.cancelled)
    && (s.monitor != Monitoring || s.wire.once != Idle ==> s.ctl.cancelled)
    && (s.wire.once.AwaitStart? || s.wire.once.SendingStop? ==> AtStopSession(s, s.wire.once.owner))
    && (s.ctl.done || s.monitor == MonitorClose ==> s.wire.once == Finished)
    && (s.monitor == MonitorWg || s.monitor == MonitorExit ==> s.ctl.done)
    && CallersConsistent(s)
  }

  predicate Inv(s: State) {
    CommandsInOrder(s.wire) && ProbesInOrder(s.link) && ControlConsistent(s)
  }

  lemma InitialInv(s: State)
    requires Initial(s)
    ensures Inv(s) && WatchConsistent(s)
  {
  }

  lemma StartKeepsOrder(w: Wire, cancelled: bool, ok: bool)
    requires CommandsInOrder(w) && StartNext(w, cancelled, ok).Some?
    ensures CommandsInOrder(StartNext(w, cancelled, ok).value)
  {
    if w.start == StartCheck || w.start == StartSending {
      assert StopPart(w.once) == [];
    }
  }

  lemma OwnerKeepsOrder(w: Wire)
    requires CommandsInOrder(w) && OwnerNext(w).Some?
    ensures CommandsInOrder(OwnerNext(w).value)
  {
  }

  lemma LinkKeepsOrder(c: Limits, l: Link, cancelled: bool, a: Action)
    requires ProbesInOrder(l) && LinkNext(c, l, cancelled, a).Some?
    ensures ProbesInOrder(LinkNext(c, l, cancelled, a).value)
  {
  }

  lemma MonitorKeepsControl(s: State, a: Action)
    requires ControlConsistent(s) && MonitorNext(s, a).Some?
    ensures ControlConsistent(MonitorNext(s, a).value)
    ensures MonitorNext(s, a).value.wire == s.wire && MonitorNext(s, a).value.link == s.link
  {
  }

  lemma CallerKeepsControl(s: State, id: nat, timeout: bool)
    requires ControlConsistent(s) && CallerNext(s, id, timeout).Some?
    ensures ControlConsistent(CallerNext(s, id, timeout).value)
    ensures CallerNext(s, id, timeout).value.wire == s.wire && CallerNext(s, id, timeout).value.link == s.link
  {
  }

  lemma StepKeepsInv(c: Limits, s: State, a: Action)
    requires Inv(s) && Next(c, s, a).Some?
    ensures Inv(Next(c, s, a).value)
  {
    hide CommandsInOrder, ProbesInOrder, MonitorNext, MonitorMoves, CallerNext, LinkNext;
    match a
    case StartStep(ok) =>
      StartKeepsOrder(s.wire, s.ctl.cancelled, ok);
    case OwnerStep =>
      OwnerKeepsOrder(s.wire);
    case EnterOnce(who) =>
      EnterKeepsOrder(s.wire, who);
    case Receive | TimePasses(_) | WatchTick | WatchSeesCancel | ProbeReturns(_) | WatchStep =>
      LinkKeepsOrder(c, s.link, s.ctl.cancelled, a);
    case MonitorSeesParent | MonitorSeesChild | MonitorStep =>
      MonitorKeepsControl(s, a);
    case CallerStep(id, timeout) =>
      CallerKeepsControl(s, id, timeout);
    case _ =>
  }

  lemma EnterKeepsOrder(w: Wire, who: Who)
    requires CommandsInOrder(w) && w.once == Idle
    ensures CommandsInOrder(w.(once := AwaitStart(who)))
  {
  }

  lemma {:induction false} RunKeepsInv(c: Limits, s: State, schedule: seq<Action>)
    requires Inv(s) && Run(c, s, schedule).Some?
    ensures Inv(Run(c, s, schedule).value)
    decreases |schedule|
  {
    hide Inv, Next;
    if schedule != [] {
      StepKeepsInv(c, s, schedule[0]);
      RunKeepsInv(c, Next(c, s, schedule[0]).value, schedule[1..]);
    }
  }

  // ---- Safety over every interleaving ------------------------------------------------------

  function Count(trace: seq<Command>, x: Command): nat {
    if trace == [] then 0 else (if trace[0] == x then 1 else 0) + Count(trace[1..], x)
  }

  /** Stop-inventory is sent at most once, never before the start attempt has finished, and nothing is started after it;
      Done closes only after the stop attempt, which then has been made, has returned; and nothing is stopped or closed
      in a session that goes on. */
  predicate SafeTrace(s: State) {
    && Count(s.wire.trace, StopBegin) <= 1 && Count(s.wire.trace, StartBegin) <= 1
    && (forall i, j | 0 <= i < j < |s.wire.trace| && s.wire.trace[i] == StopBegin :: s.wire.trace[j] == StopEnd)
    && (StopBegin in s.wire.trace ==>
          StartDone(s.wire) && Count(s.wire.trace, StartEnd) == Count(s.wire.trace, StartBegin))
    && (s.ctl.done ==> s.wire.trace in {[StopBegin, StopEnd], [StartBegin, StartEnd, StopBegin, StopEnd]})
    && (s.ctl.done || StopBegin in s.wire.trace ==> s.ctl.cancelled)
  }

  lemma CountFew(a: Command, b: Command, x: Command)
    ensures Count([a], x) == if a == x then 1 else 0
    ensures Count([a, b], x) == (if a == x then 1 else 0) + (if b == x then 1 else 0)
  {
    assert [a][1..] == [] && [a, b][1..] == [b] && [b][1..] == [];
  }

  lemma WholeTrace(s: State)
    requires Inv(s) && s.ctl.done
    ensures s.wire.trace in {[StopBegin, StopEnd], [StartBegin, StartEnd, StopBegin, StopEnd]}
  {
    assert [] + [StopBegin, StopEnd] == [StopBegin, StopEnd];
    assert [StartBegin, StartEnd] + [StopBegin, StopEnd] == [StartBegin, StartEnd, StopBegin, StopEnd];
  }

  lemma CountsByParts(w: Wire, x: Command)
    requires CommandsInOrder(w) && x != StopEnd
    ensures Count(w.trace, x) ==
            if x == StopBegin then (if w.once.SendingStop? || w.once == Finished then 1 else 0)
            else if x == StartBegin then (if w.started then 1 else 0)
            else (if w.started && w.start != StartSending then 1 else 0)
  {
    CountConcat(StartPart(w), StopPart(w.once), x);
    CountFew(StartBegin, StartEnd, x);
    CountFew(StopBegin, StopEnd, x);
  }

  lemma StopsLast(w: Wire)
    requires CommandsInOrder(w)
    ensures StopBegin in w.trace <==> w.once.SendingStop? || w.once == Finished
    ensures forall i, j | 0 <= i < j < |w.trace| && w.trace[i] == StopBegin :: w.trace[j] == StopEnd
  {
    var first, last := StartPart(w), StopPart(w.once);
    assert forall x <- first :: x != StopBegin;
    assert forall i | 0 <= i < |first| :: w.trace[i] == first[i] && first[i] in first;
    if last != [] {
      assert w.trace[|first|] == last[0];
    }
  }

  lemma InvIsSafe(s: State)
    requires Inv(s)
    ensures SafeTrace(s)
  {
    hide StartPart, StopPart, Count;
    if s.ctl.done {
      WholeTrace(s);
    }
    CountsByParts(s.wire, StopBegin);
    CountsByParts(s.wire, StartBegin);
    CountsByParts(s.wire, StartEnd);
    StopsLast(s.wire);
  }

  lemma {:induction false} CountConcat(a: seq<Command>, b: seq<Command>, x: Command)
    ensures Count(a + b, x) == Count(a, x) + Count(b, x)
  {
    if a == [] {
      assert a + b == b;
    } else {
      assert (a + b)[1..] == a[1..] + b;
      CountConcat(a[1..], b, x);
    }
  }

  /** Over all interleavings from the state Start leaves, with any parent cancellation and any Stop callers; and the
      watchdog probes at most once per received timestamp. */
  lemma EveryInterleavingIsSafe(c: Limits, s: State, schedule: seq<Action>)
    requires Initial(s) && Run(c, s, schedule).Some?
    ensures SafeTrace(Run(c, s, schedule).value)
    ensures var probes := Run(c, s, schedule).value.link.probes;
            forall i, j | 0 <= i < j < |probes| :: probes[i] < probes[j]
  {
    InitialInv(s);
    RunKeepsInv(c, s, schedule);
    InvIsSafe(Run(c, s, schedule).value);
  }

  // ---- What starts and what ends a session -------------------------------------------------

  lemma {:induction false} RunJoined(c: Limits, s: State, first: seq<Action>, rest: seq<Action>)
    ensures Run(c, s, first + rest) ==
            if Run(c, s, first).Some? then Run(c, Run(c, s, first).value, rest) else None
    decreases |first|
  {
    hide Next;
    if first == [] {
      assert first + rest == rest;
    } else {
      assert (first + rest)[0] == first[0] && (first + rest)[1..] == first[1..] + rest;
      if Next(c, s, first[0]).Some? {
        RunJoined(c, Next(c, s, first[0]).value, first[1..], rest);
      }
    }
  }

  /** Only a step of the start attempt moves it, and past its first check it never decides again. */
  lemma {:induction false} StartAttemptStands(c: Limits, s: State, schedule: seq<Action>)
    requires Run(c, s, schedule).Some?
    requires s.wire.start != StartCheck || forall a <- schedule :: !a.StartStep?
    ensures var w := Run(c, s, schedule).value.wire;
            w.started == s.wire.started && (w.start == StartCheck <==> s.wire.start == StartCheck)
    decreases |schedule|
  {
    if schedule != [] {
      assert schedule[0] in schedule;
      StartAttemptStands(c, Next(c, s, schedule[0]).value, schedule[1..]);
    }
  }

  lemma StartedIsSent(w: Wire)
    requires CommandsInOrder(w)
    ensures StartBegin in w.trace <==> w.started
  {
    if w.started {
      assert StartPart(w)[0] == StartBegin && w.trace[0] == StartBegin;
    }
  }

  /** Start-inventory is sent exactly when the first step of the start attempt finds the session not cancelled: a
      session that is already ending never turns RF on, and a live one always does. */
  lemma StartsUnlessCancelled(c: Limits, s: State, schedule: seq<Action>, k: nat)
    requires Initial(s) && Run(c, s, schedule).Some?
    requires k <= |schedule| && forall j | 0 <= j < k :: !schedule[j].StartStep?
    requires k < |schedule| ==> schedule[k].StartStep?
    ensures Run(c, s, schedule[..k]).Some?
    ensures StartBegin in Run(c, s, schedule).value.wire.trace <==>
            k < |schedule| && !Run(c, s, schedule[..k]).value.ctl.cancelled
  {
    InitialInv(s);
    RunKeepsInv(c, s, schedule);
    StartedIsSent(Run(c, s, schedule).value.wire);
    assert schedule == schedule[..k] + schedule[k..];
    RunJoined(c, s, schedule[..k], schedule[k..]);
    StartAttemptStands(c, s, schedule[..k]);
    if k < |schedule| {
      var t := Run(c, s, schedule[..k]).value;
      assert schedule[k..][0] == schedule[k];
      StartAttemptStands(c, Next(c, t, schedule[k]).value, schedule[k..][1..]);
    }
  }

  /** A start write that fails has cancelled the session by the next step of the start attempt. */
  lemma {:induction false} FailedStartCancels(c: Limits, s: State, schedule: seq<Action>)
    requires s.wire.start == StartCancel && Run(c, s, schedule).Some?
    requires exists a :: a in schedule && a.StartStep?
    ensures Run(c, s, schedule).value.ctl.cancelled
    decreases |schedule|
  {
    var t := Next(c, s, schedule[0]).value;
    if schedule[0].StartStep? {
      CancelledPersists(c, t, schedule[1..]);
    } else {
      assert exists a :: a in schedule[1..] && a.StartStep?;
      FailedStartCancels(c, t, schedule[1..]);
    }
  }

  lemma StartWriteDecides(c: Limits, s: State, ok: bool)
    requires s.wire.start == StartSending
    ensures Next(c, s, StartStep(ok)).Some?
    ensures Next(c, s, StartStep(ok)).value.wire.start == StartCancel <==> !ok
    ensures Next(c, s, StartStep(ok)).value.ctl.cancelled == s.ctl.cancelled
  {
  }

  /** What cancels a session: its parent, a failed start write, the watchdog giving up, the end of the read loop,
      a Stop on a running session, and the monitor passing the parent's cancellation on; and nothing else. */
  lemma CancelledBy(c: Limits, s: State, a: Action)
    requires Next(c, s, a).Some?
    ensures Next(c, s, a).value.ctl.cancelled <==>
            || s.ctl.cancelled || a == CancelParent
            || (a.StartStep? && s.wire.start == StartCancel)
            || (a == WatchStep && s.link.watch == WatchCancel)
            || (a == ReaderStep && s.reader == ReaderCancel)
            || (a.CallerStep? && s.callers[a.id] == CallerLock && s.ctl.running)
            || (a == MonitorStep && s.monitor == MonitorLock && s.ctl.running)
  {
  }

  /** A Stop on a session that is no longer running returns at once; on a running one it ends it. */
  lemma StopDecides(c: Limits, s: State, id: nat, timeout: bool)
    requires id in s.callers && s.callers[id] == CallerLock
    ensures var t := Next(c, s, CallerStep(id, timeout));
            && t.Some? && !t.value.ctl.running
            && t.value.callers[id] == if s.ctl.running then CallerWait else CallerReturned
  {
  }

  /** What a tick finds: silence past the one threshold ends the link, past the other sends one probe for this silence,
      and anything less does nothing. */
  lemma TickDecides(c: Limits, s: State)
    requires s.link.watch == Watching
    ensures var silence, t := s.link.now - s.link.lastRx, Next(c, s, WatchTick);
            && t.Some?
            && (t.value.link.dead <==> s.link.dead || silence >= c.deadAfter)
            && (t.value.link.watch == WatchCancel <==> silence >= c.deadAfter)
            && (t.value.link.watch == Probing <==> t.value.link.probes != s.link.probes)
            && t.value.link.probes ==
               (if c.probeAfter <= silence < c.deadAfter && s.link.probedAt != s.link.lastRx
                then s.link.probes + [s.link.lastRx] else s.link.probes)
  {
  }

  /** A probe that fails ends the link at once, whatever was received; one that is written only goes on watching. */
  lemma ProbeDecides(c: Limits, s: State, ok: bool)
    requires s.link.watch == Probing
    ensures var t := Next(c, s, ProbeReturns(ok));
            && t.Some? && t.value.ctl == s.ctl
            && (t.value.link.dead <==> s.link.dead || !ok)
            && t.value.link.watch == if ok then Watching else WatchCancel
  {
  }

  /** Done is closed by the monitor or by a Stop caller, each after the stop attempt. */
  lemma DoneBy(c: Limits, s: State, a: Action)
    requires Next(c, s, a).Some?
    ensures Next(c, s, a).value.ctl.done <==>
            || s.ctl.done
            || (a == MonitorStep && s.monitor == MonitorClose)
            || (a.CallerStep? && s.callers[a.id] == CallerClose)
  {
  }

  // ---- After Done --------------------------------------------------------------------------

  lemma DoneStepIsSilent(c: Limits, s: State, a: Action)
    requires Inv(s) && s.ctl.done && Next(c, s, a).Some?
    ensures Next(c, s, a).value.ctl.done && Next(c, s, a).value.wire.trace == s.wire.trace
  {
    assert s.wire.once == Finished && StartDone(s.wire);
  }

  /** Once Done is closed no inventory command is sent any more, whatever runs on. */
  lemma {:induction false} SilentAfterDone(c: Limits, s: State, schedule: seq<Action>)
    requires Inv(s) && s.ctl.done && Run(c, s, schedule).Some?
    ensures Run(c, s, schedule).value.ctl.done && Run(c, s, schedule).value.wire.trace == s.wire.trace
    decreases |schedule|
  {
    hide Inv, Next;
    if schedule != [] {
      StepKeepsInv(c, s, schedule[0]);
      DoneStepIsSilent(c, s, schedule[0]);
      SilentAfterDone(c, Next(c, s, schedule[0]).value, schedule[1..]);
    }
  }

  // ---- Progress ----------------------------------------------------------------------------

  function StartRank(pc: StartPc): nat {
    match pc
    case StartCheck => 5 case StartSending => 4 case StartCancel => 3
    case StartClose => 2 case StartWg => 1 case StartExit => 0
  }

  function OnceRank(o: Once): nat {
    match o
    case Idle => 3 case AwaitStart(_) => 2 case SendingStop(_) => 1 case Finished => 0
  }

  function MonitorRank(pc: MonitorPc): nat {
    match pc
    case Monitoring => 5 case MonitorLock => 4 case MonitorStop => 3
    case MonitorClose => 2 case MonitorWg => 1 case MonitorExit => 0
  }

  /** Steps left to the start attempt, the stop attempt and the monitor. */
  function Measure(s: State): nat {
    StartRank(s.wire.start) + OnceRank(s.wire.once) + MonitorRank(s.monitor)
  }

  /** The steps of the start attempt, of the stop attempt and of the monitor. */
  predicate Critical(a: Action) {
    a.StartStep? || a.EnterOnce? || a.OwnerStep? || a.MonitorSeesParent? || a.MonitorSeesChild? || a.MonitorStep?
  }

  lemma StepsShrink(c: Limits, s: State, a: Action)
    requires Next(c, s, a).Some?
    ensures Measure(Next(c, s, a).value) <= Measure(s) - if Critical(a) then 1 else 0
  {
  }

  /** While the session is cancelled and Done is open, some critical step is enabled: nobody waits in a circle. */
  lemma NoCyclicWait(c: Limits, s: State)
    requires Inv(s) && s.ctl.cancelled && !s.ctl.done
    ensures exists a :: Critical(a) && Next(c, s, a).Some?
  {
    var a := match s.monitor
      case Monitoring => MonitorSeesChild
      case MonitorStop =>
        (match s.wire.once
         case Idle => EnterOnce(Monitor)
         case AwaitStart(_) => if StartDone(s.wire) then OwnerStep else StartStep(true)
         case SendingStop(_) => OwnerStep
         case Finished => MonitorStep)
      case _ => MonitorStep;
    assert Critical(a) && Next(c, s, a).Some?;
  }

  function CriticalSteps(schedule: seq<Action>): nat {
    if schedule == [] then 0 else (if Critical(schedule[0]) then 1 else 0) + CriticalSteps(schedule[1..])
  }

  lemma {:induction false} CancelledPersists(c: Limits, s: State, schedule: seq<Action>)
    requires s.ctl.cancelled && Run(c, s, schedule).Some?
    ensures Run(c, s, schedule).value.ctl.cancelled
    decreases |schedule|
  {
    if schedule != [] {
      CancelledPersists(c, Next(c, s, schedule[0]).value, schedule[1..]);
    }
  }

  /** A cancelled session that has run until none of those steps is left has closed Done, after no more of them than the
      measure; so every schedule can only go on for so long without closing it. */
  lemma CancelledSessionCloses(c: Limits, s: State, schedule: seq<Action>)
    requires Inv(s) && s.ctl.cancelled && Run(c, s, schedule).Some?
    ensures CriticalSteps(schedule) <= Measure(s)
    ensures (forall a | Critical(a) :: Next(c, Run(c, s, schedule).value, a).None?) ==>
              Run(c, s, schedule).value.ctl.done
  {
    MeasureSpent(c, s, schedule);
    RunKeepsInv(c, s, schedule);
    CancelledPersists(c, s, schedule);
    var t := Run(c, s, schedule).value;
    if !t.ctl.done {
      NoCyclicWait(c, t);
    }
  }

  lemma {:induction false} MeasureSpent(c: Limits, s: State, schedule: seq<Action>)
    requires Run(c, s, schedule).Some?
    ensures Measure(Run(c, s, schedule).value) + CriticalSteps(schedule) <= Measure(s)
    decreases |schedule|
  {
    hide Next, Measure, Critical;
    if schedule != [] {
      StepsShrink(c, s, schedule[0]);
      MeasureSpent(c, Next(c, s, schedule[0]).value, schedule[1..]);
    }
  }

  // ---- Endless runs ------------------------------------------------------------------------

  /** A run without end: state after state, each by one enabled action. */
  ghost predicate IsRun(c: Limits, states: nat -> State, actions: nat -> Action) {
    forall i: nat :: Next(c, states(i), actions(i)) == Some(states(i + 1))
  }

  /** The goroutines' own steps: those of the start attempt, the stop attempt, the monitor, the watchdog and the Stop
      callers, whose time to wait runs out. */
  predicate Scheduled(a: Action) {
    Critical(a) || OfWatchdog(a) || a.CallerStep?
  }

  predicate OfWatchdog(a: Action) {
    a.WatchTick? || a.WatchSeesCancel? || a.ProbeReturns? || a.WatchStep?
  }

  /** `a` is taken at `j`, or not possible there. */
  predicate Served(c: Limits, states: nat -> State, actions: nat -> Action, a: Action, j: nat) {
    actions(j) == a || Next(c, states(j), a).None?
  }

  /** No goroutine is left standing for ever before a step it could take; a write that never returns would be. */
  ghost predicate Fair(c: Limits, states: nat -> State, actions: nat -> Action) {
    forall a, i: nat | Scheduled(a) :: ServedAfter(c, states, actions, a, i)
  }

  ghost predicate ServedAfter(c: Limits, states: nat -> State, actions: nat -> Action, a: Action, i: nat) {
    exists j: nat :: i <= j && Served(c, states, actions, a, j)
  }

  lemma {:induction false} StatesKeepInv(c: Limits, states: nat -> State, actions: nat -> Action, i: nat, j: nat)
    requires IsRun(c, states, actions) && Inv(states(i)) && i <= j
    ensures Inv(states(j)) && Measure(states(j)) <= Measure(states(i))
    ensures states(i).ctl.cancelled ==> states(j).ctl.cancelled
    decreases j - i
  {
    if i < j {
      assert Next(c, states(i), actions(i)) == Some(states(i + 1));
      StepKeepsInv(c, states(i), actions(i));
      StepsShrink(c, states(i), actions(i));
      if states(i).ctl.cancelled {
        CancelStays(c, states(i), actions(i));
      }
      StatesKeepInv(c, states, actions, i + 1, j);
    }
  }

  lemma CancelStays(c: Limits, s: State, a: Action)
    requires s.ctl.cancelled && Next(c, s, a).Some?
    ensures Next(c, s, a).value.ctl.cancelled
  {
  }

  /** Other goroutines cannot take a critical step away: only a critical step does. */
  lemma CriticalStaysEnabled(c: Limits, s: State, a: Action, other: Action)
    requires Critical(a) && Next(c, s, a).Some? && !Critical(other) && Next(c, s, other).Some?
    ensures Next(c, Next(c, s, other).value, a).Some?
  {
  }

  /** An enabled critical step leads to a critical step. */
  lemma {:induction false} CriticalBefore(c: Limits, states: nat -> State, actions: nat -> Action, a: Action, i: nat,
                                          j: nat)
    returns (k: nat)
    requires IsRun(c, states, actions) && Critical(a) && Next(c, states(i), a).Some?
    requires i <= j && Served(c, states, actions, a, j)
    ensures i <= k && Critical(actions(k))
    decreases j - i
  {
    hide Next;
    assert Next(c, states(i), actions(i)) == Some(states(i + 1));
    if Critical(actions(i)) {
      k := i;
    } else {
      CriticalStaysEnabled(c, states(i), a, actions(i));
      k := CriticalBefore(c, states, actions, a, i + 1, j);
    }
  }

  /** Every fair run of a cancelled session closes Done, whoever cancelled it and whatever else goes on. */
  lemma {:induction false} FairRunCloses(c: Limits, states: nat -> State, actions: nat -> Action, i: nat)
    returns (k: nat)
    requires IsRun(c, states, actions) && Fair(c, states, actions)
    requires Inv(states(i)) && states(i).ctl.cancelled
    ensures i <= k && states(k).ctl.done && states(k).ctl.cancelled
    decreases Measure(states(i))
  {
    if states(i).ctl.done {
      return i;
    }
    NoCyclicWait(c, states(i));
    var a :| Critical(a) && Next(c, states(i), a).Some?;
    assert Critical(a) && Next(c, states(i), a).Some?;
    assert Scheduled(a) && ServedAfter(c, states, actions, a, i);
    var j: nat :| i <= j && Served(c, states, actions, a, j);
    assert i <= j && Served(c, states, actions, a, j);
    k := CriticalBefore(c, states, actions, a, i, j);
    assert Next(c, states(k), actions(k)) == Some(states(k + 1));
    StatesKeepInv(c, states, actions, i, k);
    StatesKeepInv(c, states, actions, k, k + 1);
    StepsShrink(c, states(k), actions(k));
    hide Inv, Next, Measure, Fair;
    k := FairRunCloses(c, states, actions, k + 1);
  }

  // ---- Stop returns ------------------------------------------------------------------------

  function CallerRank(pc: CallerPc): nat {
    match pc
    case CallerLock => 4 case CallerWait => 3 case CallerStop => 2 case CallerClose => 1 case CallerReturned => 0
  }

  /** Only its own steps move a caller, each of them forward. */
  lemma CallerAdvances(c: Limits, s: State, a: Action, id: nat)
    requires id in s.callers && Next(c, s, a).Some?
    ensures var t := Next(c, s, a).value;
            && id in t.callers && CallerRank(t.callers[id]) <= CallerRank(s.callers[id])
            && (t.callers[id] == s.callers[id] <==> !(a.CallerStep? && a.id == id))
  {
  }

  /** A caller that can take its step on timeout keeps being able to until it has moved. */
  lemma CallerReady(c: Limits, s: State, id: nat)
    requires Inv(s) && id in s.callers && s.callers[id] != CallerReturned
    requires s.callers[id] == CallerStop ==> s.ctl.done
    ensures Next(c, s, CallerStep(id, true)).Some?
  {
  }

  lemma {:induction false} CallerMoves(c: Limits, states: nat -> State, actions: nat -> Action, id: nat, i: nat, j: nat)
    returns (k: nat)
    requires IsRun(c, states, actions) && i <= j && Inv(states(i)) && id in states(i).callers
    requires states(i).callers[id] != CallerReturned && (states(i).callers[id] == CallerStop ==> states(i).ctl.done)
    requires Served(c, states, actions, CallerStep(id, true), j)
    ensures i < k && Inv(states(k)) && id in states(k).callers
    ensures CallerRank(states(k).callers[id]) < CallerRank(states(i).callers[id])
    decreases j - i
  {
    hide Inv, Next;
    assert Next(c, states(i), actions(i)) == Some(states(i + 1));
    StepKeepsInv(c, states(i), actions(i));
    CallerAdvances(c, states(i), actions(i), id);
    CallerReady(c, states(i), id);
    k := i + 1;
    if states(k).callers[id] == states(i).callers[id] {
      if states(i).callers[id] == CallerStop {
        DoneStepIsSilent(c, states(i), actions(i));
      }
      k := CallerMoves(c, states, actions, id, i + 1, j);
    }
  }

  lemma {:induction false} CallerStays(c: Limits, states: nat -> State, actions: nat -> Action, id: nat, i: nat, j: nat)
    requires IsRun(c, states, actions) && i <= j && id in states(i).callers
    ensures id in states(j).callers && CallerRank(states(j).callers[id]) <= CallerRank(states(i).callers[id])
    decreases j - i
  {
    hide Next;
    if i < j {
      assert Next(c, states(i), actions(i)) == Some(states(i + 1));
      CallerAdvances(c, states(i), actions(i), id);
      CallerStays(c, states, actions, id, i + 1, j);
    }
  }

  lemma CallerCancels(s: State, id: nat)
    requires Inv(s) && id in s.callers && s.callers[id] == CallerStop
    ensures s.ctl.cancelled
  {
  }

  /** In every fair run every Stop returns. */
  lemma {:induction false} StopReturns(c: Limits, states: nat -> State, actions: nat -> Action, id: nat, i: nat)
    returns (k: nat)
    requires IsRun(c, states, actions) && Fair(c, states, actions) && Inv(states(i)) && id in states(i).callers
    ensures i <= k && id in states(k).callers && states(k).callers[id] == CallerReturned
    decreases CallerRank(states(i).callers[id])
  {
    hide Inv, Next;
    k := i;
    if states(k).callers[id] == CallerReturned {
      return;
    }
    if states(k).callers[id] == CallerStop {
      CallerCancels(states(k), id);
      k := FairRunCloses(c, states, actions, i);
      StatesKeepInv(c, states, actions, i, k);
      CallerStays(c, states, actions, id, i, k);
    }
    if states(k).callers[id] != CallerReturned {
      var a := CallerStep(id, true);
      assert Scheduled(a) && ServedAfter(c, states, actions, a, k);
      var j: nat :| k <= j && Served(c, states, actions, a, j);
      assert k <= j && Served(c, states, actions, a, j);
      k := CallerMoves(c, states, actions, id, k, j);
      k := StopReturns(c, states, actions, id, k);
    }
  }

  // ---- The silent link ---------------------------------------------------------------------

  predicate Silent(c: Limits, l: Link) {
    l.now - l.lastRx >= c.deadAfter
  }

  /** The watchdog leaves its loop only through a cancelled context, and goes on to cancel a link it found dead. */
  predicate WatchConsistent(s: State) {
    && (s.link.watch == WatchWg || s.link.watch == WatchExit ==> s.ctl.cancelled)
    && (s.link.dead ==> s.ctl.cancelled || s.link.watch == WatchCancel)
  }

  /** Steps the watchdog needs at most before it has cancelled a silent link. */
  function WatchRank(pc: WatchPc): nat {
    match pc
    case Probing => 3 case Watching => 2 case WatchCancel => 1
    case WatchWg => 0 case WatchExit => 0
  }

  function WatchdogSteps(schedule: seq<Action>): nat {
    if schedule == [] then 0 else (if OfWatchdog(schedule[0]) then 1 else 0) + WatchdogSteps(schedule[1..])
  }

  lemma SilentStep(c: Limits, s: State, a: Action)
    requires Inv(s) && WatchConsistent(s) && Silent(c, s.link) && a != Receive && Next(c, s, a).Some?
    ensures var t := Next(c, s, a).value;
            && WatchConsistent(t) && Silent(c, t.link) && (s.ctl.cancelled ==> t.ctl.cancelled)
            && (t.ctl.cancelled || WatchRank(t.link.watch) <= WatchRank(s.link.watch) - if OfWatchdog(a) then 1 else 0)
  {
  }

  /** A silent link on which nothing is received is cancelled by as many steps of its watchdog as the rank, wherever it
      stood when the silence passed the threshold, waiting for a probe included. */
  lemma {:induction false} SilentLinkIsCancelled(c: Limits, s: State, schedule: seq<Action>)
    requires Inv(s) && WatchConsistent(s) && Silent(c, s.link) && Receive !in schedule && Run(c, s, schedule).Some?
    requires WatchdogSteps(schedule) >= WatchRank(s.link.watch)
    ensures Run(c, s, schedule).value.ctl.cancelled
    decreases |schedule|
  {
    if s.ctl.cancelled {
      CancelledPersists(c, s, schedule);
    } else {
      StepKeepsInv(c, s, schedule[0]);
      SilentStep(c, s, schedule[0]);
      var t := Next(c, s, schedule[0]).value;
      if t.ctl.cancelled {
        CancelledPersists(c, t, schedule[1..]);
      } else {
        SilentLinkIsCancelled(c, t, schedule[1..]);
      }
    }
  }

  /** The condition it needs holds in every state a session reaches. */
  lemma {:induction false} WatchStaysConsistent(c: Limits, s: State, schedule: seq<Action>)
    requires WatchConsistent(s) && Run(c, s, schedule).Some?
    ensures WatchConsistent(Run(c, s, schedule).value)
    decreases |schedule|
  {
    if schedule != [] {
      WatchStaysConsistent(c, Next(c, s, schedule[0]).value, schedule[1..]);
    }
  }

  lemma DeadStep(c: Limits, s: State, a: Action)
    requires WatchConsistent(s) && s.link.dead && !s.ctl.cancelled && Next(c, s, a).Some?
    ensures Next(c, s, WatchStep).Some?
    ensures var t := Next(c, s, a).value;
            && WatchConsistent(t) && t.link.dead && (t.ctl.cancelled || a != WatchStep)
  {
  }

  lemma {:induction false} DeadLinkCancelled(c: Limits, states: nat -> State, actions: nat -> Action, i: nat, j: nat)
    returns (k: nat)
    requires IsRun(c, states, actions) && i <= j && Served(c, states, actions, WatchStep, j)
    requires Inv(states(i)) && WatchConsistent(states(i)) && states(i).link.dead
    ensures i <= k && Inv(states(k)) && states(k).ctl.cancelled
    decreases j - i
  {
    hide Inv, Next, WatchConsistent;
    if states(i).ctl.cancelled {
      return i;
    }
    assert Next(c, states(i), actions(i)) == Some(states(i + 1));
    StepKeepsInv(c, states(i), actions(i));
    DeadStep(c, states(i), actions(i));
    if states(i + 1).ctl.cancelled {
      return i + 1;
    }
    k := DeadLinkCancelled(c, states, actions, i + 1, j);
  }

  /** In every fair run a link the watchdog found dead, by silence or by a failed probe, closes the session; and what
      is received later does not save it. */
  lemma DeadLinkCloses(c: Limits, states: nat -> State, actions: nat -> Action, i: nat) returns (k: nat)
    requires IsRun(c, states, actions) && Fair(c, states, actions)
    requires Inv(states(i)) && WatchConsistent(states(i)) && states(i).link.dead
    ensures i <= k && states(k).ctl.cancelled && states(k).ctl.done
  {
    assert Scheduled(WatchStep) && ServedAfter(c, states, actions, WatchStep, i);
    var j: nat :| i <= j && Served(c, states, actions, WatchStep, j);
    assert i <= j && Served(c, states, actions, WatchStep, j);
    k := DeadLinkCancelled(c, states, actions, i, j);
    k := FairRunCloses(c, states, actions, k);
  }

  /** The step the watchdog takes next on a silent link. */
  function WatchdogTurn(pc: WatchPc): Action {
    match pc
    case Probing => ProbeReturns(true)
    case Watching => WatchTick
    case _ => WatchStep
  }

  lemma SilentRunSteps(c: Limits, states: nat -> State, actions: nat -> Action, i: nat, j: nat) returns (k: nat)
    requires IsRun(c, states, actions) && i <= j
    requires Inv(states(i)) && WatchConsistent(states(i)) && Silent(c, states(i).link)
    requires !states(i).ctl.cancelled && Served(c, states, actions, WatchdogTurn(states(i).link.watch), j)
    requires forall n: nat | i <= n :: actions(n) != Receive
    ensures i < k && Inv(states(k)) && WatchConsistent(states(k)) && Silent(c, states(k).link)
    ensures states(k).ctl.cancelled || WatchRank(states(k).link.watch) < WatchRank(states(i).link.watch)
    decreases j - i
  {
    hide Inv, Next, WatchConsistent, Silent, WatchRank, Scheduled;
    assert Next(c, states(i), actions(i)) == Some(states(i + 1));
    assert actions(i) != Receive;
    StepKeepsInv(c, states(i), actions(i));
    SilentStep(c, states(i), actions(i));
    TurnsOfWatchdog(c, states(i));
    k := i + 1;
    if !OfWatchdog(actions(i)) && !states(k).ctl.cancelled {
      OthersLeaveWatchdog(c, states(i), actions(i));
      k := SilentRunSteps(c, states, actions, i + 1, j);
    }
  }

  /** Until a silent link is cancelled its watchdog has a step to take. */
  lemma TurnsOfWatchdog(c: Limits, s: State)
    requires WatchConsistent(s) && !s.ctl.cancelled
    ensures Next(c, s, WatchdogTurn(s.link.watch)).Some? && WatchRank(s.link.watch) > 0
    ensures OfWatchdog(WatchdogTurn(s.link.watch))
  {
  }

  lemma OthersLeaveWatchdog(c: Limits, s: State, a: Action)
    requires !OfWatchdog(a) && Next(c, s, a).Some?
    ensures Next(c, s, a).value.link.watch == s.link.watch
  {
  }

  /** In every fair run a link that is silent for good is cancelled, and the session closes. */
  lemma {:induction false} SilentLinkCloses(c: Limits, states: nat -> State, actions: nat -> Action, i: nat)
    returns (k: nat)
    requires IsRun(c, states, actions) && Fair(c, states, actions)
    requires Inv(states(i)) && WatchConsistent(states(i)) && Silent(c, states(i).link)
    requires forall n: nat | i <= n :: actions(n) != Receive
    ensures i <= k && states(k).ctl.cancelled && states(k).ctl.done
    decreases WatchRank(states(i).link.watch), !states(i).ctl.cancelled
  {
    if states(i).ctl.cancelled {
      k := FairRunCloses(c, states, actions, i);
    } else {
      var a := WatchdogTurn(states(i).link.watch);
      assert Scheduled(a) && ServedAfter(c, states, actions, a, i);
      var j: nat :| i <= j && Served(c, states, actions, a, j);
      assert i <= j && Served(c, states, actions, a, j);
      k := SilentRunSteps(c, states, actions, i, j);
      if states(k).ctl.cancelled {
        k := FairRunCloses(c, states, actions, k);
      } else {
        k := SilentLinkCloses(c, states, actions, k);
      }
    }
  }
}
