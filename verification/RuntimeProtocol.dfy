/**
  * Requests, the idle reaper, shutdown and spontaneous process death, interleaved over the
  * managed runtimes. A step runs from one suspension to the next or is a part of such a run;
  * taking a free lock does not suspend. Every property is proved of every run.
  */
module RuntimeProtocol {
  import opened Prelude
  import opened RuntimeManager

  // ---------------------------------------------------------------- one backend

  datatype Stopper = FailedStart | Reaper | Shutdown

  /** Who holds a backend's lock across a suspension. */
  datatype Holder =
    | Free
    | Starting(deadline: int)
    | Stopping(stopper: Stopper, killed: bool)

  datatype Waiter = Request | StopRequest(stopper: Stopper)

  /**
    * `alive` are the live processes this manager spawned for the backend, `ready` those that
    * passed readiness, `outstanding` the requests begun and not ended, `busySince` is when the
    * lock last changed hands.
    */
  datatype Backend = Backend(
    rec: Record,
    alive: set<Pid>,
    nextPid: Pid,
    ready: set<Pid>,
    holder: Holder,
    queue: seq<Waiter>,
    outstanding: nat,
    busySince: int)

  datatype Timeouts = Timeouts(idle: int, readiness: int)

  predicate Running(bk: Backend) {
    bk.rec.process.Some? && bk.rec.process.value in bk.alive
  }

  /** Taking the lock would wait: it is held, or promised to a waiter. */
  predicate Busy(bk: Backend) {
    bk.holder != Free || bk.queue != []
  }

  function FinishStop(bk: Backend, now: int): Backend {
    bk.(rec := Stopped(bk.rec), holder := Free, busySince := now)
  }

  /** `begin_request`, which follows `ensure_running` without a suspension. */
  function Begin(bk: Backend, now: int): Backend {
    bk.(rec := Begun(bk.rec, now), outstanding := bk.outstanding + 1)
  }

  /** What a task does with the lock up to its next suspension. */
  function Enter(bk: Backend, w: Waiter, now: int, spawnOk: bool, t: Timeouts): Backend {
    match w
    case Request =>
      if Running(bk) then
        Begin(bk.(rec := Touched(bk.rec, now), holder := Free, busySince := now), now)
      else if !spawnOk then
        bk.(holder := Free, busySince := now)
      else
        bk.(rec := Spawned(bk.rec, bk.nextPid, now), alive := bk.alive + {bk.nextPid}, nextPid := bk.nextPid + 1,
            holder := Starting(now + t.readiness), busySince := now)
    case StopRequest(stopper) =>
      if Running(bk) then bk.(holder := Stopping(stopper, false), busySince := now)
      else FinishStop(bk, now)
  }

  function Acquire(bk: Backend, w: Waiter, now: int, spawnOk: bool, t: Timeouts): Backend {
    if Busy(bk) then bk.(queue := bk.queue + [w]) else Enter(bk, w, now, spawnOk, t)
  }

  datatype BackendEvent =
    | Arrive(spawnOk: bool)   // a request calls ensure_running
    | Wake(spawnOk: bool)     // the first waiter gets the freed lock
    | ProbeReady              // the readiness endpoint answered
    | GiveUp                  // the process exited, or the readiness deadline passed
    | ProcessGone             // the awaited wait() returned
    | TermTimeout             // the awaited wait() timed out; kill
    | EndRequest
    | TouchBackend
    | Die(pid: Pid)
    | ShutdownStop            // stop_all reaches the backend
    | KillTimeout             // the killed process would not go
    | CancelHolder            // the task holding the lock is cancelled
    | CancelWaiter(index: nat)

  /** Cancelled tasks and unkillable processes. */
  predicate Unclean(e: BackendEvent) {
    e.KillTimeout? || e.CancelHolder? || e.CancelWaiter?
  }

  predicate EnabledAt(bk: Backend, e: BackendEvent, now: int) {
    match e
    case Arrive(_) => true
    case Wake(_) => bk.holder == Free && bk.queue != []
    case ProbeReady => bk.holder.Starting? && bk.rec.process.Some?
    case GiveUp => bk.holder.Starting? && (!Running(bk) || now > bk.holder.deadline)
    case ProcessGone => bk.holder.Stopping? && !Running(bk)
    case TermTimeout => bk.holder.Stopping? && !bk.holder.killed && Running(bk)
    case EndRequest => bk.outstanding > 0
    case TouchBackend => true
    case Die(pid) => pid in bk.alive
    case ShutdownStop => true
    case KillTimeout => bk.holder.Stopping? && bk.holder.killed && Running(bk)
    case CancelHolder => bk.holder != Free
    case CancelWaiter(i) => i < |bk.queue|
  }

  function StepAt(bk: Backend, e: BackendEvent, now: int, t: Timeouts): Backend
    requires EnabledAt(bk, e, now)
  {
    match e
    case Arrive(spawnOk) => Acquire(bk, Request, now, spawnOk, t)
    case Wake(spawnOk) => Enter(bk.(queue := bk.queue[1..]), bk.queue[0], now, spawnOk, t)
    case ProbeReady =>
      Begin(bk.(rec := Touched(bk.rec, now), ready := bk.ready + {bk.rec.process.value},
                holder := Free, busySince := now), now)
    case GiveUp =>
      if Running(bk) then bk.(holder := Stopping(FailedStart, false)) else FinishStop(bk, now)
    case ProcessGone => FinishStop(bk, now)
    case TermTimeout => bk.(holder := Stopping(bk.holder.stopper, true))
    case EndRequest =>
      bk.(rec := Ended(bk.rec, now), outstanding := bk.outstanding - 1)
    case TouchBackend => bk.(rec := Touched(bk.rec, now))
    case Die(pid) => bk.(alive := bk.alive - {pid})
    case ShutdownStop => Acquire(bk, StopRequest(Shutdown), now, false, t)
    case KillTimeout => bk.(holder := Free, busySince := now)
    case CancelHolder => bk.(holder := Free, busySince := now)
    case CancelWaiter(i) => bk.(queue := bk.queue[..i] + bk.queue[i + 1..])
  }

  /** What entering with the lock held does to the manager's own record. */
  method PerformEnter(state: RuntimeState, bk: Backend, w: Waiter, now: int, spawnOk: bool, t: Timeouts)
    requires state.View() == bk.rec
    modifies state
    ensures state.View() == Enter(bk, w, now, spawnOk, t).rec
  {
    match w
    case Request =>
      var outcome := state.EnterEnsure(Running(bk), if spawnOk then Some(bk.nextPid) else None, now);
      if outcome == AlreadyRunning {
        state.BeginRequest(now);
      }
    case StopRequest(_) =>
      if !Running(bk) {
        state.FinishStop();
      }
  }

  /** Every step's effect on the manager's record is the work of the manager's own pieces. */
  method Perform(state: RuntimeState, bk: Backend, e: BackendEvent, now: int, t: Timeouts)
    requires EnabledAt(bk, e, now) && state.View() == bk.rec
    modifies state
    ensures state.View() == StepAt(bk, e, now, t).rec
  {
    match e
    case Arrive(spawnOk) =>
      if !Busy(bk) {
        PerformEnter(state, bk, Request, now, spawnOk, t);
      }
    case Wake(spawnOk) =>
      PerformEnter(state, bk.(queue := bk.queue[1..]), bk.queue[0], now, spawnOk, t);
    case ProbeReady =>
      state.Touch(now);
      state.BeginRequest(now);
    case GiveUp =>
      if !Running(bk) {
        state.FinishStop();
      }
    case ProcessGone => state.FinishStop();
    case EndRequest => state.EndRequest(now);
    case TouchBackend => state.Touch(now);
    case ShutdownStop =>
      if !Busy(bk) {
        PerformEnter(state, bk, StopRequest(Shutdown), now, false, t);
      }
    case _ =>
  }

  // ---------------------------------------------------------------- the system

  /** Where the reaper is; a pass reads the clock once, at its start. */
  datatype ReaperState =
    | Asleep
    | Scanning(passNow: int, rest: seq<string>)
    | Waiting(passNow: int, at: string, rest: seq<string>)
    | Gone

  datatype Setup = Setup(order: seq<string>, timeouts: map<string, Timeouts>)

  datatype System = System(clock: int, reaper: ReaperState, backends: map<string, Backend>)

  datatype Event =
    | Tick(elapsed: nat)
    | At(name: string, event: BackendEvent)
    | ReaperPass
    | ReaperCheck
    | ReaperResume
    | ReaperSleep
    | ReaperStopped     // cancelled while asleep, before shutdown stops the backends

  /** The manager keeps one state per configured backend. */
  ghost predicate WellFormed(cfg: Setup, s: System) {
    && s.backends.Keys == cfg.timeouts.Keys
    && (forall n :: n in cfg.order <==> n in cfg.timeouts)
    && NoDuplicates(cfg.order)
    && (s.reaper.Scanning? ==> forall n :: n in s.reaper.rest ==> n in s.backends)
    && (s.reaper.Waiting? ==> s.reaper.at in s.backends && forall n :: n in s.reaper.rest ==> n in s.backends)
  }

  function Unused(clock: int): Backend {
    Backend(UNSTARTED, {}, 0, {}, Free, [], 0, clock)
  }

  ghost predicate IsInit(cfg: Setup, s: System) {
    && WellFormed(cfg, s)
    && s.clock >= 0
    && s.reaper == Asleep
    && forall n :: n in s.backends ==> s.backends[n] == Unused(s.clock)
  }

  /** The reaper's stop of this backend is queued or under way. */
  predicate ReaperAt(bk: Backend) {
    StopRequest(Reaper) in bk.queue || (bk.holder.Stopping? && bk.holder.stopper == Reaper)
  }

  predicate IsIdle(bk: Backend, passNow: int, t: Timeouts) {
    Running(bk) && bk.rec.activeRequests == 0 && passNow - bk.rec.lastUsed >= t.idle
  }

  predicate Enabled(cfg: Setup, s: System, e: Event) {
    match e
    case Tick(_) => true
    case At(n, be) =>
      && n in s.backends && n in cfg.timeouts && EnabledAt(s.backends[n], be, s.clock)
      && (be.ShutdownStop? ==> s.reaper == Gone)
    case ReaperPass => s.reaper == Asleep
    case ReaperCheck =>
      s.reaper.Scanning? && s.reaper.rest != [] && s.reaper.rest[0] in s.backends && s.reaper.rest[0] in cfg.timeouts
    case ReaperResume => s.reaper.Waiting? && s.reaper.at in s.backends && !ReaperAt(s.backends[s.reaper.at])
    case ReaperSleep => s.reaper.Scanning? && s.reaper.rest == []
    case ReaperStopped => s.reaper == Asleep
  }

  function Step(cfg: Setup, s: System, e: Event): System
    requires Enabled(cfg, s, e)
  {
    match e
    case Tick(d) => s.(clock := s.clock + d)
    case At(n, be) =>
      var bk := StepAt(s.backends[n], be, s.clock, cfg.timeouts[n]);
      s.(backends := s.backends[n := bk],
         reaper := if Unclean(be) && ReaperAt(s.backends[n]) && !ReaperAt(bk) then Gone else s.reaper)
    case ReaperPass => s.(reaper := Scanning(s.clock, cfg.order))
    case ReaperCheck =>
      var n, rest, passNow := s.reaper.rest[0], s.reaper.rest[1..], s.reaper.passNow;
      if IsIdle(s.backends[n], passNow, cfg.timeouts[n]) then
        s.(backends :=
             s.backends[n := Acquire(s.backends[n], StopRequest(Reaper), s.clock, false, cfg.timeouts[n])],
           reaper := Waiting(passNow, n, rest))
      else s.(reaper := Scanning(passNow, rest))
    case ReaperResume => s.(reaper := Scanning(s.reaper.passNow, s.reaper.rest))
    case ReaperSleep => s.(reaper := Asleep)
    case ReaperStopped => s.(reaper := Gone)
  }

  ghost predicate IsRun(cfg: Setup, ss: seq<System>, es: seq<Event>) {
    && |ss| == |es| + 1
    && IsInit(cfg, ss[0])
    && forall i :: 0 <= i < |es| ==> Enabled(cfg, ss[i], es[i]) && ss[i + 1] == Step(cfg, ss[i], es[i])
  }

  /** No task was cancelled and no process outlived its kill. */
  predicate CleanRun(es: seq<Event>) {
    forall i :: 0 <= i < |es| && es[i].At? ==> !Unclean(es[i].event)
  }

  // ---------------------------------------------------------------- what every step keeps

  /** At most one live spawned process, and it is the recorded one. */
  ghost predicate OneLive(bk: Backend) {
    && (forall p :: p in bk.alive ==> bk.rec.process == Some(p))
    && (forall p :: p in bk.alive ==> p < bk.nextPid)
  }

  /** The counter never exceeds the outstanding requests. */
  predicate Counted(bk: Backend) {
    bk.rec.activeRequests <= bk.outstanding
  }

  predicate Stamped(bk: Backend, clock: int) {
    bk.rec.lastUsed <= clock && bk.busySince <= clock && 0 <= clock
  }

  ghost predicate BackendInv(bk: Backend, clock: int) {
    OneLive(bk) && Counted(bk) && Stamped(bk, clock)
  }

  lemma EnterKeepsOneLive(bk: Backend, w: Waiter, now: int, spawnOk: bool, t: Timeouts)
    requires OneLive(bk)
    ensures OneLive(Enter(bk, w, now, spawnOk, t))
  {
  }

  lemma StepAtKeepsOneLive(bk: Backend, e: BackendEvent, now: int, t: Timeouts)
    requires EnabledAt(bk, e, now) && OneLive(bk)
    ensures OneLive(StepAt(bk, e, now, t))
  {
    match e
    case Arrive(spawnOk) => EnterKeepsOneLive(bk, Request, now, spawnOk, t);
    case Wake(spawnOk) => EnterKeepsOneLive(bk.(queue := bk.queue[1..]), bk.queue[0], now, spawnOk, t);
    case ShutdownStop => EnterKeepsOneLive(bk, StopRequest(Shutdown), now, false, t);
    case _ =>
  }

  lemma StepAtKeepsCount(bk: Backend, e: BackendEvent, now: int, t: Timeouts)
    requires EnabledAt(bk, e, now) && Counted(bk) && Stamped(bk, now)
    ensures Counted(StepAt(bk, e, now, t)) && Stamped(StepAt(bk, e, now, t), now)
  {
  }

  lemma StepAtKeeps(bk: Backend, e: BackendEvent, now: int, t: Timeouts)
    requires EnabledAt(bk, e, now) && BackendInv(bk, now)
    ensures BackendInv(StepAt(bk, e, now, t), now)
  {
    StepAtKeepsOneLive(bk, e, now, t);
    StepAtKeepsCount(bk, e, now, t);
  }

  ghost predicate Inv(cfg: Setup, s: System) {
    && WellFormed(cfg, s)
    && (forall n :: n in s.backends ==> BackendInv(s.backends[n], s.clock))
    && (forall n :: n in s.backends && ReaperAt(s.backends[n]) ==> s.reaper.Waiting? && s.reaper.at == n)
    && (s.reaper.Scanning? || s.reaper.Waiting? ==> s.reaper.passNow <= s.clock)
  }

  /** Removing one waiter leaves the others. */
  lemma WaiterLeaves(queue: seq<Waiter>, i: nat, w: Waiter)
    requires i < |queue| && w in queue[..i] + queue[i + 1..]
    ensures w in queue
  {
    if w in queue[..i] {
    } else {
      assert w in queue[i + 1..];
    }
  }

  lemma ReaperAtKept(bk: Backend, e: BackendEvent, now: int, t: Timeouts)
    requires EnabledAt(bk, e, now) && ReaperAt(StepAt(bk, e, now, t))
    ensures ReaperAt(bk)
  {
    match e
    case Wake(_) => assert bk.queue == [bk.queue[0]] + bk.queue[1..];
    case CancelWaiter(i) =>
      if StopRequest(Reaper) in StepAt(bk, e, now, t).queue {
        WaiterLeaves(bk.queue, i, StopRequest(Reaper));
      }
    case _ =>
  }

  lemma LocalStepKeepsInv(cfg: Setup, s: System, n: string, be: BackendEvent)
    requires Inv(cfg, s) && Enabled(cfg, s, At(n, be))
    ensures Inv(cfg, Step(cfg, s, At(n, be)))
  {
    var bk := s.backends[n];
    StepAtKeeps(bk, be, s.clock, cfg.timeouts[n]);
    if ReaperAt(StepAt(bk, be, s.clock, cfg.timeouts[n])) {
      ReaperAtKept(bk, be, s.clock, cfg.timeouts[n]);
    }
  }

  /** Every step keeps the invariant. */
  lemma StepKeepsInv(cfg: Setup, s: System, e: Event)
    requires Inv(cfg, s) && Enabled(cfg, s, e)
    ensures Inv(cfg, Step(cfg, s, e))
  {
    match e
    case At(n, be) => LocalStepKeepsInv(cfg, s, n, be);
    case ReaperCheck => assert s.reaper.rest[0] in s.reaper.rest;
    case _ =>
  }

  lemma {:induction false} RunInv(cfg: Setup, ss: seq<System>, es: seq<Event>, i: nat)
    requires IsRun(cfg, ss, es) && i < |ss|
    ensures Inv(cfg, ss[i])
  {
    if i > 0 {
      RunInv(cfg, ss, es, i - 1);
      StepKeepsInv(cfg, ss[i - 1], es[i - 1]);
    }
  }

  /**
    * In every interleaving, cancelled tasks and unkillable processes included, a backend has
    * at most one live spawned process, and it is the one on record.
    */
  lemma AtMostOneLiveProcess(cfg: Setup, ss: seq<System>, es: seq<Event>, i: nat, n: string)
    requires IsRun(cfg, ss, es) && i < |ss| && n in ss[i].backends
    ensures var bk := ss[i].backends[n];
      && (bk.alive == {} || (bk.rec.process.Some? && bk.alive == {bk.rec.process.value}))
      && |bk.alive| <= 1
  {
    RunInv(cfg, ss, es, i);
    var bk := ss[i].backends[n];
    if p :| p in bk.alive {
      assert bk.alive == {p};
    }
  }

  /** In every interleaving the request counter never exceeds the requests begun and not ended. */
  lemma CounterNeverExceedsOutstanding(cfg: Setup, ss: seq<System>, es: seq<Event>, i: nat, n: string)
    requires IsRun(cfg, ss, es) && i < |ss| && n in ss[i].backends
    ensures ss[i].backends[n].rec.activeRequests <= ss[i].backends[n].outstanding
  {
    RunInv(cfg, ss, es, i);
  }

  /** The event completes a stop, which resets the request counter. */
  predicate Finishes(bk: Backend, e: BackendEvent) {
    match e
    case GiveUp => !Running(bk)
    case ProcessGone => true
    case Wake(_) => bk.queue != [] && bk.queue[0].StopRequest? && !Running(bk)
    case ShutdownStop => !Busy(bk) && !Running(bk)
    case _ => false
  }

  /** The step completes a stop of backend `n`. */
  predicate FinishesAt(s: System, e: Event, n: string) {
    e.At? && e.name == n && n in s.backends && Finishes(s.backends[n], e.event)
  }

  /** The counter reads too low. */
  predicate Short(s: System, n: string) {
    n in s.backends && s.backends[n].rec.activeRequests < s.backends[n].outstanding
  }

  predicate Outstanding(s: System, n: string) {
    n in s.backends && s.backends[n].outstanding > 0
  }

  lemma CountStep(bk: Backend, e: BackendEvent, now: int, t: Timeouts)
    requires EnabledAt(bk, e, now) && Counted(bk)
    ensures var after := StepAt(bk, e, now, t);
      after.rec.activeRequests < after.outstanding <==>
        after.outstanding > 0
        && (bk.rec.activeRequests < bk.outstanding || (Finishes(bk, e) && bk.outstanding > 0))
  {
  }

  /** A step makes the counter short only by completing a stop, and draining the requests heals it. */
  lemma ShortStep(cfg: Setup, s: System, e: Event, n: string)
    requires Inv(cfg, s) && Enabled(cfg, s, e)
    ensures Short(Step(cfg, s, e), n) <==>
      Outstanding(Step(cfg, s, e), n) && (Short(s, n) || (FinishesAt(s, e, n) && Outstanding(s, n)))
  {
    match e
    case At(m, be) =>
      if m == n {
        CountStep(s.backends[n], be, s.clock, cfg.timeouts[n]);
      }
    case _ =>
  }

  /** Step `j` completed a stop under an outstanding request, and some have been outstanding ever since. */
  ghost predicate LostSince(ss: seq<System>, es: seq<Event>, i: nat, n: string, j: nat)
    requires i < |ss| == |es| + 1
  {
    && j < i
    && FinishesAt(ss[j], es[j], n)
    && forall m :: j <= m <= i ==> Outstanding(ss[m], n)
  }

  ghost predicate Lost(ss: seq<System>, es: seq<Event>, i: nat, n: string)
    requires i < |ss| == |es| + 1
  {
    exists j: nat :: LostSince(ss, es, i, n, j)
  }

  lemma LostStep(ss: seq<System>, es: seq<Event>, i: nat, n: string)
    requires i + 1 < |ss| == |es| + 1
    ensures Lost(ss, es, i + 1, n) <==>
      Outstanding(ss[i + 1], n)
      && (Lost(ss, es, i, n) || (FinishesAt(ss[i], es[i], n) && Outstanding(ss[i], n)))
  {
    var k := i + 1;
    if j: nat :| LostSince(ss, es, k, n, j) {
      assert Outstanding(ss[i], n) && (j < i ==> LostSince(ss, es, i, n, j));
    }
    if Outstanding(ss[k], n) {
      if j: nat :| LostSince(ss, es, i, n, j) {
        assert LostSince(ss, es, k, n, j);
      } else if FinishesAt(ss[i], es[i], n) && Outstanding(ss[i], n) {
        assert LostSince(ss, es, k, n, i);
      }
    }
  }

  lemma {:induction false} ShortIffLost(cfg: Setup, ss: seq<System>, es: seq<Event>, i: nat, n: string)
    requires IsRun(cfg, ss, es) && i < |ss|
    ensures Short(ss[i], n) <==> Lost(ss, es, i, n)
  {
    if i > 0 {
      ShortIffLost(cfg, ss, es, i - 1, n);
      RunInv(cfg, ss, es, i - 1);
      ShortStep(cfg, ss[i - 1], es[i - 1], n);
      LostStep(ss, es, i - 1, n);
    }
  }

  /**
    * Exactly when the counter is the number of requests begun and not ended: unless some stop
    * of the backend completed under an outstanding request and the backend has not been
    * without outstanding requests since.
    */
  lemma CounterExact(cfg: Setup, ss: seq<System>, es: seq<Event>, i: nat, n: string)
    requires IsRun(cfg, ss, es) && i < |ss| && n in cfg.timeouts
    ensures n in ss[i].backends
    ensures ss[i].backends[n].rec.activeRequests == ss[i].backends[n].outstanding <==> !Lost(ss, es, i, n)
  {
    RunInv(cfg, ss, es, i);
    ShortIffLost(cfg, ss, es, i, n);
  }

  // ---------------------------------------------------------------- the counts and clocks, from the events

  /** The task takes the lock at this event: an arrival that need not wait, or the first waiter's turn. */
  predicate EntersAs(bk: Backend, e: BackendEvent, w: Waiter) {
    match e
    case Arrive(_) => !Busy(bk) && w == Request
    case Wake(_) => bk.queue != [] && bk.queue[0] == w
    case ShutdownStop => !Busy(bk) && w == StopRequest(Shutdown)
    case _ => false
  }

  /** A request begins: it finds the process running, or its start has become ready. */
  predicate BeginsRequest(bk: Backend, e: BackendEvent) {
    e.ProbeReady? || (EntersAs(bk, e, Request) && Running(bk))
  }

  predicate SpawnOk(e: BackendEvent) {
    (e.Arrive? || e.Wake?) && e.spawnOk
  }

  /** A process is started for a request that finds none running. */
  predicate Spawns(bk: Backend, e: BackendEvent) {
    EntersAs(bk, e, Request) && !Running(bk) && SpawnOk(e)
  }

  /** The backend is used: a request begins or ends, a process is started for one, or it is touched. */
  predicate Uses(bk: Backend, e: BackendEvent) {
    BeginsRequest(bk, e) || Spawns(bk, e) || e.EndRequest? || e.TouchBackend?
  }

  predicate UsesAt(s: System, e: Event, n: string) {
    e.At? && e.name == n && n in s.backends && Uses(s.backends[n], e.event)
  }

  /** When, before state `i`, the backend was last used. */
  function LastUse(ss: seq<System>, es: seq<Event>, i: nat, n: string): Option<int>
    requires i < |ss| == |es| + 1
  {
    if i == 0 then None
    else if UsesAt(ss[i - 1], es[i - 1], n) then Some(ss[i - 1].clock)
    else LastUse(ss, es, i - 1, n)
  }

  lemma UseStamps(bk: Backend, e: BackendEvent, now: int, t: Timeouts)
    requires EnabledAt(bk, e, now) && OneLive(bk)
    ensures var after := StepAt(bk, e, now, t);
      && (Uses(bk, e) ==> after.rec.lastUsed == now)
      && (!Uses(bk, e) && after.rec.process.Some? ==>
            after.rec.lastUsed == bk.rec.lastUsed && after.rec.process == bk.rec.process)
  {
  }

  /** A recorded process was last used when the record says. */
  lemma {:induction false} LastUsedIsLastUse(cfg: Setup, ss: seq<System>, es: seq<Event>, i: nat, n: string)
    requires IsRun(cfg, ss, es) && i < |ss| && n in cfg.timeouts
    ensures n in ss[i].backends
    ensures ss[i].backends[n].rec.process.Some? ==> LastUse(ss, es, i, n) == Some(ss[i].backends[n].rec.lastUsed)
  {
    if i > 0 {
      LastUsedIsLastUse(cfg, ss, es, i - 1, n);
      RunInv(cfg, ss, es, i - 1);
      LastUsedStep(cfg, ss[i - 1], es[i - 1], n);
    }
  }

  lemma LastUsedStep(cfg: Setup, s: System, e: Event, n: string)
    requires Inv(cfg, s) && Enabled(cfg, s, e) && n in s.backends
    ensures var s' := Step(cfg, s, e);
      && n in s'.backends
      && (UsesAt(s, e, n) ==> s'.backends[n].rec.lastUsed == s.clock)
      && (!UsesAt(s, e, n) && s'.backends[n].rec.process.Some? ==>
            s.backends[n].rec.process.Some? && s'.backends[n].rec.lastUsed == s.backends[n].rec.lastUsed)
  {
    match e
    case At(m, be) =>
      if m == n {
        UseStamps(s.backends[n], be, s.clock, cfg.timeouts[n]);
      }
    case _ =>
  }

  lemma {:induction false} ClockOnlyAdvances(cfg: Setup, ss: seq<System>, es: seq<Event>, j: nat, i: nat)
    requires IsRun(cfg, ss, es) && j <= i < |ss|
    ensures ss[j].clock <= ss[i].clock
  {
    if j < i { ClockOnlyAdvances(cfg, ss, es, j, i - 1); }
  }

  lemma {:induction false} LastUseIsLatest(cfg: Setup, ss: seq<System>, es: seq<Event>, i: nat, n: string, limit: int)
    requires IsRun(cfg, ss, es) && i < |ss| && LastUse(ss, es, i, n).Some?
    ensures LastUse(ss, es, i, n).value <= limit
       <==> forall j :: 0 <= j < i && UsesAt(ss[j], es[j], n) ==> ss[j].clock <= limit
  {
    if UsesAt(ss[i - 1], es[i - 1], n) {
      forall j | 0 <= j < i ensures ss[j].clock <= ss[i - 1].clock { ClockOnlyAdvances(cfg, ss, es, j, i - 1); }
    } else {
      LastUseIsLatest(cfg, ss, es, i - 1, n, limit);
    }
  }

  /**
    * Exactly when a pass that read the clock at its start judges a backend idle and goes to
    * stop it: its process is running, the counter is zero, and no request began or ended on it,
    * no process was started for one, and nothing touched it, within the idle timeout.
    */
  lemma ReaperStopsIffUnused(cfg: Setup, ss: seq<System>, es: seq<Event>, i: nat)
    requires IsRun(cfg, ss, es) && i < |es| && es[i] == ReaperCheck
    ensures var n, p := ss[i].reaper.rest[0], ss[i].reaper.passNow;
      && n in ss[i].backends && n in cfg.timeouts
      && (ss[i + 1].reaper.Waiting? <==>
            && Running(ss[i].backends[n]) && ss[i].backends[n].rec.activeRequests == 0
            && forall j :: 0 <= j < i && UsesAt(ss[j], es[j], n) ==> ss[j].clock <= p - cfg.timeouts[n].idle)
  {
    var n, p := ss[i].reaper.rest[0], ss[i].reaper.passNow;
    LastUsedIsLastUse(cfg, ss, es, i, n);
    if Running(ss[i].backends[n]) {
      LastUseIsLatest(cfg, ss, es, i, n, p - cfg.timeouts[n].idle);
    }
  }

  /** The backend's lock changes hands: a task takes it, or the one holding it gives it up. */
  predicate MovesLock(bk: Backend, e: BackendEvent) {
    match e
    case Arrive(_) => !Busy(bk)
    case ShutdownStop => !Busy(bk)
    case GiveUp => !Running(bk)
    case Wake(_) => true
    case ProbeReady => true
    case ProcessGone => true
    case KillTimeout => true
    case CancelHolder => true
    case _ => false
  }

  predicate MovesLockAt(cfg: Setup, s: System, e: Event, n: string)
    requires Enabled(cfg, s, e)
  {
    n in s.backends &&
    match e
    case At(m, be) => m == n && MovesLock(s.backends[n], be)
    case ReaperCheck =>
      s.reaper.rest[0] == n && !Busy(s.backends[n]) && IsIdle(s.backends[n], s.reaper.passNow, cfg.timeouts[n])
    case _ => false
  }

  /** When, before state `i`, the lock last changed hands; at the start when it never did. */
  function LastMove(cfg: Setup, ss: seq<System>, es: seq<Event>, i: nat, n: string): int
    requires IsRun(cfg, ss, es) && i < |ss|
  {
    if i == 0 then ss[0].clock
    else if MovesLockAt(cfg, ss[i - 1], es[i - 1], n) then ss[i - 1].clock
    else LastMove(cfg, ss, es, i - 1, n)
  }

  lemma BusySinceStep(cfg: Setup, s: System, e: Event, n: string)
    requires Inv(cfg, s) && Enabled(cfg, s, e) && n in s.backends
    ensures n in Step(cfg, s, e).backends
    ensures Step(cfg, s, e).backends[n].busySince
         == if MovesLockAt(cfg, s, e, n) then s.clock else s.backends[n].busySince
  {
  }

  /** The time a lock hold is measured from is when the lock last changed hands. */
  lemma {:induction false} BusySinceIsLastMove(cfg: Setup, ss: seq<System>, es: seq<Event>, i: nat, n: string)
    requires IsRun(cfg, ss, es) && i < |ss| && n in cfg.timeouts
    ensures n in ss[i].backends && ss[i].backends[n].busySince == LastMove(cfg, ss, es, i, n)
  {
    if i > 0 {
      BusySinceIsLastMove(cfg, ss, es, i - 1, n);
      RunInv(cfg, ss, es, i - 1);
      BusySinceStep(cfg, ss[i - 1], es[i - 1], n);
    }
  }

  /** A start's deadline is its readiness timeout after the process was started. */
  predicate DeadlineSet(bk: Backend, t: Timeouts) {
    bk.holder.Starting? ==> bk.holder.deadline == bk.busySince + t.readiness
  }

  lemma DeadlineStep(cfg: Setup, s: System, e: Event, n: string)
    requires Inv(cfg, s) && Enabled(cfg, s, e) && n in s.backends && DeadlineSet(s.backends[n], cfg.timeouts[n])
    ensures n in Step(cfg, s, e).backends && DeadlineSet(Step(cfg, s, e).backends[n], cfg.timeouts[n])
  {
  }

  lemma {:induction false} RunDeadline(cfg: Setup, ss: seq<System>, es: seq<Event>, i: nat, n: string)
    requires IsRun(cfg, ss, es) && i < |ss| && n in cfg.timeouts
    ensures n in ss[i].backends && DeadlineSet(ss[i].backends[n], cfg.timeouts[n])
  {
    if i > 0 {
      RunDeadline(cfg, ss, es, i - 1, n);
      RunInv(cfg, ss, es, i - 1);
      DeadlineStep(cfg, ss[i - 1], es[i - 1], n);
    }
  }

  /** A start may be given up exactly when its process exited, or its whole readiness timeout has passed. */
  lemma StartGivenUpIff(cfg: Setup, ss: seq<System>, es: seq<Event>, i: nat, n: string)
    requires IsRun(cfg, ss, es) && i < |ss| && n in cfg.timeouts
    ensures n in ss[i].backends
    ensures EnabledAt(ss[i].backends[n], GiveUp, ss[i].clock) <==>
      && ss[i].backends[n].holder.Starting?
      && (!Running(ss[i].backends[n]) || ss[i].clock > LastMove(cfg, ss, es, i, n) + cfg.timeouts[n].readiness)
  {
    RunDeadline(cfg, ss, es, i, n);
    BusySinceIsLastMove(cfg, ss, es, i, n);
  }

  /**
    * A stop always has exactly one way on: the process is gone, or SIGTERM did not help and
    * SIGKILL follows, or not even that helped. Outside a stop none of these happens.
    */
  lemma StopHasOneWayOn(bk: Backend, now: int)
    ensures var gone, term, kill :=
        EnabledAt(bk, ProcessGone, now), EnabledAt(bk, TermTimeout, now), EnabledAt(bk, KillTimeout, now);
      && (bk.holder.Stopping? <==> gone || term || kill)
      && !(gone && term) && !(gone && kill) && !(term && kill)
      && (gone ==> !Running(bk))
      && (term ==>
            !bk.holder.killed
            && StepAt(bk, TermTimeout, now, Timeouts(0, 0)).holder == Stopping(bk.holder.stopper, true))
  {
  }

  /** Nobody overtakes: while the lock is held or someone waits for it, newcomers queue and change nothing else. */
  lemma NoOvertaking(bk: Backend, e: BackendEvent, now: int, t: Timeouts)
    requires e.Arrive? || e.ShutdownStop?
    requires bk.holder != Free || bk.queue != []
    ensures StepAt(bk, e, now, t)
         == bk.(queue := bk.queue + [if e.Arrive? then Request else StopRequest(Shutdown)])
  {
  }

  /** The lock goes to the first waiter, and the others keep their places. */
  lemma FirstWaiterIsServed(bk: Backend, spawnOk: bool, now: int, t: Timeouts)
    requires EnabledAt(bk, Wake(spawnOk), now)
    ensures var after := StepAt(bk, Wake(spawnOk), now, t);
      && bk.queue == [bk.queue[0]] + after.queue
      && after == Enter(bk.(queue := after.queue), bk.queue[0], now, spawnOk, t)
  {
  }

  /** A cancelled task and a process that outlives its kill free the lock and leave the record as it is. */
  lemma UncleanFreesLock(bk: Backend, e: BackendEvent, now: int, t: Timeouts)
    requires EnabledAt(bk, e, now) && Unclean(e)
    ensures var after := StepAt(bk, e, now, t);
      && after.rec == bk.rec && after.alive == bk.alive && after.outstanding == bk.outstanding
      && (e.CancelWaiter? ==>
            && after.holder == bk.holder && |after.queue| == |bk.queue| - 1
            && (forall j :: 0 <= j < e.index ==> after.queue[j] == bk.queue[j])
            && (forall j :: e.index <= j < |after.queue| ==> after.queue[j] == bk.queue[j + 1]))
      && (!e.CancelWaiter? ==> after.holder == Free && after.queue == bk.queue)
  {
  }

  /** The reaper does not survive its own stop being cut short. */
  lemma ReaperDiesWithItsStop(cfg: Setup, s: System, n: string, be: BackendEvent)
    requires Enabled(cfg, s, At(n, be)) && Unclean(be)
    requires ReaperAt(s.backends[n]) && !ReaperAt(StepAt(s.backends[n], be, s.clock, cfg.timeouts[n]))
    ensures Step(cfg, s, At(n, be)).reaper == Gone
  {
  }

  /** How many requests began on the backend before state `i`, and how many ended. */
  function Begins(ss: seq<System>, es: seq<Event>, i: nat, n: string): nat
    requires i < |ss| == |es| + 1
  {
    if i == 0 then 0
    else
      var s, e := ss[i - 1], es[i - 1];
      Begins(ss, es, i - 1, n)
      + (if e.At? && e.name == n && n in s.backends && BeginsRequest(s.backends[n], e.event) then 1 else 0)
  }

  function Ends(ss: seq<System>, es: seq<Event>, i: nat, n: string): nat
    requires i < |ss| == |es| + 1
  {
    if i == 0 then 0 else Ends(ss, es, i - 1, n) + (if es[i - 1] == At(n, EndRequest) then 1 else 0)
  }

  lemma CountsStep(cfg: Setup, s: System, e: Event, n: string)
    requires Inv(cfg, s) && Enabled(cfg, s, e) && n in s.backends
    ensures var s' := Step(cfg, s, e);
      && n in s'.backends
      && s'.backends[n].outstanding
         == s.backends[n].outstanding
            + (if e.At? && e.name == n && BeginsRequest(s.backends[n], e.event) then 1 else 0)
            - (if e == At(n, EndRequest) then 1 else 0)
  {
  }

  /** The outstanding requests are those that began and did not end, counted by the events alone. */
  lemma {:induction false} OutstandingCountsEvents(cfg: Setup, ss: seq<System>, es: seq<Event>, i: nat, n: string)
    requires IsRun(cfg, ss, es) && i < |ss| && n in cfg.timeouts
    ensures n in ss[i].backends
    ensures ss[i].backends[n].outstanding == Begins(ss, es, i, n) - Ends(ss, es, i, n)
  {
    if i > 0 {
      OutstandingCountsEvents(cfg, ss, es, i - 1, n);
      RunInv(cfg, ss, es, i - 1);
      CountsStep(cfg, ss[i - 1], es[i - 1], n);
    }
  }

  // ---------------------------------------------------------------- readiness, on clean runs

  /** With the lock free, a recorded process is one that passed readiness. */
  ghost predicate ReadyWhenFree(bk: Backend) {
    && (bk.holder == Free && bk.rec.process.Some? ==> bk.rec.process.value in bk.ready)
    && (bk.holder.Starting? ==> bk.rec.process.Some?)
  }

  /** Unless the reaper or shutdown is stopping it, a busy backend's process was used since the lock last moved. */
  predicate RecentlyUsed(bk: Backend) {
    (Busy(bk) && Running(bk) && (bk.holder.Stopping? ==> bk.holder.stopper == FailedStart)) ==>
      bk.rec.lastUsed >= bk.busySince
  }

  predicate ShutdownAt(bk: Backend) {
    StopRequest(Shutdown) in bk.queue || (bk.holder.Stopping? && bk.holder.stopper == Shutdown)
  }

  /** A failed start stops its process under the lock it already holds. */
  predicate NoQueuedFailedStart(bk: Backend) {
    StopRequest(FailedStart) !in bk.queue
  }

  ghost predicate CleanInv(s: System) {
    forall n :: n in s.backends ==>
      && ReadyWhenFree(s.backends[n])
      && RecentlyUsed(s.backends[n])
      && NoQueuedFailedStart(s.backends[n])
      && (ShutdownAt(s.backends[n]) ==> s.reaper == Gone)
  }

  lemma CleanStepAt(bk: Backend, e: BackendEvent, now: int, t: Timeouts)
    requires EnabledAt(bk, e, now) && !Unclean(e) && BackendInv(bk, now)
    requires ReadyWhenFree(bk) && RecentlyUsed(bk) && NoQueuedFailedStart(bk)
    ensures ReadyWhenFree(StepAt(bk, e, now, t)) && RecentlyUsed(StepAt(bk, e, now, t))
    ensures NoQueuedFailedStart(StepAt(bk, e, now, t))
    ensures ShutdownAt(StepAt(bk, e, now, t)) ==> ShutdownAt(bk) || e.ShutdownStop?
  {
    if e.Wake? {
      assert bk.queue == [bk.queue[0]] + bk.queue[1..];
    }
  }

  lemma StepKeepsClean(cfg: Setup, s: System, e: Event)
    requires Inv(cfg, s) && CleanInv(s) && Enabled(cfg, s, e)
    requires e.At? ==> !Unclean(e.event)
    ensures CleanInv(Step(cfg, s, e))
  {
    if e.At? {
      CleanStepAt(s.backends[e.name], e.event, s.clock, cfg.timeouts[e.name]);
    }
  }

  lemma StepKeepsBoth(cfg: Setup, s: System, e: Event)
    requires Inv(cfg, s) && CleanInv(s) && Enabled(cfg, s, e)
    requires e.At? ==> !Unclean(e.event)
    ensures Inv(cfg, Step(cfg, s, e)) && CleanInv(Step(cfg, s, e))
  {
    StepKeepsInv(cfg, s, e);
    StepKeepsClean(cfg, s, e);
  }

  lemma {:induction false} RunClean(cfg: Setup, ss: seq<System>, es: seq<Event>, i: nat)
    requires IsRun(cfg, ss, es) && CleanRun(es) && i < |ss|
    ensures Inv(cfg, ss[i]) && CleanInv(ss[i])
  {
    if i > 0 {
      RunClean(cfg, ss, es, i - 1);
      StepKeepsBoth(cfg, ss[i - 1], es[i - 1]);
    }
  }

  /**
    * Barring cancellation and unkillable processes, whenever a backend's lock is free the
    * process on record, if any, is one that passed readiness.
    */
  lemma FreeLockMeansReady(cfg: Setup, ss: seq<System>, es: seq<Event>, i: nat, n: string)
    requires IsRun(cfg, ss, es) && CleanRun(es) && i < |ss| && n in ss[i].backends
    requires ss[i].backends[n].holder == Free && ss[i].backends[n].rec.process.Some?
    ensures ss[i].backends[n].rec.process.value in ss[i].backends[n].ready
  {
    RunClean(cfg, ss, es, i);
  }

  /** Why runs have to be clean for that: a cancelled start leaves its process on record, not ready, the lock free. */
  lemma CancelledStartStaysUnready(cfg: Setup, s: System, n: string) returns (ss: seq<System>, es: seq<Event>)
    requires IsInit(cfg, s) && n in s.backends
    ensures IsRun(cfg, ss, es) && !CleanRun(es) && es != []
    ensures var last := ss[|es|];
      && n in last.backends && last.backends[n].holder == Free && last.backends[n].rec.process.Some?
      && last.backends[n].rec.process.value in last.backends[n].alive
      && last.backends[n].rec.process.value !in last.backends[n].ready
  {
    var starting := Step(cfg, s, At(n, Arrive(true)));
    es := [At(n, Arrive(true)), At(n, CancelHolder)];
    ss := [s, starting, Step(cfg, starting, At(n, CancelHolder))];
    assert Unclean(es[1].event);
  }

  /** The `ready` set is what its name says: a process enters it only when its probe answers. */
  lemma ReadyOnlyByProbe(bk: Backend, e: BackendEvent, now: int, t: Timeouts, p: Pid)
    requires EnabledAt(bk, e, now) && p in StepAt(bk, e, now, t).ready && p !in bk.ready
    ensures e == ProbeReady && bk.holder.Starting? && bk.rec.process == Some(p)
  {
  }

  /** On clean runs a request begins only on a recorded process that passed readiness. */
  lemma RequestBeginsOnReadyProcess(cfg: Setup, ss: seq<System>, es: seq<Event>, i: nat, n: string)
    requires IsRun(cfg, ss, es) && CleanRun(es) && i < |es| && n in ss[i].backends
    requires es[i].At? && es[i].name == n && BeginsRequest(ss[i].backends[n], es[i].event)
    ensures n in ss[i + 1].backends
    ensures var after := ss[i + 1].backends[n];
      after.rec.process.Some? && after.rec.process.value in after.ready && !after.holder.Starting?
  {
    RunClean(cfg, ss, es, i);
  }

  /** A stop completes only with no process of the backend alive, and leaves none on record. */
  lemma StopLeavesNothing(cfg: Setup, ss: seq<System>, es: seq<Event>, i: nat, n: string)
    requires IsRun(cfg, ss, es) && i < |es| && FinishesAt(ss[i], es[i], n)
    ensures n in ss[i + 1].backends
    ensures var after := ss[i + 1].backends[n];
      after.alive == {} && after.rec.process.None? && !after.rec.logOpen && after.holder == Free
  {
    RunInv(cfg, ss, es, i);
  }

  // ---------------------------------------------------------------- the reaper and the lock

  /** The backend's lock was not held, or promised to a waiter, for longer than `hold`. */
  predicate Timely(s: System, n: string, hold: int) {
    n in s.backends && Busy(s.backends[n]) ==> s.clock - s.backends[n].busySince <= hold
  }

  predicate TimelyRun(ss: seq<System>, n: string, hold: int) {
    forall i :: 0 <= i < |ss| ==> Timely(ss[i], n, hold)
  }

  /** The reaper waits for the backend's lock. */
  predicate ReaperQueued(bk: Backend) {
    StopRequest(Reaper) in bk.queue
  }

  /** The step sends the backend's process SIGTERM or SIGKILL on the reaper's behalf. */
  predicate ReaperSignals(cfg: Setup, s: System, e: Event, n: string)
    requires Enabled(cfg, s, e)
  {
    n in s.backends && n in Step(cfg, s, e).backends &&
    var after := Step(cfg, s, e).backends[n].holder;
    after.Stopping? && after.stopper == Reaper && s.backends[n].holder != after
  }

  /** The reaper never waits at the backend, and stops it only with no active request. */
  predicate ReaperGentle(bk: Backend) {
    && !ReaperQueued(bk)
    && (bk.holder.Stopping? && bk.holder.stopper == Reaper ==> bk.rec.activeRequests == 0)
  }

  lemma ReaperGentleKept(bk: Backend, e: BackendEvent, now: int, t: Timeouts)
    requires EnabledAt(bk, e, now) && ReaperGentle(bk)
    ensures ReaperGentle(StepAt(bk, e, now, t))
  {
    match e
    case Wake(_) => assert bk.queue == [bk.queue[0]] + bk.queue[1..];
    case CancelWaiter(i) =>
      if StopRequest(Reaper) in StepAt(bk, e, now, t).queue {
        WaiterLeaves(bk.queue, i, StopRequest(Reaper));
      }
    case _ =>
  }

  /** The heart: an idle backend is not busy, whatever moment the pass read the clock at. */
  lemma IdleMeansFree(cfg: Setup, s: System, n: string, hold: int)
    requires Inv(cfg, s) && CleanInv(s) && Timely(s, n, hold)
    requires s.reaper.Scanning? && n in s.backends
    requires hold < cfg.timeouts[n].idle
    requires IsIdle(s.backends[n], s.reaper.passNow, cfg.timeouts[n])
    ensures !Busy(s.backends[n])
  {
    assert !ReaperAt(s.backends[n]) && !ShutdownAt(s.backends[n]);
  }

  lemma GentleStep(cfg: Setup, s: System, e: Event, n: string, hold: int)
    requires Inv(cfg, s) && CleanInv(s) && Timely(s, n, hold) && Enabled(cfg, s, e)
    requires n in s.backends && hold < cfg.timeouts[n].idle && ReaperGentle(s.backends[n])
    ensures n in Step(cfg, s, e).backends && ReaperGentle(Step(cfg, s, e).backends[n])
    ensures ReaperSignals(cfg, s, e, n) ==> s.backends[n].rec.activeRequests == 0
  {
    match e
    case At(m, be) =>
      if m == n {
        ReaperGentleKept(s.backends[n], be, s.clock, cfg.timeouts[n]);
      }
    case ReaperCheck =>
      if s.reaper.rest[0] == n && IsIdle(s.backends[n], s.reaper.passNow, cfg.timeouts[n]) {
        IdleMeansFree(cfg, s, n, hold);
      }
    case _ =>
  }

  /** Everything a clean run timely at `n` keeps. */
  ghost predicate GentleInv(cfg: Setup, s: System, n: string) {
    Inv(cfg, s) && CleanInv(s) && n in s.backends && ReaperGentle(s.backends[n])
  }

  lemma GentleInvStep(cfg: Setup, s: System, e: Event, n: string, hold: int)
    requires GentleInv(cfg, s, n) && Timely(s, n, hold) && Enabled(cfg, s, e) && (e.At? ==> !Unclean(e.event))
    requires hold < cfg.timeouts[n].idle
    ensures GentleInv(cfg, Step(cfg, s, e), n)
  {
    StepKeepsBoth(cfg, s, e);
    GentleStep(cfg, s, e, n, hold);
  }

  lemma {:induction false} RunGentle(cfg: Setup, ss: seq<System>, es: seq<Event>, i: nat, n: string, hold: int)
    requires IsRun(cfg, ss, es) && CleanRun(es) && TimelyRun(ss, n, hold) && i < |ss|
    requires n in cfg.timeouts && hold < cfg.timeouts[n].idle
    ensures GentleInv(cfg, ss[i], n)
  {
    if i > 0 {
      RunGentle(cfg, ss, es, i - 1, n, hold);
      GentleInvStep(cfg, ss[i - 1], es[i - 1], n, hold);
    }
  }

  /**
    * When a backend's idle timeout exceeds the longest time its lock is held, then in every
    * clean run the reaper never waits for that lock, and signals the process only in a step
    * that starts with no active request. Then no request is outstanding either, except exactly
    * when a stop lost the count of some.
    */
  lemma ReaperStopsOnlyIdle(cfg: Setup, ss: seq<System>, es: seq<Event>, i: nat, n: string, hold: int)
    requires IsRun(cfg, ss, es) && CleanRun(es) && TimelyRun(ss, n, hold)
    requires n in cfg.timeouts && hold < cfg.timeouts[n].idle
    requires i < |es|
    ensures n in ss[i].backends && !ReaperQueued(ss[i].backends[n])
    ensures ReaperSignals(cfg, ss[i], es[i], n) ==>
      && ss[i].backends[n].rec.activeRequests == 0
      && (ss[i].backends[n].outstanding == 0 <==> !Lost(ss, es, i, n))
  {
    ShortIffLost(cfg, ss, es, i, n);
    RunGentle(cfg, ss, es, i, n, hold);
    GentleStep(cfg, ss[i], es[i], n, hold);
  }

  // ---------------------------------------------------------------- the condition is exact

  ghost predicate WellConfigured(cfg: Setup) {
    && (forall n :: n in cfg.order <==> n in cfg.timeouts)
    && NoDuplicates(cfg.order)
    && (forall n :: n in cfg.timeouts ==> cfg.timeouts[n].idle > 0)
  }

  /** A clean run, timely at `n`, with at least one state. */
  ghost predicate GoodRun(cfg: Setup, ss: seq<System>, es: seq<Event>, n: string, hold: int) {
    IsRun(cfg, ss, es) && CleanRun(es) && TimelyRun(ss, n, hold)
  }

  /** The reaper asleep, backend `n` in the given state, every other one never used. */
  function Standing(cfg: Setup, n: string, clock: int, bk: Backend): System {
    System(clock, Asleep, (map m | m in cfg.timeouts :: Unused(0))[n := bk])
  }

  /** The event can happen now, cleanly and in time. */
  predicate Goes(cfg: Setup, s: System, e: Event, n: string, hold: int) {
    Enabled(cfg, s, e) && (e.At? ==> !Unclean(e.event)) && Timely(Step(cfg, s, e), n, hold)
  }

  /** The state after the events, from a manager just created, if all of them go. */
  function After(cfg: Setup, n: string, hold: int, es: seq<Event>): Option<System> {
    if es == [] then Some(Standing(cfg, n, 0, Unused(0)))
    else
      match After(cfg, n, hold, es[..|es| - 1])
      case None => None
      case Some(s) =>
        if Goes(cfg, s, es[|es| - 1], n, hold) then Some(Step(cfg, s, es[|es| - 1])) else None
  }

  lemma Extend(cfg: Setup, n: string, hold: int, es: seq<Event>, e: Event)
    requires After(cfg, n, hold, es).Some? && Goes(cfg, After(cfg, n, hold, es).value, e, n, hold)
    ensures After(cfg, n, hold, es + [e]) == Some(Step(cfg, After(cfg, n, hold, es).value, e))
  {
    assert (es + [e])[..|es|] == es;
  }

  /** Events that go make a run. */
  lemma {:induction false} Realize(cfg: Setup, n: string, hold: int, es: seq<Event>) returns (ss: seq<System>)
    requires WellConfigured(cfg) && n in cfg.timeouts && After(cfg, n, hold, es).Some?
    ensures GoodRun(cfg, ss, es, n, hold) && Some(ss[|es|]) == After(cfg, n, hold, es)
    ensures es != [] ==> Some(ss[|es| - 1]) == After(cfg, n, hold, es[..|es| - 1])
  {
    if es == [] {
      ss := [Standing(cfg, n, 0, Unused(0))];
    } else {
      var k := |es| - 1;
      var before := Realize(cfg, n, hold, es[..k]);
      ss := before + [After(cfg, n, hold, es).value];
      assert es == es[..k] + [es[k]];
      assert GoodRun(cfg, before, es[..k], n, hold);
    }
  }

  /** One event at `n`. */
  lemma Locally(
    cfg: Setup, n: string, hold: int, es: seq<Event>, clock: int, bk: Backend, e: BackendEvent)
    returns (es': seq<Event>)
    requires n in cfg.timeouts && After(cfg, n, hold, es) == Some(Standing(cfg, n, clock, bk))
    requires EnabledAt(bk, e, clock) && !Unclean(e) && !e.ShutdownStop?
    requires var after := StepAt(bk, e, clock, cfg.timeouts[n]); Busy(after) ==> clock - after.busySince <= hold
    ensures After(cfg, n, hold, es') == Some(Standing(cfg, n, clock, StepAt(bk, e, clock, cfg.timeouts[n])))
  {
    Extend(cfg, n, hold, es, At(n, e));
    es' := es + [At(n, e)];
    assert After(cfg, n, hold, es').value.backends
        == Standing(cfg, n, clock, StepAt(bk, e, clock, cfg.timeouts[n])).backends;
  }

  lemma Later(cfg: Setup, n: string, hold: int, es: seq<Event>, clock: int, bk: Backend, d: nat)
    returns (es': seq<Event>)
    requires n in cfg.timeouts && After(cfg, n, hold, es) == Some(Standing(cfg, n, clock, bk))
    requires Busy(bk) ==> clock + d - bk.busySince <= hold
    ensures After(cfg, n, hold, es') == Some(Standing(cfg, n, clock + d, bk))
  {
    Extend(cfg, n, hold, es, Tick(d));
    es' := es + [Tick(d)];
  }

  /** A pass walks past the unused backends before `n`. */
  lemma {:induction false} ScanTo(
    cfg: Setup, n: string, hold: int, es: seq<Event>, clock: int, bk: Backend, k: nat)
    returns (es': seq<Event>)
    requires WellConfigured(cfg) && n in cfg.timeouts
    requires After(cfg, n, hold, es) == Some(Standing(cfg, n, clock, bk)) && Timely(Standing(cfg, n, clock, bk), n, hold)
    requires k < |cfg.order| && n !in cfg.order[..k]
    ensures After(cfg, n, hold, es')
         == Some(Standing(cfg, n, clock, bk).(reaper := Scanning(clock, cfg.order[k..])))
  {
    if k == 0 {
      Extend(cfg, n, hold, es, ReaperPass);
      es' := es + [ReaperPass];
      assert cfg.order[0..] == cfg.order;
    } else {
      var m := cfg.order[k - 1];
      assert m in cfg.order[..k] && m in cfg.order;
      var es1 := ScanTo(cfg, n, hold, es, clock, bk, k - 1);
      var s := After(cfg, n, hold, es1).value;
      assert s.reaper.rest[0] == m && s.reaper.rest[1..] == cfg.order[k..];
      assert s.backends[m] == Unused(0);
      Extend(cfg, n, hold, es1, ReaperCheck);
      es' := es1 + [ReaperCheck];
    }
  }

  /** From an idle, running backend after a full idle timeout, a pass reaches it and judges it idle. */
  lemma PassReaches(cfg: Setup, n: string, hold: nat, es: seq<Event>, clock: int, bk: Backend)
    returns (es': seq<Event>, rest: seq<string>)
    ensures n !in rest && forall m :: m in rest ==> m in cfg.timeouts
    requires WellConfigured(cfg) && n in cfg.timeouts
    requires After(cfg, n, hold, es) == Some(Standing(cfg, n, clock, bk)) && Timely(Standing(cfg, n, clock, bk), n, hold)
    requires IsIdle(bk, clock, cfg.timeouts[n])
    ensures |es'| > 0 && es'[|es'| - 1] == ReaperCheck
    ensures After(cfg, n, hold, es'[..|es'| - 1])
         == Some(Standing(cfg, n, clock, bk).(reaper := Scanning(clock, [n] + rest)))
    ensures After(cfg, n, hold, es')
         == Some(System(clock, Waiting(clock, n, rest), Standing(cfg, n, clock,
              Acquire(bk, StopRequest(Reaper), clock, false, cfg.timeouts[n])).backends))
  {
    var k := FirstAt(cfg.order, n);
    var es1 := ScanTo(cfg, n, hold, es, clock, bk, k);
    var s := After(cfg, n, hold, es1).value;
    rest := cfg.order[k + 1..];
    assert cfg.order[k..] == [n] + rest;
    assert s.reaper.rest[1..] == rest;
    Extend(cfg, n, hold, es1, ReaperCheck);
    es' := es1 + [ReaperCheck];
    assert es'[..|es1|] == es1;
    assert After(cfg, n, hold, es').value.backends
        == Standing(cfg, n, clock, Acquire(bk, StopRequest(Reaper), clock, false, cfg.timeouts[n])).backends;
  }

  lemma {:induction false} FirstAt(order: seq<string>, n: string) returns (k: nat)
    requires n in order
    ensures k < |order| && order[k] == n && n !in order[..k]
  {
    if order[0] == n {
      k := 0;
    } else {
      k := FirstAt(order[1..], n);
      k := k + 1;
      assert order[..k] == [order[0]] + order[1..][..k - 1];
    }
  }

  /** A backend started at time zero that is waiting for readiness. */
  function StartedAt(t: Timeouts): Backend {
    Backend(Record(Some(0), true, 0, 0), {0}, 1, {}, Starting(t.readiness), [], 0, 0)
  }

  /**
    * When the idle timeout is within the longest lock hold, some clean run makes the reaper
    * wait for a starting backend and then stop it under the request that started it.
    */
  lemma ShortIdleTimeoutInterruptsRequest(cfg: Setup, n: string, hold: int)
    returns (ss: seq<System>, es: seq<Event>)
    requires WellConfigured(cfg) && n in cfg.timeouts && cfg.timeouts[n].idle <= hold
    ensures GoodRun(cfg, ss, es, n, hold) && |es| > 0
    ensures var i := |es| - 1;
      ReaperSignals(cfg, ss[i], es[i], n) && ss[i].backends[n].rec.activeRequests == 1
  {
    var idle := cfg.timeouts[n].idle;
    var bk := StartedAt(cfg.timeouts[n]);
    es := Locally(cfg, n, hold, [], 0, Unused(0), Arrive(true));
    assert StepAt(Unused(0), Arrive(true), 0, cfg.timeouts[n]) == bk;
    es := Later(cfg, n, hold, es, 0, bk, idle);
    es := ReadyThenStopped(cfg, n, hold, es);
    ss := Realize(cfg, n, hold, es);
  }

  /** The reaper waits; the backend becomes ready and begins its request; the reaper gets the lock. */
  lemma ReadyThenStopped(cfg: Setup, n: string, hold: int, es: seq<Event>) returns (es': seq<Event>)
    requires WellConfigured(cfg) && n in cfg.timeouts && cfg.timeouts[n].idle <= hold
    requires After(cfg, n, hold, es) == Some(Standing(cfg, n, cfg.timeouts[n].idle, StartedAt(cfg.timeouts[n])))
    ensures After(cfg, n, hold, es').Some? && |es'| > 0
    ensures var before := After(cfg, n, hold, es'[..|es'| - 1]);
      && before.Some? && Enabled(cfg, before.value, es'[|es'| - 1])
      && ReaperSignals(cfg, before.value, es'[|es'| - 1], n)
      && before.value.backends[n].rec.activeRequests == 1
  {
    var es1, rest := PassReaches(cfg, n, hold, es, cfg.timeouts[n].idle, StartedAt(cfg.timeouts[n]));
    Extend(cfg, n, hold, es1, At(n, ProbeReady));
    es' := es1 + [At(n, ProbeReady)];
    Extend(cfg, n, hold, es', At(n, Wake(false)));
    es' := es' + [At(n, Wake(false))];
    assert es'[..|es'| - 1] == es1 + [At(n, ProbeReady)];
  }

  /** A backend that served one request and is stopped after its idle timeout, its process still alive. */
  function StoppingIdle(now: int): Backend {
    Backend(Record(Some(0), true, 0, 0), {0}, 1, {0}, Stopping(Reaper, false), [], 0, now)
  }

  /** A request starts a process, is served and ends; after a full idle timeout a pass goes to stop it. */
  lemma ServedThenIdle(cfg: Setup, n: string, hold: nat) returns (es: seq<Event>, rest: seq<string>)
    requires WellConfigured(cfg) && n in cfg.timeouts
    ensures var idle := cfg.timeouts[n].idle;
      After(cfg, n, hold, es)
      == Some(System(idle, Waiting(idle, n, rest), Standing(cfg, n, idle, StoppingIdle(idle)).backends))
    ensures n !in rest && forall m :: m in rest ==> m in cfg.timeouts
  {
    var served := Backend(Record(Some(0), true, 0, 1), {0}, 1, {0}, Free, [], 1, 0);
    var ended := Backend(Record(Some(0), true, 0, 0), {0}, 1, {0}, Free, [], 0, 0);
    es := StartAndAnswer(cfg, n, hold, [], Unused(0));
    assert {} + {0} == {0};
    es := Locally(cfg, n, hold, es, 0, served, EndRequest);
    es := Later(cfg, n, hold, es, 0, ended, cfg.timeouts[n].idle);
    es, rest := PassReaches(cfg, n, hold, es, cfg.timeouts[n].idle, ended);
  }

  /** The rest of a pass walks past backends never used, to its end. */
  lemma {:induction false} PassEnds(
    cfg: Setup, n: string, hold: nat, es: seq<Event>, clock: int, bk: Backend, rest: seq<string>)
    returns (es': seq<Event>)
    requires n in cfg.timeouts && n !in rest && (forall m :: m in rest ==> m in cfg.timeouts)
    requires After(cfg, n, hold, es) == Some(Standing(cfg, n, clock, bk).(reaper := Scanning(clock, rest)))
    requires Timely(Standing(cfg, n, clock, bk), n, hold)
    ensures After(cfg, n, hold, es') == Some(Standing(cfg, n, clock, bk)) && es <= es'
    decreases |rest|
  {
    if rest == [] {
      Extend(cfg, n, hold, es, ReaperSleep);
      es' := es + [ReaperSleep];
    } else {
      var s := After(cfg, n, hold, es).value;
      assert rest[0] in rest && s.backends[rest[0]] == Unused(0);
      Extend(cfg, n, hold, es, ReaperCheck);
      es' := PassEnds(cfg, n, hold, es + [ReaperCheck], clock, bk, rest[1..]);
    }
  }

  /**
    * The whole life of a managed process: a request starts it and is served, the reaper stops it
    * once it is idle, it goes, by itself or killed, and the backend is as if never used, with
    * the reaper asleep again.
    */
  lemma LifeCycle(cfg: Setup, n: string, hold: nat, stubborn: bool) returns (ss: seq<System>, es: seq<Event>)
    requires WellConfigured(cfg) && n in cfg.timeouts
    ensures GoodRun(cfg, ss, es, n, hold)
    ensures var s := ss[|es|];
      && s.reaper == Asleep && s.clock == cfg.timeouts[n].idle
      && n in s.backends && s.backends[n] == Unused(s.clock).(nextPid := 1, ready := {0})
    ensures Begins(ss, es, |es|, n) - Ends(ss, es, |es|, n) == 0
    ensures stubborn ==> At(n, TermTimeout) in es
  {
    var rest;
    es, rest := ServedThenIdle(cfg, n, hold);
    es := StopCompletes(cfg, n, hold, es, rest, stubborn);
    ss := Realize(cfg, n, hold, es);
    OutstandingCountsEvents(cfg, ss, es, |es|, n);
  }

  lemma StopCompletes(cfg: Setup, n: string, hold: nat, es: seq<Event>, rest: seq<string>, stubborn: bool)
    returns (es': seq<Event>)
    requires n in cfg.timeouts && n !in rest && (forall m :: m in rest ==> m in cfg.timeouts)
    requires var idle := cfg.timeouts[n].idle;
      After(cfg, n, hold, es)
      == Some(System(idle, Waiting(idle, n, rest), Standing(cfg, n, idle, StoppingIdle(idle)).backends))
    ensures var idle := cfg.timeouts[n].idle;
      After(cfg, n, hold, es') == Some(Standing(cfg, n, idle, Unused(idle).(nextPid := 1, ready := {0})))
    ensures stubborn ==> At(n, TermTimeout) in es'
  {
    var idle := cfg.timeouts[n].idle;
    var stopping := StoppingIdle(idle);
    es' := es;
    if stubborn {
      es' := WhileWaiting(cfg, n, hold, es', idle, rest, stopping, TermTimeout);
      stopping := stopping.(holder := Stopping(Reaper, true));
    }
    es' := GoneThenPassEnds(cfg, n, hold, es', rest, stopping);
  }

  lemma GoneThenPassEnds(
    cfg: Setup, n: string, hold: nat, es: seq<Event>, rest: seq<string>, stopping: Backend)
    returns (es': seq<Event>)
    requires n in cfg.timeouts && n !in rest && (forall m :: m in rest ==> m in cfg.timeouts)
    requires stopping.holder.Stopping?
    requires var idle := cfg.timeouts[n].idle;
      && stopping.(holder := Stopping(Reaper, false)) == StoppingIdle(idle)
      && After(cfg, n, hold, es)
         == Some(System(idle, Waiting(idle, n, rest), Standing(cfg, n, idle, stopping).backends))
    ensures var idle := cfg.timeouts[n].idle;
      After(cfg, n, hold, es') == Some(Standing(cfg, n, idle, Unused(idle).(nextPid := 1, ready := {0})))
    ensures es <= es'
  {
    var idle := cfg.timeouts[n].idle;
    var done := Unused(idle).(nextPid := 1, ready := {0});
    assert stopping.alive - {0} == {};
    es' := WhileWaiting(cfg, n, hold, es, idle, rest, stopping, Die(0));
    assert StepAt(stopping, Die(0), idle, cfg.timeouts[n]) == stopping.(alive := {});
    es' := WhileWaiting(cfg, n, hold, es', idle, rest, stopping.(alive := {}), ProcessGone);
    assert StepAt(stopping.(alive := {}), ProcessGone, idle, cfg.timeouts[n]) == done;
    Extend(cfg, n, hold, es', ReaperResume);
    es' := es' + [ReaperResume];
    es' := PassEnds(cfg, n, hold, es', idle, done, rest);
  }

  /** One event at `n` while the reaper waits there. */
  lemma WhileWaiting(
    cfg: Setup, n: string, hold: nat, es: seq<Event>, clock: int, rest: seq<string>, bk: Backend, e: BackendEvent)
    returns (es': seq<Event>)
    requires n in cfg.timeouts
    requires After(cfg, n, hold, es)
          == Some(System(clock, Waiting(clock, n, rest), Standing(cfg, n, clock, bk).backends))
    requires EnabledAt(bk, e, clock) && !Unclean(e) && !e.ShutdownStop?
    requires var after := StepAt(bk, e, clock, cfg.timeouts[n]); Busy(after) ==> clock - after.busySince <= hold
    ensures After(cfg, n, hold, es')
         == Some(System(clock, Waiting(clock, n, rest),
                        Standing(cfg, n, clock, StepAt(bk, e, clock, cfg.timeouts[n])).backends))
    ensures es' == es + [At(n, e)]
  {
    Extend(cfg, n, hold, es, At(n, e));
    es' := es + [At(n, e)];
    assert After(cfg, n, hold, es').value.backends
        == Standing(cfg, n, clock, StepAt(bk, e, clock, cfg.timeouts[n])).backends;
  }

  /** In every clean run timely at `n`, the reaper signals the process only with no active request. */
  ghost predicate ReaperAlwaysGentle(cfg: Setup, n: string, hold: int) {
    forall ss: seq<System>, es: seq<Event>, i: nat ::
      (GoodRun(cfg, ss, es, n, hold) && i < |es| && ReaperSignals(cfg, ss[i], es[i], n)) ==>
        ss[i].backends[n].rec.activeRequests == 0
  }

  /** The condition on the idle timeout is exact. */
  lemma ReaperGentleIffIdleExceedsHold(cfg: Setup, n: string, hold: int)
    requires WellConfigured(cfg) && n in cfg.timeouts
    ensures ReaperAlwaysGentle(cfg, n, hold) <==> hold < cfg.timeouts[n].idle
  {
    if hold < cfg.timeouts[n].idle {
      forall ss: seq<System>, es: seq<Event>, i: nat
        | GoodRun(cfg, ss, es, n, hold) && i < |es| && ReaperSignals(cfg, ss[i], es[i], n)
        ensures ss[i].backends[n].rec.activeRequests == 0
      {
        ReaperStopsOnlyIdle(cfg, ss, es, i, n, hold);
      }
    } else {
      var ss, es := ShortIdleTimeoutInterruptsRequest(cfg, n, hold);
      assert ss[|es| - 1].backends[n].rec.activeRequests == 1;
    }
  }

  /** One request outstanding on a process that died, and a failed restart behind it. */
  const AFTER_FAILED_RESTART := Backend(UNSTARTED, {}, 2, {0}, Free, [], 1, 0)

  /** A fresh process is started for a request and answers its probe. */
  lemma StartAndAnswer(cfg: Setup, n: string, hold: nat, es: seq<Event>, bk: Backend) returns (es': seq<Event>)
    requires n in cfg.timeouts && After(cfg, n, hold, es) == Some(Standing(cfg, n, 0, bk))
    requires !Busy(bk) && !Running(bk)
    ensures After(cfg, n, hold, es') == Some(Standing(cfg, n, 0, bk.(
      rec := Record(Some(bk.nextPid), true, 0, bk.rec.activeRequests + 1), alive := bk.alive + {bk.nextPid},
      nextPid := bk.nextPid + 1, ready := bk.ready + {bk.nextPid}, outstanding := bk.outstanding + 1, busySince := 0)))
  {
    es' := Locally(cfg, n, hold, es, 0, bk, Arrive(true));
    es' := Locally(cfg, n, hold, es', 0, StepAt(bk, Arrive(true), 0, cfg.timeouts[n]), ProbeReady);
  }

  /** The process dies, a further request starts another, and that one dies before it is ready. */
  lemma DieAndFailRestart(cfg: Setup, n: string, hold: nat, es: seq<Event>) returns (es': seq<Event>)
    requires n in cfg.timeouts
    requires After(cfg, n, hold, es)
          == Some(Standing(cfg, n, 0, Backend(Record(Some(0), true, 0, 1), {0}, 1, {0}, Free, [], 1, 0)))
    ensures After(cfg, n, hold, es') == Some(Standing(cfg, n, 0, AFTER_FAILED_RESTART))
  {
    var first := Backend(Record(Some(0), true, 0, 1), {0}, 1, {0}, Free, [], 1, 0);
    var restarted := Backend(
      Record(Some(1), true, 0, 1), {1}, 2, {0}, Starting(cfg.timeouts[n].readiness), [], 1, 0);
    es' := Locally(cfg, n, hold, es, 0, first, Die(0));
    assert StepAt(first, Die(0), 0, cfg.timeouts[n]) == first.(alive := {});
    es' := Locally(cfg, n, hold, es', 0, first.(alive := {}), Arrive(true));
    assert StepAt(first.(alive := {}), Arrive(true), 0, cfg.timeouts[n]) == restarted;
    es' := Locally(cfg, n, hold, es', 0, restarted, Die(1));
    assert StepAt(restarted, Die(1), 0, cfg.timeouts[n]) == restarted.(alive := {});
    es' := Locally(cfg, n, hold, es', 0, restarted.(alive := {}), GiveUp);
  }

  /**
    * Why the counter alone does not protect a request: a failed restart resets it under an
    * outstanding request, whose end then cancels out a later request's beginning, and the
    * reaper stops the process that request is using.
    */
  lemma ResetCounterLosesARequest(cfg: Setup, n: string, hold: nat)
    returns (ss: seq<System>, es: seq<Event>)
    requires WellConfigured(cfg) && n in cfg.timeouts
    ensures GoodRun(cfg, ss, es, n, hold) && |es| > 0
    ensures var i := |es| - 1;
      && ReaperSignals(cfg, ss[i], es[i], n)
      && ss[i].backends[n].rec.activeRequests == 0 && ss[i].backends[n].outstanding == 1
  {
    var rest;
    es := LosesCount(cfg, n, hold);
    es, rest := PassReaches(cfg, n, hold, es, cfg.timeouts[n].idle, LOST_COUNT);
    ss := Realize(cfg, n, hold, es);
  }

  /** A live request that the counter has lost. */
  const LOST_COUNT := Backend(Record(Some(2), true, 0, 0), {2}, 3, {0, 2}, Free, [], 1, 0)

  lemma LosesCount(cfg: Setup, n: string, hold: nat) returns (es: seq<Event>)
    requires WellConfigured(cfg) && n in cfg.timeouts
    ensures After(cfg, n, hold, es) == Some(Standing(cfg, n, cfg.timeouts[n].idle, LOST_COUNT))
  {
    var third := Backend(Record(Some(2), true, 0, 1), {2}, 3, {0, 2}, Free, [], 2, 0);
    es := StartAndAnswer(cfg, n, hold, [], Unused(0));
    assert {} + {0} == {0};
    es := DieAndFailRestart(cfg, n, hold, es);
    es := StartAndAnswer(cfg, n, hold, es, AFTER_FAILED_RESTART);
    assert {} + {2} == {2} && {0} + {2} == {0, 2};
    es := Locally(cfg, n, hold, es, 0, third, EndRequest);
    es := Later(cfg, n, hold, es, 0, LOST_COUNT, cfg.timeouts[n].idle);
  }
}
