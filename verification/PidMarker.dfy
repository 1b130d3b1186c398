/**
  * The managed runtime adapter across invocations: it remembers the process it spawned only
  * through a PID marker file. Invocations follow one another; processes may die at any time
  * and other processes may appear. Process ids are not reused, and liveness checks tell the
  * truth.
  */
module PidMarker {
  import opened Prelude
  import opened Text

  type Pid = nat
  type Command = seq<string>

  datatype Marker = Marker(pid: Pid, command: Command)

  /** What is in the marker file. */
  datatype MarkerFile =
    | NoFile
    | Unparsable
    | PlainPid(pid: int)
    | Payload(pid: int, command: Command)

  function Clean(c: Command): (r: Command)
    ensures |r| == |c| && forall i :: 0 <= i < |c| ==> r[i] == Strip(c[i])
  {
    seq(|c|, i requires 0 <= i < |c| => Strip(c[i]))
  }

  function ReadMarker(f: MarkerFile): Option<Marker> {
    match f
    case NoFile => None
    case Unparsable => None
    case PlainPid(pid) => if pid > 0 then Some(Marker(pid, [])) else None
    case Payload(pid, command) =>
      var tokens := Clean(command);
      if tokens == [] || "" in tokens then None
      else if pid > 0 then Some(Marker(pid, tokens)) else None
  }

  predicate Matches(m: Marker, command: Command) {
    command != [] && m.command == Clean(command)
  }

  /** What configuration loading accepts as a command. */
  predicate GoodCommand(c: Command) {
    forall i :: 0 <= i < |c| ==> !Blank(c[i])
  }

  /** A marker just written is read back, and matches its command, exactly when no token is blank. */
  lemma MarkerRoundTrip(pid: Pid, command: Command)
    requires pid > 0
    ensures ReadMarker(Payload(pid, command)) == Some(Marker(pid, Clean(command)))
       <==> command != [] && GoodCommand(command)
    ensures ReadMarker(Payload(pid, command)).Some? ==> Matches(ReadMarker(Payload(pid, command)).value, command)
  {
    var tokens := Clean(command);
    if command != [] && GoodCommand(command) {
      assert forall i :: 0 <= i < |tokens| ==> tokens[i] == Strip(command[i]);
      assert "" !in tokens;
    } else if command != [] {
      var i :| 0 <= i < |command| && Blank(command[i]);
      assert tokens[i] == "";
    }
  }

  // ---------------------------------------------------------------- the machine

  datatype SignalKind = Term | Kill

  datatype Signal = Signal(pid: Pid, kind: SignalKind, configured: Command)

  /** `spawned` maps each process the adapter ever spawned to its cleaned command. */
  datatype World = World(
    alive: set<Pid>,
    spawned: map<Pid, Command>,
    nextPid: Pid,
    file: MarkerFile,
    signals: seq<Signal>)

  datatype Status =
    | Unsupported | Blocked | AlreadyRunning | Started | Error | NotRunning | Stopped
    | InvalidRequest | AlreadyLoaded | Loaded | NotLoaded | Unloaded

  predicate IsOk(s: Status) {
    s in {AlreadyRunning, Started, NotRunning, Stopped, AlreadyLoaded, Loaded, NotLoaded, Unloaded}
  }

  /** How a termination attempt goes. */
  datatype Termination =
    | GoneBeforeTerm | TermRefused | DiesOnTerm | GoneBeforeKill | KillRefused | DiesOnKill | Survives

  predicate Succeeds(t: Termination) {
    t == GoneBeforeTerm || t == DiesOnTerm || t == GoneBeforeKill || t == DiesOnKill
  }

  function Terminated(w: World, pid: Pid, command: Command, t: Termination): World {
    var killed := !(t == GoneBeforeTerm || t == TermRefused || t == DiesOnTerm);
    w.(alive := if Succeeds(t) then w.alive - {pid} else w.alive,
       signals := w.signals + [Signal(pid, Term, command)] + (if killed then [Signal(pid, Kill, command)] else []))
  }

  function StopServer(w: World, command: Command, t: Termination): (World, Status) {
    match ReadMarker(w.file)
    case None => (w, NotRunning)
    case Some(m) =>
      if !Matches(m, command) then
        if m.pid !in w.alive then (w.(file := NoFile), NotRunning) else (w, Blocked)
      else if m.pid !in w.alive then (w.(file := NoFile), NotRunning)
      else
        var after := Terminated(w, m.pid, command, t);
        if Succeeds(t) then (after.(file := NoFile), Stopped) else (after, Error)
  }

  datatype SpawnOutcome = SpawnOk | CommandNotFound | SpawnError

  /**
    * What the environment does during a start: is the command on the path, does the endpoint
    * already answer, does the process spawn, which processes die while readiness is awaited,
    * does it become ready, and how a stop after a failed start goes.
    */
  datatype StartChoices = StartChoices(
    onPath: bool, healthy: bool, spawn: SpawnOutcome, deaths: set<Pid>, ready: bool, term: Termination)

  function StartConfiguredProcess(w: World, command: Command, o: StartChoices): (World, Status) {
    match o.spawn
    case CommandNotFound => (w, Unsupported)
    case SpawnError => (w, Error)
    case SpawnOk =>
      var pid := w.nextPid;
      var up := w.(alive := w.alive + {pid}, spawned := w.spawned[pid := Clean(command)], nextPid := pid + 1,
                   file := Payload(pid, command));
      var waited := up.(alive := up.alive - o.deaths);
      if o.ready then (waited, Started) else (StopServer(waited, command, o.term).0, Error)
  }

  function StartServer(w: World, command: Command, o: StartChoices): (World, Status) {
    if command == [] || !o.onPath then (w, Unsupported)
    else
      var m := ReadMarker(w.file);
      var mismatch := m.Some? && !Matches(m.value, command);
      if mismatch && m.value.pid in w.alive then (w, Blocked)
      else if !mismatch && m.Some? && m.value.pid in w.alive then (w, AlreadyRunning)
      else
        var w1 := if mismatch then w.(file := NoFile) else w;
        if o.healthy then (w1, AlreadyRunning) else StartConfiguredProcess(w1, command, o)
  }

  function LoadModel(w: World, command: Command, configured: bool, o: StartChoices): (World, Status) {
    if !configured then (w, InvalidRequest)
    else
      var (w', s) := StartServer(w, command, o);
      (w', if !IsOk(s) then s else if s == AlreadyRunning then AlreadyLoaded else Loaded)
  }

  function UnloadModel(w: World, command: Command, configured: bool, t: Termination): (World, Status) {
    if !configured then (w, InvalidRequest)
    else
      var (w', s) := StopServer(w, command, t);
      (w', if !IsOk(s) then s else if s == NotRunning then NotLoaded else Unloaded)
  }

  // ---------------------------------------------------------------- the adapter, in place

  class ManagedRuntimeAdapter {
    var alive: set<Pid>
    var spawned: map<Pid, Command>
    var nextPid: Pid
    var file: MarkerFile
    var signals: seq<Signal>

    function View(): World
      reads this
    {
      World(alive, spawned, nextPid, file, signals)
    }

    /** SIGTERM, poll until the deadline, then SIGKILL; the process dies at poll `diesAt` if by SIGTERM. */
    method TerminatePid(pid: Pid, command: Command, t: Termination, polls: nat, diesAt: nat) returns (gone: bool)
      requires pid in alive
      requires t == DiesOnTerm ==> diesAt < polls
      modifies this
      ensures View() == Terminated(old(View()), pid, command, t)
      ensures gone == (pid !in alive)
    {
      if t == GoneBeforeTerm {
        alive := alive - {pid};
      }
      signals := signals + [Signal(pid, Term, command)];
      if pid !in alive {
        return true;
      }
      if t == TermRefused {
        return false;
      }
      for poll := 0 to polls
        invariant View() == old(View()).(signals := old(signals) + [Signal(pid, Term, command)])
        invariant t == DiesOnTerm ==> poll <= diesAt
      {
        if t == DiesOnTerm && poll == diesAt {
          alive := alive - {pid};
        }
        if pid !in alive {
          return true;
        }
      }
      if t == GoneBeforeKill {
        alive := alive - {pid};
      }
      signals := signals + [Signal(pid, Kill, command)];
      if t == GoneBeforeKill {
        return true;
      }
      if t == KillRefused {
        return false;
      }
      if t == DiesOnKill {
        alive := alive - {pid};
      }
      return pid !in alive;
    }

    method Stop(command: Command, t: Termination, polls: nat, diesAt: nat) returns (status: Status)
      requires t == DiesOnTerm ==> diesAt < polls
      modifies this
      ensures (View(), status) == StopServer(old(View()), command, t)
    {
      var marker := ReadMarker(file);
      if marker.None? {
        return NotRunning;
      }
      var pid := marker.value.pid;
      if !Matches(marker.value, command) {
        if pid !in alive {
          file := NoFile;
          return NotRunning;
        }
        return Blocked;
      }
      if pid !in alive {
        file := NoFile;
        return NotRunning;
      }
      var gone := TerminatePid(pid, command, t, polls, diesAt);
      if gone {
        file := NoFile;
        return Stopped;
      }
      return Error;
    }

    method Start(command: Command, o: StartChoices, polls: nat, diesAt: nat) returns (status: Status)
      requires o.term == DiesOnTerm ==> diesAt < polls
      modifies this
      ensures (View(), status) == StartServer(old(View()), command, o)
    {
      if command == [] {
        return Unsupported;
      }
      if !o.onPath {
        return Unsupported;
      }
      var marker := ReadMarker(file);
      var mismatch := marker.Some? && !Matches(marker.value, command);
      if mismatch && marker.value.pid in alive {
        return Blocked;
      }
      if mismatch {
        file := NoFile;
      } else if marker.Some? && marker.value.pid in alive {
        return AlreadyRunning;
      }
      if o.healthy {
        return AlreadyRunning;
      }
      match o.spawn
      case CommandNotFound => return Unsupported;
      case SpawnError => return Error;
      case SpawnOk =>
        var pid := nextPid;
        alive, spawned, nextPid := alive + {pid}, spawned[pid := Clean(command)], pid + 1;
        file := Payload(pid, command);
        alive := alive - o.deaths;
        if o.ready {
          return Started;
        }
        var stopped := Stop(command, o.term, polls, diesAt);
        return Error;
    }
  }

  // ---------------------------------------------------------------- runs

  datatype Action =
    | Start(command: Command, choices: StartChoices)
    | Stop(command: Command, term: Termination)
    | Load(command: Command, configured: bool, choices: StartChoices)
    | Unload(command: Command, configured: bool, term: Termination)
    | Die(pid: Pid)
    | OtherProcess   // something else on the machine starts

  function Act(w: World, a: Action): (World, Status) {
    match a
    case Start(command, o) => StartServer(w, command, o)
    case Stop(command, t) => StopServer(w, command, t)
    case Load(command, configured, o) => LoadModel(w, command, configured, o)
    case Unload(command, configured, t) => UnloadModel(w, command, configured, t)
    case Die(pid) => (w.(alive := w.alive - {pid}), Error)
    case OtherProcess => (w.(alive := w.alive + {w.nextPid}, nextPid := w.nextPid + 1), Error)
  }

  /** Each invocation's command was accepted by configuration loading; it may differ between invocations. */
  predicate LoadedCommand(a: Action) {
    (a.Start? || a.Load?) ==> GoodCommand(a.command)
  }

  function Run(w: World, actions: seq<Action>): World {
    if actions == [] then w
    else Act(Run(w, actions[..|actions| - 1]), actions[|actions| - 1]).0
  }

  /** A machine on which the adapter has never run. */
  predicate Pristine(w: World) {
    w.spawned == map[] && w.file == NoFile && w.signals == [] && w.nextPid > 0
    && forall p :: p in w.alive ==> p < w.nextPid
  }

  /** A signal went to a process the adapter spawned with the command configured then. */
  predicate SignalJustified(w: World, s: Signal) {
    s.pid in w.spawned && w.spawned[s.pid] == Clean(s.configured)
  }

  ghost predicate Inv(w: World) {
    && w.nextPid > 0
    && (forall p :: p in w.alive ==> p < w.nextPid)
    && (forall p :: p in w.spawned ==> p < w.nextPid && w.spawned[p] != [])
    && (forall p :: p in w.alive && p in w.spawned ==>
          ReadMarker(w.file).Some? && ReadMarker(w.file).value.pid == p)
    && (ReadMarker(w.file).Some? ==>
          var m := ReadMarker(w.file).value; m.pid in w.spawned && w.spawned[m.pid] == m.command)
    && (forall s :: s in w.signals ==> SignalJustified(w, s))
  }

  lemma StopKeeps(w: World, command: Command, t: Termination)
    requires Inv(w)
    ensures Inv(StopServer(w, command, t).0)
    ensures IsOk(StopServer(w, command, t).1) ==>
      forall p :: p in StopServer(w, command, t).0.alive ==> p !in w.spawned
    ensures StopServer(w, command, t).0.spawned == w.spawned
  {
  }

  lemma StartProcessKeeps(w: World, command: Command, o: StartChoices)
    requires Inv(w) && command != [] && GoodCommand(command)
    requires forall p :: p in w.alive ==> p !in w.spawned
    ensures Inv(StartConfiguredProcess(w, command, o).0)
  {
    if o.spawn == SpawnOk {
      var pid := w.nextPid;
      var up := w.(alive := w.alive + {pid}, spawned := w.spawned[pid := Clean(command)], nextPid := pid + 1,
                   file := Payload(pid, command));
      MarkerRoundTrip(pid, command);
      assert ReadMarker(up.file) == Some(Marker(pid, Clean(command)));
      forall s | s in up.signals ensures SignalJustified(up, s) {
        assert SignalJustified(w, s);
      }
      var waited := up.(alive := up.alive - o.deaths);
      assert Inv(waited);
      StopKeeps(waited, command, o.term);
    }
  }

  lemma StartKeeps(w: World, command: Command, o: StartChoices)
    requires Inv(w) && GoodCommand(command)
    ensures Inv(StartServer(w, command, o).0)
  {
    var m := ReadMarker(w.file);
    if m.None? || m.value.pid !in w.alive {
      var w1 := if m.Some? && !Matches(m.value, command) then w.(file := NoFile) else w;
      assert Inv(w1);
      if command != [] {
        StartProcessKeeps(w1, command, o);
      }
    }
  }

  lemma ActKeeps(w: World, a: Action)
    requires Inv(w) && LoadedCommand(a)
    ensures Inv(Act(w, a).0)
  {
    match a
    case Start(command, o) => StartKeeps(w, command, o);
    case Load(command, configured, o) => StartKeeps(w, command, o);
    case Stop(command, t) => StopKeeps(w, command, t);
    case Unload(command, configured, t) => StopKeeps(w, command, t);
    case Die(pid) =>
    case OtherProcess =>
  }

  lemma {:induction false} RunInv(w: World, actions: seq<Action>)
    requires Pristine(w) && forall i :: 0 <= i < |actions| ==> LoadedCommand(actions[i])
    ensures Inv(Run(w, actions))
  {
    if actions != [] {
      RunInv(w, actions[..|actions| - 1]);
      ActKeeps(Run(w, actions[..|actions| - 1]), actions[|actions| - 1]);
    }
  }

  /** The live processes the adapter spawned. */
  function LiveSpawned(w: World): set<Pid> {
    set p | p in w.alive && p in w.spawned
  }

  /**
    * After any series of starts, stops, loads and unloads, under changing commands and with
    * processes dying at any time, at most one process the adapter spawned is alive, and the
    * marker names it; every signal ever sent went to a process the adapter had spawned with
    * the very command that was configured when it was sent.
    */
  lemma AtMostOneManagedProcess(w: World, actions: seq<Action>)
    requires Pristine(w) && forall i :: 0 <= i < |actions| ==> LoadedCommand(actions[i])
    ensures var end := Run(w, actions);
      && |LiveSpawned(end)| <= 1
      && (forall p :: p in LiveSpawned(end) ==>
            ReadMarker(end.file) == Some(Marker(p, end.spawned[p])))
      && (forall s :: s in end.signals ==> SignalJustified(end, s))
  {
    RunInv(w, actions);
    var end := Run(w, actions);
    if p :| p in LiveSpawned(end) {
      assert LiveSpawned(end) == {p};
    }
  }

  /** A stop or unload that reports success leaves no process the adapter spawned alive. */
  lemma SuccessfulStopLeavesNone(w: World, actions: seq<Action>, command: Command, t: Termination)
    requires Pristine(w) && forall i :: 0 <= i < |actions| ==> LoadedCommand(actions[i])
    ensures var (end, status) := StopServer(Run(w, actions), command, t);
      IsOk(status) ==> LiveSpawned(end) == {}
  {
    RunInv(w, actions);
    StopKeeps(Run(w, actions), command, t);
  }

  /** A start that reports `Started` spawned a new process and nothing else the adapter spawned is alive. */
  lemma StartedIsTheOnlyOne(w: World, actions: seq<Action>, command: Command, o: StartChoices)
    requires Pristine(w) && GoodCommand(command)
    requires forall i :: 0 <= i < |actions| ==> LoadedCommand(actions[i])
    requires StartServer(Run(w, actions), command, o).1 == Started
    ensures var before := Run(w, actions);
      var end := StartServer(before, command, o).0;
      && end.nextPid == before.nextPid + 1
      && before.nextPid in end.spawned && end.spawned[before.nextPid] == Clean(command)
      && LiveSpawned(end) <= {before.nextPid}
      && ReadMarker(end.file) == Some(Marker(before.nextPid, Clean(command)))
  {
    RunInv(w, actions);
    MarkerRoundTrip(Run(w, actions).nextPid, command);
  }

  // ---------------------------------------------------------------- what each answer means

  /** The terminations that take a SIGKILL. */
  predicate TakesKill(t: Termination) {
    t in {GoneBeforeKill, KillRefused, DiesOnKill, Survives}
  }

  /** Under the invariant a marker names a process that is alive exactly when some spawned one is. */
  lemma MarkerNamesTheLive(w: World)
    requires Inv(w)
    ensures LiveSpawned(w) == {} <==> (ReadMarker(w.file).None? || ReadMarker(w.file).value.pid !in w.alive)
    ensures forall p :: p in LiveSpawned(w) ==>
      ReadMarker(w.file) == Some(Marker(p, w.spawned[p])) && LiveSpawned(w) == {p}
  {
    if ReadMarker(w.file).Some? && ReadMarker(w.file).value.pid in w.alive {
      assert ReadMarker(w.file).value.pid in LiveSpawned(w);
    }
    forall p | p in LiveSpawned(w) ensures LiveSpawned(w) == {p} {}
  }

  /**
    * What a stop does, for every machine on which the adapter ran. Without a live process of its
    * own it answers `NotRunning` and clears the marker; with one started by another command it
    * answers `Blocked` and touches nothing; with one started by this command it signals exactly
    * that process, and answers `Stopped`, the marker cleared and the process gone, exactly when
    * the termination succeeds, and otherwise `Error` with process and marker as they were.
    */
  lemma StopMeaning(w0: World, actions: seq<Action>, command: Command, t: Termination)
    requires Pristine(w0) && forall i :: 0 <= i < |actions| ==> LoadedCommand(actions[i])
    ensures var w := Run(w0, actions);
      var (end, status) := StopServer(w, command, t);
      && end.spawned == w.spawned && end.nextPid == w.nextPid
      && (LiveSpawned(w) == {} ==>
            status == NotRunning && ReadMarker(end.file).None? && end.alive == w.alive && end.signals == w.signals)
      && (forall p :: p in LiveSpawned(w) && w.spawned[p] != Clean(command) ==> status == Blocked && end == w)
      && (forall p :: p in LiveSpawned(w) && w.spawned[p] == Clean(command) ==>
            && end.signals == w.signals + [Signal(p, Term, command)]
                                        + (if TakesKill(t) then [Signal(p, Kill, command)] else [])
            && (t in {GoneBeforeTerm, DiesOnTerm, GoneBeforeKill, DiesOnKill} ==>
                  status == Stopped && end.file == NoFile && end.alive == w.alive - {p} && LiveSpawned(end) == {})
            && (t in {TermRefused, KillRefused, Survives} ==>
                  status == Error && end.file == w.file && end.alive == w.alive))
  {
    RunInv(w0, actions);
    var w := Run(w0, actions);
    MarkerNamesTheLive(w);
    assert command == [] ==> Clean(command) == [];
    if p :| p in LiveSpawned(w) {
      LiveAfterStop(w, command, t, p);
    }
  }

  lemma LiveAfterStop(w: World, command: Command, t: Termination, p: Pid)
    requires LiveSpawned(w) == {p}
    ensures LiveSpawned(w.(alive := w.alive - {p})) == {}
  {
    forall q | q in w.alive - {p} ensures q !in w.spawned {
      assert q in w.alive && q in w.spawned ==> q in LiveSpawned(w);
    }
  }

  /**
    * What a start does, for every machine on which the adapter ran. It spawns exactly when the
    * command can be found, no process of the adapter is alive and the endpoint does not answer
    * yet; a live process of this command is `AlreadyRunning`, one of another `Blocked`, and
    * neither is touched. A process that does not become ready is terminated again.
    */
  lemma StartMeaning(w0: World, actions: seq<Action>, command: Command, o: StartChoices)
    requires Pristine(w0) && GoodCommand(command)
    requires forall i :: 0 <= i < |actions| ==> LoadedCommand(actions[i])
    ensures var w := Run(w0, actions);
      var (end, status) := StartServer(w, command, o);
      var pid := w.nextPid;
      var runnable := command != [] && o.onPath;
      && (!runnable ==> status == Unsupported && end == w)
      && (forall p :: runnable && p in LiveSpawned(w) && w.spawned[p] == Clean(command) ==>
            status == AlreadyRunning && end == w)
      && (forall p :: runnable && p in LiveSpawned(w) && w.spawned[p] != Clean(command) ==>
            status == Blocked && end == w)
      && (runnable && LiveSpawned(w) == {} && o.healthy ==>
            status == AlreadyRunning && end.(file := w.file) == w)
      && (runnable && LiveSpawned(w) == {} && !o.healthy && o.spawn != SpawnOk ==>
            status == (if o.spawn == CommandNotFound then Unsupported else Error) && end.(file := w.file) == w)
      && (runnable && LiveSpawned(w) == {} && (o.healthy || o.spawn != SpawnOk) ==>
            end.file == if ReadMarker(w.file).Some? && ReadMarker(w.file).value.command != Clean(command) then NoFile
                        else w.file)
      && (runnable && LiveSpawned(w) == {} && !o.healthy && o.spawn == SpawnOk ==>
            && end.spawned == w.spawned[pid := Clean(command)] && end.nextPid == pid + 1
            && status == (if o.ready then Started else Error)
            && (forall q :: q != pid ==> (q in end.alive <==> q in w.alive && q !in o.deaths))
            && (o.ready || pid in o.deaths ==> end.signals == w.signals)
            && (!o.ready && pid !in o.deaths ==>
                  end.signals == w.signals + [Signal(pid, Term, command)]
                                           + (if TakesKill(o.term) then [Signal(pid, Kill, command)] else []))
            && (pid in end.alive <==>
                  pid !in o.deaths && (o.ready || o.term in {TermRefused, KillRefused, Survives}))
            && (o.ready || pid in end.alive ==> ReadMarker(end.file) == Some(Marker(pid, Clean(command))))
            && (!o.ready && pid !in end.alive ==> end.file == NoFile))
  {
    RunInv(w0, actions);
    var w := Run(w0, actions);
    MarkerNamesTheLive(w);
    MarkerRoundTrip(w.nextPid, command);
  }

  /** A load answers as its start does, and an unload as its stop; without the configured model neither acts. */
  lemma LoadAndUnloadMeaning(w: World, command: Command, o: StartChoices, t: Termination)
    ensures LoadModel(w, command, false, o) == (w, InvalidRequest)
    ensures UnloadModel(w, command, false, t) == (w, InvalidRequest)
    ensures var (end, status) := LoadModel(w, command, true, o);
      var (started, answer) := StartServer(w, command, o);
      && end == started
      && (status == Loaded <==> answer == Started)
      && (status == AlreadyLoaded <==> answer == AlreadyRunning)
      && (status in {Unsupported, Blocked, Error} ==> answer == status)
      && status in {Loaded, AlreadyLoaded, Unsupported, Blocked, Error}
    ensures var (end, status) := UnloadModel(w, command, true, t);
      var (stopped, answer) := StopServer(w, command, t);
      && end == stopped
      && (status == Unloaded <==> answer == Stopped)
      && (status == NotLoaded <==> answer == NotRunning)
      && (status in {Blocked, Error} ==> answer == status)
      && status in {Unloaded, NotLoaded, Blocked, Error}
  {
  }

  /**
    * A marker of the older form, a bare process id, is never taken for the adapter's own: while
    * that process lives both start and stop are blocked, afterwards a stop clears the marker and
    * a start ignores it, and an id that is none counts as no marker.
    */
  lemma BarePidMarker(w: World, command: Command, o: StartChoices, t: Termination)
    requires w.file.PlainPid?
    ensures var (end, status) := StopServer(w, command, t);
      var n := w.file.pid;
      if n <= 0 then status == NotRunning && end == w
      else if n in w.alive then status == Blocked && end == w
      else status == NotRunning && end == w.(file := NoFile)
    ensures command != [] && o.onPath ==>
      var n := w.file.pid;
      if n > 0 && n in w.alive then StartServer(w, command, o) == (w, Blocked)
      else StartServer(w, command, o).1 == StartServer(w.(file := NoFile), command, o).1
  {
  }

  /**
    * Whatever is in the marker file, reachable or not: a stop signals only the live process of
    * a marker that records the configured command, and a bare process id never does.
    */
  lemma StopSignalsOnlyMatching(w: World, command: Command, t: Termination)
    ensures var end := StopServer(w, command, t).0;
      end.signals != w.signals ==>
        && w.file.Payload? && w.file.pid > 0 && w.file.pid in w.alive
        && command != [] && Clean(w.file.command) == Clean(command)
        && exists sent :: end.signals == w.signals + sent && forall s :: s in sent ==> s.pid == w.file.pid
  {
    var end := StopServer(w, command, t).0;
    if end.signals != w.signals {
      var sent := [Signal(w.file.pid, Term, command)]
                 + (if TakesKill(t) then [Signal(w.file.pid, Kill, command)] else []);
      assert end.signals == w.signals + sent;
    }
  }

  /** What the ban on blank tokens buys: without it the marker is lost and a second process starts. */
  lemma BlankTokenLosesTheProcess(o: StartChoices)
    requires o.onPath && !o.healthy && o.spawn == SpawnOk && o.deaths == {} && o.ready
    ensures var w := World({}, map[], 1, NoFile, []);
      |LiveSpawned(Run(w, [Start(["server", " "], o), Start(["server", " "], o)]))| == 2
  {
    var w := World({}, map[], 1, NoFile, []);
    var command := ["server", " "];
    var a := Start(command, o);
    assert Strip(" ") == "" by {
      assert StripLeft(" ", IsSpace) == StripLeft(" "[1..], IsSpace);
    }
    assert Clean(command)[1] == "";
    var w1 := Act(w, a).0;
    assert ReadMarker(w1.file) == None;
    var w2 := Act(w1, a).0;
    assert [a, a][..1] == [a] && [a][..0] == [];
    assert Run(w, []) == w;
    assert Run(w, [a]) == w1;
    assert Run(w, [a, a]) == w2;
    assert LiveSpawned(w2) == {1, 2};
  }
}
