/**
  * The bookkeeping of one managed runtime: what each piece of the manager does to its state
  * between two suspensions. The protocol module interleaves these pieces.
  */
module RuntimeManager {
  import opened Prelude

  type Pid = nat

  datatype Record = Record(process: Option<Pid>, logOpen: bool, lastUsed: int, activeRequests: nat)

  const UNSTARTED := Record(None, false, 0, 0)

  function Touched(r: Record, now: int): Record {
    r.(lastUsed := now)
  }

  function Begun(r: Record, now: int): Record {
    r.(activeRequests := r.activeRequests + 1, lastUsed := now)
  }

  function Ended(r: Record, now: int): Record {
    r.(activeRequests := if r.activeRequests == 0 then 0 else r.activeRequests - 1, lastUsed := now)
  }

  function Spawned(r: Record, pid: Pid, now: int): Record {
    r.(process := Some(pid), logOpen := true, lastUsed := now)
  }

  /** A finished stop clears everything, the request counter included. */
  function Stopped(r: Record): Record {
    UNSTARTED
  }

  datatype EnsureOutcome = AlreadyRunning | StartFailed | AwaitingReadiness

  class RuntimeState {
    var process: Option<Pid>
    var logOpen: bool
    var lastUsed: int
    var activeRequests: nat

    function View(): Record
      reads this
    {
      Record(process, logOpen, lastUsed, activeRequests)
    }

    constructor ()
      ensures View() == UNSTARTED
    {
      process, logOpen, lastUsed, activeRequests := None, false, 0, 0;
    }

    method Touch(now: int)
      modifies this
      ensures View() == Touched(old(View()), now)
      ensures lastUsed == now && unchanged(this`process, this`logOpen, this`activeRequests)
    {
      lastUsed := now;
    }

    method BeginRequest(now: int)
      modifies this
      ensures View() == Begun(old(View()), now)
      ensures activeRequests == old(activeRequests) + 1 && lastUsed == now && unchanged(this`process, this`logOpen)
    {
      activeRequests := activeRequests + 1;
      lastUsed := now;
    }

    method EndRequest(now: int)
      modifies this
      ensures View() == Ended(old(View()), now)
      ensures old(activeRequests) > 0 ==> activeRequests == old(activeRequests) - 1
      ensures old(activeRequests) == 0 ==> activeRequests == 0
      ensures lastUsed == now && unchanged(this`process, this`logOpen)
    {
      activeRequests := if activeRequests == 0 then 0 else activeRequests - 1;
      lastUsed := now;
    }

    /**
      * `ensure_running` from the moment the lock is held to its return or first suspension.
      * `spawned` is the new process, or nothing when the log or the command cannot be opened.
      */
    method EnterEnsure(running: bool, spawned: Option<Pid>, now: int) returns (outcome: EnsureOutcome)
      modifies this
      ensures running ==> outcome == AlreadyRunning && View() == Touched(old(View()), now)
      ensures !running && spawned.None? ==> outcome == StartFailed && View() == old(View())
      ensures !running && spawned.Some? ==>
        outcome == AwaitingReadiness && View() == Spawned(old(View()), spawned.value, now)
        && process == spawned && logOpen && lastUsed == now && unchanged(this`activeRequests)
    {
      if running {
        lastUsed := now;
        return AlreadyRunning;
      }
      if spawned.None? {
        return StartFailed;
      }
      process := spawned;
      logOpen := true;
      lastUsed := now;
      return AwaitingReadiness;
    }

    /** `_stop_locked` once the process is gone, or when there is none running. */
    method FinishStop()
      modifies this
      ensures View() == Stopped(old(View()))
      ensures process.None? && !logOpen && lastUsed == 0 && activeRequests == 0
    {
      logOpen := false;
      process := None;
      lastUsed := 0;
      activeRequests := 0;
    }
  }
}
