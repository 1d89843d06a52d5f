/** The sidecar's lifecycle (sidecar-core/src/state.rs) and the supervisor that drives it by
    reported observations (sidecar-core/src/supervisor.rs). */
module Lifecycle {
  import opened Basics
  import opened Handshake

  datatype State = NotStarted | Starting | Running | Stopping | Stopped | Failed | TimedOut | Crashed
  {
    predicate IsTerminal() { Stopped? || Failed? || TimedOut? || Crashed? }

    predicate CanBecome(to: State)
    {
      || (NotStarted? && to.Starting?)
      || (Starting? && (to.Running? || to.Failed? || to.TimedOut?))
      || (Running? && (to.Stopping? || to.Crashed?))
      || (Stopping? && (to.Stopped? || to.Failed?))
      || (IsTerminal() && to.NotStarted?)
    }
  }

  datatype Error = InvalidTransition(origin: State, target: State)
                 | SpawnFailure
                 | BadHandshake(handshake: StartupError)
                 | StartupTimeout(elapsed: nat, limit: nat)
                 | ShutdownFailure(elapsed: nat, limit: nat)
                 | UnexpectedExit(code: Option<int>)

  datatype Result = Ok | Err(error: Error)

  /** A lifecycle's states, oldest first: it starts as `NotStarted` and takes permitted steps. */
  ghost predicate IsHistory(h: seq<State>)
  {
    h != [] && h[0] == NotStarted && forall i :: 0 <= i < |h| - 1 ==> h[i].CanBecome(h[i + 1])
  }

  /** Where a state of a history comes from: each launch goes from `NotStarted` through `Starting`, ends there
      or in `Running`, and from there by a crash or through `Stopping`; only after an end is it reset. */
  lemma ComesFrom(h: seq<State>, i: nat)
    requires IsHistory(h) && i < |h|
    ensures match h[i]
      case NotStarted => i == 0 || h[i - 1] in {Stopped, Failed, TimedOut, Crashed}
      case Starting => i > 0 && h[i - 1] == NotStarted
      case Running => i > 1 && h[i - 1] == Starting && h[i - 2] == NotStarted
      case TimedOut => i > 1 && h[i - 1] == Starting
      case Stopping => i > 2 && h[i - 1] == Running && h[i - 2] == Starting
      case Crashed => i > 2 && h[i - 1] == Running && h[i - 2] == Starting
      case Stopped => i > 3 && h[i - 1] == Stopping && h[i - 2] == Running
      case Failed => i > 1 && (h[i - 1] == Starting || (i > 3 && h[i - 1] == Stopping && h[i - 2] == Running))
  {
    if i > 0 {
      assert h[i - 1].CanBecome(h[i - 1 + 1]);
    }
    if i > 1 {
      assert h[i - 2].CanBecome(h[i - 2 + 1]);
    }
    if i > 2 {
      assert h[i - 3].CanBecome(h[i - 3 + 1]);
    }
  }

  /** Each of the ways a launch can go is a history: to a failed start, a timeout, a crash, and a shutdown with
      the exit seen or not; and after each of them the next launch can begin. */
  lemma EveryWayIsOpen(h: seq<State>)
    requires IsHistory(h) && h[|h| - 1] == NotStarted
    ensures forall way: seq<State> ::
      way in {[Starting, Failed], [Starting, TimedOut], [Starting, Running, Crashed],
              [Starting, Running, Stopping, Stopped], [Starting, Running, Stopping, Failed]} ==>
        IsHistory(h + way + [NotStarted])
  {
  }

  class Lifecycle {
    var state: State
    ghost var history: seq<State>

    ghost predicate Valid()
      reads this
    {
      IsHistory(history) && history[|history| - 1] == state
    }

    constructor ()
      ensures Valid() && state == NotStarted && history == [NotStarted]
    {
      state, history := NotStarted, [NotStarted];
    }

    /** Moves to `to` if the table permits it and changes nothing otherwise. */
    method Transition(to: State) returns (r: Result)
      requires Valid()
      modifies this
      ensures Valid()
      ensures if old(state).CanBecome(to) then r == Ok && state == to && history == old(history) + [to]
              else r == Err(InvalidTransition(old(state), to)) && unchanged(this)
    {
      if state.CanBecome(to) {
        state := to;
        history := history + [to];
        r := Ok;
      } else {
        r := Err(InvalidTransition(state, to));
      }
    }
  }

  /** Both in milliseconds. */
  datatype Timeouts = Timeouts(startup: nat, shutdown: nat)

  datatype ShutdownOutcome = StopRequested | NotRunning(state: State)

  class Supervisor {
    const lifecycle: Lifecycle
    const timeouts: Timeouts

    ghost predicate Valid()
      reads this, lifecycle
    {
      lifecycle.Valid()
    }

    constructor (timeouts: Timeouts)
      ensures Valid() && fresh(lifecycle) && lifecycle.state == NotStarted && lifecycle.history == [NotStarted]
      ensures this.timeouts == timeouts
    {
      this.timeouts := timeouts;
      lifecycle := new Lifecycle();
    }

    /** Takes the step to `to` and reports `outcome`, or refuses the step. */
    twostate predicate Steps(to: State, outcome: Result, r: Result)
      reads this, lifecycle
    {
      if old(lifecycle.state).CanBecome(to) then
        r == outcome && lifecycle.state == to && lifecycle.history == old(lifecycle.history) + [to]
      else
        r == Err(InvalidTransition(old(lifecycle.state), to)) && unchanged(lifecycle)
    }

    method Report(to: State, outcome: Result) returns (r: Result)
      requires Valid()
      modifies lifecycle
      ensures Valid() && Steps(to, outcome, r)
    {
      r := lifecycle.Transition(to);
      if r.Ok? {
        r := outcome;
      }
    }

    method RequestStart() returns (r: Result)
      requires Valid()
      modifies lifecycle
      ensures Valid() && Steps(Starting, Ok, r)
    {
      r := Report(Starting, Ok);
    }

    method SpawnFailed() returns (r: Result)
      requires Valid()
      modifies lifecycle
      ensures Valid() && Steps(Failed, Err(SpawnFailure), r)
    {
      r := Report(Failed, Err(SpawnFailure));
    }

    method HandshakeFailed(e: StartupError) returns (r: Result)
      requires Valid()
      modifies lifecycle
      ensures Valid() && Steps(TimedOut, Err(BadHandshake(e)), r)
    {
      r := Report(TimedOut, Err(BadHandshake(e)));
    }

    method HealthCheckSucceeded() returns (r: Result)
      requires Valid()
      modifies lifecycle
      ensures Valid() && Steps(Running, Ok, r)
    {
      r := Report(Running, Ok);
    }

    method StartupTimedOut(elapsed: nat) returns (r: Result)
      requires Valid()
      modifies lifecycle
      ensures Valid() && Steps(TimedOut, Err(StartupTimeout(elapsed, timeouts.startup)), r)
    {
      r := Report(TimedOut, Err(StartupTimeout(elapsed, timeouts.startup)));
    }

    /** Never an error: a sidecar that is not running is left alone. */
    method RequestShutdown() returns (outcome: ShutdownOutcome)
      requires Valid()
      modifies lifecycle
      ensures Valid()
      ensures if old(lifecycle.state).Running?
              then && outcome == StopRequested && lifecycle.state == Stopping
                   && lifecycle.history == old(lifecycle.history) + [Stopping]
              else outcome == NotRunning(old(lifecycle.state)) && unchanged(lifecycle)
    {
      var current := lifecycle.state;
      if current != Running {
        return NotRunning(current);
      }
      var r := lifecycle.Transition(Stopping);
      outcome := StopRequested;
    }

    method ProcessExited() returns (r: Result)
      requires Valid()
      modifies lifecycle
      ensures Valid() && Steps(Stopped, Ok, r)
    {
      r := Report(Stopped, Ok);
    }

    method ShutdownTimedOut(elapsed: nat) returns (r: Result)
      requires Valid()
      modifies lifecycle
      ensures Valid() && Steps(Failed, Err(ShutdownFailure(elapsed, timeouts.shutdown)), r)
    {
      r := Report(Failed, Err(ShutdownFailure(elapsed, timeouts.shutdown)));
    }

    method ExitedUnexpectedly(code: Option<int>) returns (r: Result)
      requires Valid()
      modifies lifecycle
      ensures Valid() && Steps(Crashed, Err(UnexpectedExit(code)), r)
    {
      r := Report(Crashed, Err(UnexpectedExit(code)));
    }

    method Reset() returns (r: Result)
      requires Valid()
      modifies lifecycle
      ensures Valid() && Steps(NotStarted, Ok, r)
    {
      r := Report(NotStarted, Ok);
    }
  }
}
