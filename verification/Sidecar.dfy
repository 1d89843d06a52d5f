/** The process owner (src-tauri/src/sidecar.rs): spawning, the readiness loop, shutdown and crash
    detection around the supervisor, whatever the child process does. */
module Sidecar {
  import opened Basics
  import opened Handshake
  import opened Lifecycle

  /** What `try_wait` answers. */
  datatype Wait = Exited(code: Option<int>) | StillRunning | WaitError

  /** A spawned process. How it behaves is fixed but unknown: the line it prints, if any, what the
      health check sees on each turn, and what each `try_wait` answers. */
  class Child {
    const line: Option<string>
    const healthy: nat -> bool
    const answers: nat -> Wait
    var waits: nat
    var exitSeen: bool
    var killed: bool
    var reaped: bool

    constructor (line: Option<string>, healthy: nat -> bool, answers: nat -> Wait)
      ensures this.line == line && this.healthy == healthy && this.answers == answers && Untouched(this)
    {
      this.line, this.healthy, this.answers := line, healthy, answers;
      waits, exitSeen, killed, reaped := 0, false, false, false;
    }

    method TryWait() returns (w: Wait)
      modifies this`waits, this`exitSeen
      ensures w == answers(old(waits)) && waits == old(waits) + 1
      ensures exitSeen == (old(exitSeen) || w.Exited?)
    {
      w := answers(waits);
      waits := waits + 1;
      exitSeen := exitSeen || w.Exited?;
    }

    method Kill()
      modifies this`killed
      ensures killed
    {
      killed := true;
    }

    method KillAndReap()
      modifies this`killed, this`reaped
      ensures killed && reaped
    {
      killed := true;
      reaped := true;
    }
  }

  /** What the supervisor reads off the child's first line. */
  function Announces(c: Child): Parsed
  {
    if c.line.None? then Rejected(HandshakeFailure) else ParseHandshakeLine(c.line.value)
  }

  /** A clock read once a turn, with a sleep of 100 ms between turns. */
  ghost predicate Sleeps(clock: nat -> nat, pause: nat)
  {
    forall n: nat :: clock(n + 1) >= clock(n) + pause
  }

  lemma {:induction false} SleepsAdd(clock: nat -> nat, pause: nat, n: nat)
    requires Sleeps(clock, pause)
    ensures clock(n) >= clock(0) + pause * n
  {
    if n > 0 {
      SleepsAdd(clock, pause, n - 1);
      assert clock(n - 1 + 1) >= clock(n - 1) + pause;
    }
  }

  /** The most turns a loop takes that sleeps `pause` between looking at the clock. */
  function TurnBound(limit: nat, pause: nat): nat
    requires pause > 0
  {
    (limit + pause - 1) / pause + 1
  }

  class SidecarProcess {
    const supervisor: Supervisor
    var child: Child?
    var port: Option<nat>

    /** The child handle is held exactly while the sidecar is running. */
    ghost predicate Valid()
      reads this, supervisor, supervisor.lifecycle
    {
      supervisor.Valid() && (child != null <==> State() == Running)
    }

    function State(): State
      reads this, supervisor, supervisor.lifecycle
    {
      supervisor.lifecycle.state
    }

    constructor (supervisor: Supervisor)
      requires supervisor.Valid() && supervisor.lifecycle.state == NotStarted
      ensures Valid() && this.supervisor == supervisor && child == null && port == None
    {
      this.supervisor := supervisor;
      child, port := null, None;
    }

    method Reset() returns (r: Result)
      requires Valid()
      modifies supervisor.lifecycle
      ensures Valid()
      ensures supervisor.Steps(NotStarted, Ok, r)
    {
      r := supervisor.Reset();
    }

    /** `spawned` is the process the spawn gives, if it succeeds, and `clock` the time since the
        start on each turn. Started from any state but `NotStarted`, nothing happens. Otherwise the
        sidecar is running and holds the child, or the child was never spawned, was seen to exit,
        or was killed and reaped. */
    method Start(spawned: Child?, clock: nat -> nat) returns (r: Result, ghost turns: nat)
      requires Valid() && Sleeps(clock, 100)
      requires spawned != null ==> !spawned.exitSeen && !spawned.killed && !spawned.reaped && spawned.waits == 0
      modifies this, supervisor.lifecycle, spawned
      ensures Valid()
      ensures old(State()) != NotStarted ==>
                && r == Err(InvalidTransition(old(State()), Starting))
                && unchanged(this) && unchanged(supervisor.lifecycle) && (spawned != null ==> unchanged(spawned))
      ensures old(State()) == NotStarted ==>
                && State() in {Running, Failed, TimedOut}
                && supervisor.lifecycle.history == old(supervisor.lifecycle.history) + [Starting, State()]
                && (r.Ok? <==> State() == Running)
                && (State() == Failed <==> spawned == null)
                && (r.Err? ==> spawned == null || spawned.exitSeen || (spawned.killed && spawned.reaped))
                && (r.Ok? ==> child == spawned && !spawned.exitSeen && !spawned.killed)
                && (r.Ok? ==> Announces(spawned).Port?)
      ensures old(State()) == NotStarted && spawned == null ==> r == Err(SpawnFailure)
      ensures old(State()) == NotStarted && spawned != null && Announces(spawned).Rejected? ==>
                && r == Err(if spawned.line.None? then StartupTimeout(clock(0), supervisor.timeouts.startup)
                            else BadHandshake(Announces(spawned).error))
                && port == old(port)
      ensures old(State()) == NotStarted && spawned != null && Announces(spawned).Port? ==>
                && 1 <= turns <= TurnBound(supervisor.timeouts.startup, 100) && spawned.waits == turns
                && (forall k :: 0 <= k < turns - 1 ==>
                      !spawned.answers(k).Exited? && !spawned.healthy(k) && clock(k) < supervisor.timeouts.startup)
                && port == Some(Announces(spawned).port)
                && (spawned.exitSeen <==> spawned.answers(turns - 1).Exited?)
                && (r.Ok? <==> !spawned.answers(turns - 1).Exited? && spawned.healthy(turns - 1))
                && (r.Err? ==> spawned.exitSeen || clock(turns - 1) >= supervisor.timeouts.startup)
                && (r.Err? ==> r.error == StartupTimeout(clock(turns - 1), supervisor.timeouts.startup))
    {
      turns := 0;
      r := supervisor.RequestStart();
      if r.Err? {
        return;
      }
      if spawned == null {
        r := supervisor.SpawnFailed();
        return;
      }
      if spawned.line.None? {
        spawned.KillAndReap();
        r := supervisor.StartupTimedOut(clock(0));
        return;
      }
      var info := ParseHandshakeLine(spawned.line.value);
      if info.Rejected? {
        spawned.KillAndReap();
        r := supervisor.HandshakeFailed(info.error);
        return;
      }
      port := Some(info.port);
      r, turns := AwaitReady(spawned, clock);
    }

    /** The readiness loop of `Start`. */
    method AwaitReady(c: Child, clock: nat -> nat) returns (r: Result, ghost turns: nat)
      requires supervisor.Valid() && State() == Starting && child == null && Sleeps(clock, 100)
      requires !c.exitSeen && !c.killed && !c.reaped && c.waits == 0
      modifies this`child, supervisor.lifecycle, c
      ensures Valid() && State() in {Running, TimedOut}
      ensures supervisor.lifecycle.history == old(supervisor.lifecycle.history) + [State()]
      ensures r.Ok? <==> State() == Running
      ensures r.Err? ==> c.exitSeen || (c.killed && c.reaped)
      ensures r.Ok? ==> child == c && !c.exitSeen && !c.killed
      ensures 1 <= turns <= TurnBound(supervisor.timeouts.startup, 100) && c.waits == turns
      ensures forall k :: 0 <= k < turns - 1 ==>
                !c.answers(k).Exited? && !c.healthy(k) && clock(k) < supervisor.timeouts.startup
      ensures c.exitSeen <==> c.answers(turns - 1).Exited?
      ensures r.Ok? <==> !c.answers(turns - 1).Exited? && c.healthy(turns - 1)
      ensures r.Err? ==> c.exitSeen || clock(turns - 1) >= supervisor.timeouts.startup
      ensures r.Err? ==> r.error == StartupTimeout(clock(turns - 1), supervisor.timeouts.startup)
    {
      turns := 0;
      SleepsAdd(clock, 100, 0);
      while true
        invariant turns == c.waits && !c.exitSeen && !c.killed && !c.reaped
        invariant supervisor.Valid() && State() == Starting && child == null
        invariant supervisor.lifecycle.history == old(supervisor.lifecycle.history)
        invariant forall k :: 0 <= k < turns ==>
                    !c.answers(k).Exited? && !c.healthy(k) && clock(k) < supervisor.timeouts.startup
        invariant turns < TurnBound(supervisor.timeouts.startup, 100)
        decreases TurnBound(supervisor.timeouts.startup, 100) - turns
      {
        var turn := c.waits;
        turns := turns + 1;
        var answer := c.TryWait();
        if answer.Exited? {
          r := supervisor.StartupTimedOut(clock(turn));
          return;
        }
        if c.healthy(turn) {
          child := c;
          r := supervisor.HealthCheckSucceeded();
          return;
        }
        if clock(turn) >= supervisor.timeouts.startup {
          c.KillAndReap();
          r := supervisor.StartupTimedOut(clock(turn));
          return;
        }
        SleepsAdd(clock, 100, turn);
      }
    }

    /** `clock` is the time since the kill on each turn. A sidecar that is not running is left as it
        is. Otherwise the child is killed and let go, and the result says whether its exit was
        confirmed; the missing-handle branch is dead. */
    method Shutdown(clock: nat -> nat) returns (r: Result, ghost turns: nat)
      requires Valid() && Sleeps(clock, 50)
      modifies this`child, supervisor.lifecycle, child
      ensures Valid() && port == old(port)
      ensures old(State()) != Running ==> r == Ok && unchanged(this) && unchanged(supervisor.lifecycle)
      ensures old(State()) == Running ==>
                && old(child).killed && child == null
                && supervisor.lifecycle.history == old(supervisor.lifecycle.history) + [Stopping, State()]
                && State() == (if r.Ok? then Stopped else Failed)
                && 1 <= turns <= TurnBound(supervisor.timeouts.shutdown, 50)
                && old(child).waits == old(child.waits) + turns
                && (r.Ok? <==> old(child).answers(old(child).waits - 1).Exited?)
                && (r.Err? ==> r.error == ShutdownFailure(supervisor.timeouts.shutdown, supervisor.timeouts.shutdown))
                && (forall k :: old(child.waits) <= k < old(child).waits - 1 ==> old(child).answers(k) == StillRunning)
                && (r.Err? ==> old(child).answers(old(child).waits - 1) == WaitError
                               || clock(turns - 1) >= supervisor.timeouts.shutdown)
                && (forall k :: 0 <= k < turns - 1 ==> clock(k) < supervisor.timeouts.shutdown)
    {
      turns := 0;
      var outcome := supervisor.RequestShutdown();
      if outcome != StopRequested {
        return Ok, 0;
      }
      if child == null {
        assert false;
      }
      var c: Child := child;
      child := null;
      c.Kill();
      r, turns := AwaitExit(c, clock);
    }

    /** The wait of `Shutdown` for a child that was killed. */
    method AwaitExit(c: Child, clock: nat -> nat) returns (r: Result, ghost turns: nat)
      requires supervisor.Valid() && State() == Stopping && child == null && Sleeps(clock, 50)
      modifies supervisor.lifecycle, c`waits, c`exitSeen
      ensures supervisor.Valid() && State() == (if r.Ok? then Stopped else Failed)
      ensures supervisor.lifecycle.history == old(supervisor.lifecycle.history) + [State()]
      ensures 1 <= turns <= TurnBound(supervisor.timeouts.shutdown, 50) && c.waits == old(c.waits) + turns
      ensures r.Ok? <==> c.answers(c.waits - 1).Exited?
      ensures r.Err? ==> r.error == ShutdownFailure(supervisor.timeouts.shutdown, supervisor.timeouts.shutdown)
      ensures forall k :: old(c.waits) <= k < c.waits - 1 ==> c.answers(k) == StillRunning
      ensures r.Err? ==> c.answers(c.waits - 1) == WaitError || clock(turns - 1) >= supervisor.timeouts.shutdown
      ensures forall k :: 0 <= k < turns - 1 ==> clock(k) < supervisor.timeouts.shutdown
    {
      turns := 0;
      SleepsAdd(clock, 50, 0);
      ghost var first := c.waits;
      var turn := 0;
      while true
        invariant turn == turns && c.waits == first + turns
        invariant supervisor.Valid() && State() == Stopping && child == null
        invariant supervisor.lifecycle.history == old(supervisor.lifecycle.history)
        invariant forall k :: first <= k < c.waits ==> c.answers(k) == StillRunning
        invariant forall k :: 0 <= k < turns ==> clock(k) < supervisor.timeouts.shutdown
        invariant turns < TurnBound(supervisor.timeouts.shutdown, 50)
        decreases TurnBound(supervisor.timeouts.shutdown, 50) - turns
      {
        turns := turns + 1;
        var answer := c.TryWait();
        match answer {
          case Exited(code) =>
            r := supervisor.ProcessExited();
            return;
          case StillRunning =>
            if clock(turn) >= supervisor.timeouts.shutdown {
              r := supervisor.ShutdownTimedOut(supervisor.timeouts.shutdown);
              return;
            }
          case WaitError =>
            r := supervisor.ShutdownTimedOut(supervisor.timeouts.shutdown);
            return;
        }
        SleepsAdd(clock, 50, turn);
        turn := turn + 1;
      }
    }

    /** Looks once whether a held child has exited. The step to `Crashed` is never refused, and
        nothing is reported for an error of `try_wait`. */
    method PollForCrash() returns (r: Option<Result>)
      requires Valid()
      modifies this`child, supervisor.lifecycle, child
      ensures Valid() && port == old(port)
      ensures old(child) == null ==> r == None && unchanged(this) && unchanged(supervisor.lifecycle)
      ensures old(child) != null ==>
                var answer := old(child).answers(old(child.waits));
                if answer.Exited? then
                  && r == Some(Err(UnexpectedExit(answer.code))) && child == null && State() == Crashed
                  && old(child).exitSeen
                  && supervisor.lifecycle.history == old(supervisor.lifecycle.history) + [Crashed]
                else
                  r == None && child == old(child) && unchanged(supervisor.lifecycle)
    {
      if child == null {
        return None;
      }
      var answer := child.TryWait();
      match answer {
        case Exited(code) =>
          child := null;
          var reported := supervisor.ExitedUnexpectedly(code);
          r := Some(reported);
        case _ =>
          r := None;
      }
    }
  }

  /** A call on the sidecar and what its environment does meanwhile. */
  datatype Call = Start(spawned: Child?, clock: nat -> nat) | Shutdown(clock: nat -> nat) | Poll | Reset

  /** A spawn gives a process that nobody has touched. */
  ghost predicate Untouched(c: Child)
    reads c
  {
    !c.exitSeen && !c.killed && !c.reaped && c.waits == 0
  }

  /** Either still to be started, or let go only after its exit was seen or a kill was sent. */
  ghost predicate Settled(c: Child)
    reads c
  {
    Untouched(c) || c.exitSeen || c.killed
  }

  /** Any calls in any order, each launch with a process of its own: the handle is held exactly
      while running, the history is lawful, and no process is ever let go alive and unkilled. */
  method Drive(p: SidecarProcess, calls: seq<Call>, children: set<Child>)
    requires p.Valid() && p.child == null && forall c :: c in children ==> Settled(c)
    requires forall i :: 0 <= i < |calls| && calls[i].Start? && calls[i].spawned != null ==>
               calls[i].spawned in children && Untouched(calls[i].spawned)
    requires forall i, j :: 0 <= i < j < |calls| && calls[i].Start? && calls[j].Start? && calls[i].spawned != null ==>
               calls[i].spawned != calls[j].spawned
    requires forall i :: 0 <= i < |calls| && calls[i].Start? ==> Sleeps(calls[i].clock, 100)
    requires forall i :: 0 <= i < |calls| && calls[i].Shutdown? ==> Sleeps(calls[i].clock, 50)
    modifies p, p.supervisor.lifecycle, children
    ensures p.Valid() && IsHistory(p.supervisor.lifecycle.history)
    ensures old(p.supervisor.lifecycle.history) <= p.supervisor.lifecycle.history
    ensures forall c :: c in children && c != p.child ==> Settled(c)
  {
    for i := 0 to |calls|
      invariant p.Valid() && p.child in children + {null}
      invariant forall c :: c in children && c != p.child ==> Settled(c)
      invariant old(p.supervisor.lifecycle.history) <= p.supervisor.lifecycle.history
      invariant forall k :: i <= k < |calls| && calls[k].Start? && calls[k].spawned != null ==>
                  Untouched(calls[k].spawned) && p.child != calls[k].spawned
    {
      match calls[i] {
        case Start(spawned, clock) =>
          var r, turns := p.Start(spawned, clock);
        case Shutdown(clock) =>
          var r, turns := p.Shutdown(clock);
        case Poll =>
          var r := p.PollForCrash();
        case Reset =>
          var r := p.Reset();
      }
    }
  }
}
