/** Waking consumers blocked in `get` (app/application/broker.py): each put notifies one waiter of the
    condition, and a waiter whose timeout has run out may be the one. */
module BrokerWakeups {
  import EventBroker

  /** A consumer outside `get`, or waiting: whether its timeout has run out, and whether it was
      notified. An expired waiter can still be notified until it has the lock again. */
  datatype Consumer = Outside | Waiting(expired: bool, notified: bool)

  type Capacity = n: nat | n >= 1 witness 1

  /** One subscription: how many events are queued, its consumers, and which of them give `get` a
      timeout. */
  datatype System = System(capacity: Capacity, queued: nat, closed: bool, consumers: seq<Consumer>, timed: set<nat>)

  /** `Put` names the waiter it notifies, if there is one. `Resume` is a waiter that has the lock again. */
  datatype Move = Put(pick: nat) | Enter(c: nat) | Expire(c: nat) | Resume(c: nat) | TakeNow | Drain | Close

  predicate Blocked(x: Consumer) { x == Waiting(false, false) }

  /** Woken in time: this consumer will look at the queue again. */
  predicate Woken(x: Consumer) { x == Waiting(false, true) }

  predicate Listed(x: Consumer) { x.Waiting? && !x.notified }

  predicate SomeListed(s: System)
  {
    exists c :: 0 <= c < |s.consumers| && Listed(s.consumers[c])
  }

  function Set(s: System, c: nat, x: Consumer): System
    requires c < |s.consumers|
  {
    s.(consumers := s.consumers[c := x])
  }

  /** The loop of `get` with the lock held: take an event, leave a closed queue, or wait. */
  function Look(s: System, c: nat): System
    requires c < |s.consumers|
  {
    if s.queued > 0 then Set(s, c, Outside).(queued := s.queued - 1)
    else if s.closed then Set(s, c, Outside)
    else Set(s, c, Waiting(false, false))
  }

  function Notified(x: Consumer): Consumer
  {
    if x.Waiting? then x.(notified := true) else x
  }

  /** A move that cannot be made changes nothing. */
  function Step(s: System, m: Move): System
  {
    match m
    case Put(pick) =>
      if s.closed then s else
      var more := s.(queued := if s.queued < s.capacity then s.queued + 1 else s.queued);
      if pick < |s.consumers| && Listed(s.consumers[pick]) then Set(more, pick, Notified(s.consumers[pick]))
      else if SomeListed(s) then s else more
    case Enter(c) => if c < |s.consumers| && s.consumers[c].Outside? then Look(s, c) else s
    case Expire(c) =>
      if c in s.timed && c < |s.consumers| && Blocked(s.consumers[c]) then Set(s, c, Waiting(true, false)) else s
    case Resume(c) =>
      if c < |s.consumers| && s.consumers[c].Waiting? && s.consumers[c].expired then Set(s, c, Outside)
      else if c < |s.consumers| && Woken(s.consumers[c]) then Look(s, c)
      else s
    case TakeNow => if s.queued > 0 then s.(queued := s.queued - 1) else s
    case Drain => s.(queued := 0)
    case Close => s.(closed := true, consumers := NotifyAll(s.consumers, |s.consumers|))
  }

  function NotifyAll(cs: seq<Consumer>, n: nat): (r: seq<Consumer>)
    requires n <= |cs|
    ensures |r| == n && forall i :: 0 <= i < n ==> r[i] == Notified(cs[i])
  {
    if n == 0 then [] else NotifyAll(cs, n - 1) + [Notified(cs[n - 1])]
  }

  function Run(s: System, moves: seq<Move>): (t: System)
    ensures |t.consumers| == |s.consumers| && t.timed == s.timed
    decreases |moves|
  {
    if moves == [] then s else Step(Run(s, moves[..|moves| - 1]), moves[|moves| - 1])
  }

  /** The notification goes to a waiter that has timed out already. */
  predicate Wastes(s: System, m: Move)
  {
    && m.Put? && !s.closed && m.pick < |s.consumers|
    && s.consumers[m.pick] == Waiting(true, false)
  }

  // ------------------------------------------------- no event waits beside a blocked consumer

  function CountWoken(cs: seq<Consumer>): nat
  {
    if cs == [] then 0 else CountWoken(cs[..|cs| - 1]) + (if Woken(cs[|cs| - 1]) then 1 else 0)
  }

  lemma {:induction false} CountAfter(cs: seq<Consumer>, c: nat, x: Consumer)
    requires c < |cs|
    ensures CountWoken(cs[c := x]) == CountWoken(cs) - (if Woken(cs[c]) then 1 else 0) + (if Woken(x) then 1 else 0)
  {
    var init := cs[..|cs| - 1];
    if c < |cs| - 1 {
      CountAfter(init, c, x);
      assert cs[c := x][..|cs| - 1] == init[c := x];
    } else {
      assert cs[c := x][..|cs| - 1] == init;
    }
  }

  predicate SomeBlocked(s: System)
  {
    exists c :: 0 <= c < |s.consumers| && Blocked(s.consumers[c])
  }

  /** While a consumer is blocked, every queued event has a woken consumer coming for it. */
  predicate Served(s: System)
  {
    SomeBlocked(s) ==> CountWoken(s.consumers) >= s.queued
  }

  lemma SetServed(s: System, c: nat, x: Consumer, queued: nat)
    requires c < |s.consumers| && Served(s)
    requires queued <= s.queued + (if Woken(x) then 1 else 0) - (if Woken(s.consumers[c]) then 1 else 0) || queued == 0
    requires Blocked(x) ==> queued == 0
    ensures Served(Set(s, c, x).(queued := queued))
  {
    CountAfter(s.consumers, c, x);
    var t := Set(s, c, x).(queued := queued);
    if SomeBlocked(t) && queued > 0 {
      var d :| 0 <= d < |t.consumers| && Blocked(t.consumers[d]);
      assert d != c;
      assert Blocked(s.consumers[d]);
    }
  }

  /** The move that loses a wake-up: it wastes its notification and queues one event more than there
      are consumers woken, while another consumer is blocked. */
  predicate Loses(s: System, m: Move)
  {
    Wastes(s, m) && SomeBlocked(s) && s.queued < s.capacity && CountWoken(s.consumers) == s.queued
  }

  /** Exactly such a move leaves an event unserved. */
  lemma StepServed(s: System, m: Move)
    requires Served(s)
    ensures Served(Step(s, m)) <==> !Loses(s, m)
  {
    match m
    case Put(pick) =>
      if Wastes(s, m) {
        WasteServed(s, pick);
      } else {
        PutServed(s, pick);
      }
    case Enter(c) =>
      if c < |s.consumers| && s.consumers[c].Outside? {
        LookServed(s, c);
      }
    case Expire(c) =>
      if c in s.timed && c < |s.consumers| && Blocked(s.consumers[c]) {
        SetServed(s, c, Waiting(true, false), s.queued);
      }
    case Resume(c) =>
      if c < |s.consumers| && s.consumers[c].Waiting? && s.consumers[c].expired {
        SetServed(s, c, Outside, s.queued);
      } else if c < |s.consumers| && Woken(s.consumers[c]) {
        LookServed(s, c);
      }
    case _ =>
  }

  lemma PutServed(s: System, pick: nat)
    requires Served(s) && !Wastes(s, Put(pick))
    ensures Served(Step(s, Put(pick)))
  {
    if !s.closed && pick < |s.consumers| && Listed(s.consumers[pick]) {
      SetServed(s, pick, Waiting(false, true), if s.queued < s.capacity then s.queued + 1 else s.queued);
    }
  }

  lemma WasteServed(s: System, pick: nat)
    requires Served(s) && Wastes(s, Put(pick))
    ensures Served(Step(s, Put(pick))) <==> !Loses(s, Put(pick))
  {
    var t := Step(s, Put(pick));
    CountAfter(s.consumers, pick, Waiting(true, true));
    if SomeBlocked(s) {
      var d :| 0 <= d < |s.consumers| && Blocked(s.consumers[d]);
      assert Blocked(t.consumers[d]);
    }
    if SomeBlocked(t) {
      var d :| 0 <= d < |t.consumers| && Blocked(t.consumers[d]);
      assert Blocked(s.consumers[d]);
    }
  }

  lemma LookServed(s: System, c: nat)
    requires Served(s) && c < |s.consumers| && (s.consumers[c].Outside? || Woken(s.consumers[c]))
    ensures Served(Look(s, c))
  {
    if s.queued > 0 {
      SetServed(s, c, Outside, s.queued - 1);
    } else {
      SetServed(s, c, if s.closed then Outside else Waiting(false, false), s.queued);
    }
  }

  // ------------------------------------------------- whole runs

  ghost predicate NothingLost(s: System, moves: seq<Move>)
  {
    forall k :: 0 <= k < |moves| ==> !Loses(Run(s, moves[..k]), moves[k])
  }

  ghost predicate AlwaysServed(s: System, moves: seq<Move>)
  {
    forall k :: 0 <= k <= |moves| ==> Served(Run(s, moves[..k]))
  }

  lemma NextState(s: System, moves: seq<Move>, k: nat)
    requires k < |moves|
    ensures Run(s, moves[..k + 1]) == Step(Run(s, moves[..k]), moves[k])
  {
    assert moves[..k + 1][..k] == moves[..k];
  }

  lemma {:induction false} ServedUpTo(s: System, moves: seq<Move>, n: nat)
    requires n <= |moves| && Served(s) && NothingLost(s, moves)
    ensures Served(Run(s, moves[..n]))
  {
    if n > 0 {
      ServedUpTo(s, moves, n - 1);
      NextState(s, moves, n - 1);
      StepServed(Run(s, moves[..n - 1]), moves[n - 1]);
    } else {
      assert moves[..n] == [];
    }
  }

  /** In every state of a run the events queued while a consumer is blocked are at most as many as the
      consumers already woken, if and only if no move of it loses a wake-up. */
  lemma BlockedAreServed(s: System, moves: seq<Move>)
    requires Served(s)
    ensures AlwaysServed(s, moves) <==> NothingLost(s, moves)
  {
    if NothingLost(s, moves) {
      forall k | 0 <= k <= |moves| ensures Served(Run(s, moves[..k])) {
        ServedUpTo(s, moves, k);
      }
    }
    if AlwaysServed(s, moves) {
      forall k | 0 <= k < |moves| ensures !Loses(Run(s, moves[..k]), moves[k]) {
        NextState(s, moves, k);
        StepServed(Run(s, moves[..k]), moves[k]);
      }
    }
  }

  // ------------------------------------------------- what a caller can see to

  /** A new subscription that nobody is reading yet. */
  predicate Unused(s: System)
  {
    s.queued == 0 && !s.closed && forall c :: 0 <= c < |s.consumers| ==> s.consumers[c].Outside?
  }

  /** There is one consumer at most, or none gives a timeout. */
  predicate OneOrUntimed(s: System)
  {
    |s.consumers| <= 1 || forall c :: 0 <= c < |s.consumers| ==> c !in s.timed
  }

  /** Only consumers that give a timeout are ever expired. */
  predicate ExpiredAreTimed(s: System)
  {
    forall c :: 0 <= c < |s.consumers| && s.consumers[c].Waiting? && s.consumers[c].expired ==> c in s.timed
  }

  lemma {:induction false} TimedRun(s: System, moves: seq<Move>)
    requires ExpiredAreTimed(s)
    ensures ExpiredAreTimed(Run(s, moves))
    decreases |moves|
  {
    if moves != [] {
      TimedRun(s, moves[..|moves| - 1]);
      TimedStep(Run(s, moves[..|moves| - 1]), moves[|moves| - 1]);
    }
  }

  lemma TimedStep(s: System, m: Move)
    requires ExpiredAreTimed(s)
    ensures ExpiredAreTimed(Step(s, m))
  {
  }

  lemma NeverLoses(s: System, m: Move)
    requires ExpiredAreTimed(s) && OneOrUntimed(s)
    ensures !Loses(s, m)
  {
  }

  /** Any two consumers, the first of which gives a timeout: it times out as the event comes and is
      notified all the same, and the second stays blocked beside a queued event with nobody woken. */
  lemma WakeupCanBeLost(s: System, first: nat, second: nat) returns (moves: seq<Move>)
    requires Unused(s) && first < |s.consumers| && second < |s.consumers| && first != second && first in s.timed
    ensures var t := Run(s, moves);
      t.queued == 1 && t.consumers[first].Outside? && Blocked(t.consumers[second]) && CountWoken(t.consumers) == 0
    ensures !Served(Run(s, moves))
  {
    var a: seq<Move> := [Enter(first)];
    var b := a + [Enter(second)];
    var c := b + [Expire(first)];
    var d := c + [Put(first)];
    moves := d + [Resume(first)];
    assert a[..0] == [] && b[..1] == a && c[..2] == b && d[..3] == c && moves[..4] == d;
    assert Run(s, a[..0]) == s;
    assert Run(s, b) == Set(Set(s, first, Waiting(false, false)), second, Waiting(false, false));
    assert Run(s, c) == Set(Run(s, b), first, Waiting(true, false));
    assert Run(s, d) == Set(Run(s, c).(queued := 1), first, Waiting(true, true));
    assert Run(s, moves) == Set(Run(s, d), first, Outside);
    NoneWoken(Run(s, moves).consumers);
  }

  lemma {:induction false} NoneWoken(cs: seq<Consumer>)
    requires forall c :: 0 <= c < |cs| ==> !Woken(cs[c])
    ensures CountWoken(cs) == 0
  {
    if cs != [] {
      NoneWoken(cs[..|cs| - 1]);
    }
  }

  /** Every run of a subscription is served if and only if it has one consumer at most or none of its
      consumers gives a timeout. */
  lemma ServedForAllRuns(s: System)
    requires Unused(s)
    ensures (forall moves: seq<Move> :: Served(Run(s, moves))) <==> OneOrUntimed(s)
  {
    if OneOrUntimed(s) {
      forall moves: seq<Move> ensures Served(Run(s, moves)) {
        ServedRun(s, moves);
      }
    } else {
      var first :| 0 <= first < |s.consumers| && first in s.timed;
      var moves := WakeupCanBeLost(s, first, if first == 0 then 1 else 0);
    }
  }

  lemma ServedRun(s: System, moves: seq<Move>)
    requires Served(s) && ExpiredAreTimed(s) && OneOrUntimed(s)
    ensures Served(Run(s, moves))
  {
    forall k | 0 <= k < |moves| ensures !Loses(Run(s, moves[..k]), moves[k]) {
      TimedRun(s, moves[..k]);
      NeverLoses(Run(s, moves[..k]), moves[k]);
    }
    ServedUpTo(s, moves, |moves|);
    assert moves[..|moves|] == moves;
  }

  // ------------------------------------------------- a close wakes everybody

  /** No consumer is blocked on a closed subscription. */
  predicate ClosedFree(s: System)
  {
    s.closed ==> !SomeBlocked(s)
  }

  lemma ClosedFreeStep(s: System, m: Move)
    requires ClosedFree(s)
    ensures ClosedFree(Step(s, m))
  {
    var t := Step(s, m);
    if t.closed && SomeBlocked(t) {
      var c :| 0 <= c < |t.consumers| && Blocked(t.consumers[c]);
      if s.closed {
        assert !Blocked(s.consumers[c]);
      }
    }
  }

  /** In no state of any run is a consumer blocked on a closed subscription: `get` without a timeout
      returns after a close. */
  lemma {:induction false} NobodyBlockedAfterClose(s: System, moves: seq<Move>)
    requires ClosedFree(s)
    ensures ClosedFree(Run(s, moves))
    decreases |moves|
  {
    if moves != [] {
      NobodyBlockedAfterClose(s, moves[..|moves| - 1]);
      ClosedFreeStep(Run(s, moves[..|moves| - 1]), moves[|moves| - 1]);
    }
  }

  /** Whoever is still waiting on a closed subscription leaves as soon as it has the lock again; it takes
      an event with it only if there is one and its timeout has not run out. */
  lemma LeavesAfterClose(s: System, moves: seq<Move>, c: nat)
    requires Unused(s) && Run(s, moves).closed && c < |s.consumers| && Run(s, moves).consumers[c].Waiting?
    ensures var t := Run(s, moves); var u := Run(s, moves + [Resume(c)]);
      && u.consumers == t.consumers[c := Outside] && u.closed
      && u.queued == (if t.queued > 0 && !t.consumers[c].expired then t.queued - 1 else t.queued)
  {
    NobodyBlockedAfterClose(s, moves);
    NextState(s, moves + [Resume(c)], |moves|);
    assert (moves + [Resume(c)])[..|moves| + 1] == moves + [Resume(c)];
    assert (moves + [Resume(c)])[..|moves|] == moves;
    assert !Blocked(Run(s, moves).consumers[c]);
  }

  /** A consumer stops waiting only with an event, because the queue is closed and empty, or because it gave
      a timeout that has run out. */
  lemma LeavesForAReason(s: System, moves: seq<Move>, m: Move, c: nat)
    requires Unused(s) && c < |s.consumers|
    requires Run(s, moves).consumers[c].Waiting? && Run(s, moves + [m]).consumers[c].Outside?
    ensures var t := Run(s, moves); var u := Run(s, moves + [m]);
      || u.queued == t.queued - 1
      || (t.closed && t.queued == 0 && u.queued == 0)
      || (t.consumers[c].expired && c in s.timed && u.queued == t.queued)
  {
    TimedRun(s, moves);
    assert (moves + [m])[..|moves|] == moves;
    assert Run(s, moves + [m]) == Step(Run(s, moves), m);
  }

  // ------------------------------------------------- the queue underneath

  /** The system has this queue. */
  ghost predicate HasQueue(s: System, q: EventBroker.Queue<int>)
  {
    EventBroker.Faithful(q) && q.capacity == s.capacity && |q.events| == s.queued && q.closed == s.closed
  }

  /** What a move does to the queue, for a consumer that is about to enter or to resume: it takes an event
      if there is one. */
  function QueueOps(s: System, m: Move): seq<EventBroker.Op<int>>
  {
    match m
    case Put(pick) =>
      if (pick < |s.consumers| && Listed(s.consumers[pick])) || !SomeListed(s) then [EventBroker.PutOp(0)] else []
    case Enter(c) => if c < |s.consumers| && s.consumers[c].Outside? then [EventBroker.TakeOp] else []
    case Resume(c) => if c < |s.consumers| && Woken(s.consumers[c]) then [EventBroker.TakeOp] else []
    case Expire(_) => []
    case TakeNow => [EventBroker.TakeOp]
    case Drain => [EventBroker.DrainOp]
    case Close => [EventBroker.CloseOp]
  }

  /** The moves act on the queue as the operations of the subscription do. */
  lemma MovesAreOps(s: System, m: Move, q: EventBroker.Queue<int>)
    requires HasQueue(s, q)
    ensures HasQueue(Step(s, m), EventBroker.PerformAll(q, QueueOps(s, m)))
  {
    if QueueOps(s, m) != [] {
      var op := QueueOps(s, m)[0];
      assert QueueOps(s, m) == [op];
      EventBroker.PerformFaithful(q, op);
      assert EventBroker.PerformAll(EventBroker.Perform(q, op), []) == EventBroker.Perform(q, op);
      assert EventBroker.PerformAll(q, [op]) == EventBroker.Perform(q, op);
    }
  }

  function RunOps(s: System, moves: seq<Move>): seq<EventBroker.Op<int>>
    decreases |moves|
  {
    if moves == [] then []
    else
      var init := moves[..|moves| - 1];
      RunOps(s, init) + QueueOps(Run(s, init), moves[|moves| - 1])
  }

  /** So does every run: the queue behind it is that of the subscription after those operations. */
  lemma {:induction false} RunIsOps(s: System, moves: seq<Move>, q: EventBroker.Queue<int>)
    requires HasQueue(s, q)
    ensures HasQueue(Run(s, moves), EventBroker.PerformAll(q, RunOps(s, moves)))
    decreases |moves|
  {
    if moves != [] {
      var init, m := moves[..|moves| - 1], moves[|moves| - 1];
      RunIsOps(s, init, q);
      EventBroker.PerformAllAdd(q, RunOps(s, init), QueueOps(Run(s, init), m));
      MovesAreOps(Run(s, init), m, EventBroker.PerformAll(q, RunOps(s, init)));
    }
  }
}
