/** The event broker (app/application/broker.py): the bounded drop-oldest queue of one
    subscriber with its full history, and the broker's own bookkeeping. */
module EventBroker {
  import opened Basics

  /** A subscriber's queue. `accepted` is every event ever put in while open, `deliveredAt` the
      accept positions of the events handed to a consumer, in the order they were handed out. */
  datatype Queue<E> = Queue(capacity: nat, events: seq<E>, closed: bool, dropped: nat,
                            accepted: seq<E>, deliveredAt: seq<nat>)

  function Fresh<E>(capacity: nat): Queue<E>
  {
    Queue(capacity, [], false, 0, [], [])
  }

  /** The queue is exactly the newest accepted events; what left it was delivered, oldest first,
      or counted as dropped. */
  ghost predicate Faithful<E(!new)>(q: Queue<E>)
  {
    && q.capacity >= 1
    && |q.events| <= q.capacity
    && |q.events| <= |q.accepted|
    && q.events == q.accepted[|q.accepted| - |q.events|..]
    && |q.accepted| == |q.deliveredAt| + |q.events| + q.dropped
    && (forall i, j :: 0 <= i < j < |q.deliveredAt| ==> q.deliveredAt[i] < q.deliveredAt[j])
    && (forall i :: 0 <= i < |q.deliveredAt| ==> q.deliveredAt[i] < |q.accepted| - |q.events|)
  }

  function Put<E>(q: Queue<E>, e: E): Queue<E>
  {
    if q.closed then q
    else
      var full := |q.events| == q.capacity;
      var kept := if full && q.events != [] then q.events[1..] else q.events;
      q.(events := kept + [e],
         dropped := if full then q.dropped + 1 else q.dropped,
         accepted := q.accepted + [e])
  }

  /** Handing out the oldest event. */
  function Take<E>(q: Queue<E>): Queue<E>
    requires q.events != [] && |q.events| <= |q.accepted|
  {
    q.(events := q.events[1..], deliveredAt := q.deliveredAt + [|q.accepted| - |q.events|])
  }

  function Positions(from: nat, n: nat): (ps: seq<nat>)
    ensures |ps| == n && forall i :: 0 <= i < n ==> ps[i] == from + i
  {
    seq(n, i requires 0 <= i < n => from + i)
  }

  function Drained<E>(q: Queue<E>): Queue<E>
    requires |q.events| <= |q.accepted|
  {
    q.(events := [], deliveredAt := q.deliveredAt + Positions(|q.accepted| - |q.events|, |q.events|))
  }

  function Closed<E>(q: Queue<E>): Queue<E>
  {
    q.(closed := true)
  }

  lemma PutFaithful<E(!new)>(q: Queue<E>, e: E)
    requires Faithful(q)
    ensures Faithful(Put(q, e))
  {
  }

  lemma TakeFaithful<E(!new)>(q: Queue<E>)
    requires Faithful(q) && q.events != []
    ensures Faithful(Take(q))
    ensures q.events[0] == q.accepted[Take(q).deliveredAt[|q.deliveredAt|]]
  {
    var t := Take(q);
    forall i, j | 0 <= i < j < |t.deliveredAt| ensures t.deliveredAt[i] < t.deliveredAt[j] {
      if j == |q.deliveredAt| {
        assert t.deliveredAt[i] == q.deliveredAt[i];
      }
    }
  }

  lemma DrainedFaithful<E(!new)>(q: Queue<E>)
    requires Faithful(q)
    ensures Faithful(Drained(q))
  {
    var t := Drained(q);
    forall i, j | 0 <= i < j < |t.deliveredAt| ensures t.deliveredAt[i] < t.deliveredAt[j] {
      if i < |q.deliveredAt| {
        assert t.deliveredAt[i] == q.deliveredAt[i];
      }
    }
  }

  // ------------------------------------------------- the subscription object

  /** An operation of another thread on the same subscription. */
  datatype Op<E> = PutOp(event: E) | TakeOp | DrainOp | CloseOp

  function Perform<E>(q: Queue<E>, op: Op<E>): Queue<E>
    requires |q.events| <= |q.accepted|
  {
    match op
    case PutOp(e) => Put(q, e)
    case TakeOp => if q.events == [] then q else Take(q)
    case DrainOp => Drained(q)
    case CloseOp => Closed(q)
  }

  lemma PerformFaithful<E(!new)>(q: Queue<E>, op: Op<E>)
    requires Faithful(q)
    ensures Faithful(Perform(q, op))
    ensures q.accepted <= Perform(q, op).accepted && q.deliveredAt <= Perform(q, op).deliveredAt
  {
    match op
    case PutOp(e) => PutFaithful(q, e);
    case TakeOp => if q.events != [] { TakeFaithful(q); }
    case DrainOp => DrainedFaithful(q);
    case CloseOp =>
  }

  ghost function PerformAll<E(!new)>(q: Queue<E>, ops: seq<Op<E>>): (t: Queue<E>)
    requires Faithful(q)
    ensures Faithful(t)
    decreases |ops|
  {
    if ops == [] then q
    else
      PerformFaithful(q, ops[0]);
      PerformAll(Perform(q, ops[0]), ops[1..])
  }

  /** Whatever threads do to a new subscription, in whatever order, in every state the queue is
      the newest accepted events, and accepted = delivered + queued + dropped. */
  lemma {:induction false} HistoryFaithful<E(!new)>(q: Queue<E>, ops: seq<Op<E>>)
    requires Faithful(q)
    ensures var t := PerformAll(q, ops);
            && Faithful(t)
            && q.accepted <= t.accepted && q.deliveredAt <= t.deliveredAt
            && |t.accepted| == |t.deliveredAt| + |t.events| + t.dropped
            && (q.closed ==> t.accepted == q.accepted && t.dropped == q.dropped)
    decreases |ops|
  {
    if ops != [] {
      PerformFaithful(q, ops[0]);
      HistoryFaithful(Perform(q, ops[0]), ops[1..]);
    }
  }

  lemma {:induction false} PerformAllAdd<E(!new)>(q: Queue<E>, a: seq<Op<E>>, b: seq<Op<E>>)
    requires Faithful(q)
    ensures Faithful(PerformAll(q, a)) && PerformAll(q, a + b) == PerformAll(PerformAll(q, a), b)
    decreases |a|
  {
    HistoryFaithful(q, a);
    if a == [] {
      assert a + b == b;
    } else {
      PerformFaithful(q, a[0]);
      PerformAllAdd(Perform(q, a[0]), a[1..], b);
      assert (a + b)[0] == a[0] && (a + b)[1..] == a[1..] + b;
    }
  }

  // ------------------------------------------------- what each operation does after any others

  function Min(a: nat, b: nat): nat { if a < b then a else b }

  /** A put on an open queue adds one event as long as there is room. On a full queue it keeps the size
      and exactly one event is dropped; a closed queue ignores it. Nothing is delivered. */
  lemma PutEffect<E(!new)>(q: Queue<E>, ops: seq<Op<E>>, e: E)
    requires Faithful(q)
    ensures var before := PerformAll(q, ops); var after := PerformAll(q, ops + [PutOp(e)]);
      if before.closed then after == before
      else
        && |after.events| == Min(|before.events| + 1, before.capacity) && after.events[|after.events| - 1] == e
        && after.dropped == before.dropped + |before.events| + 1 - |after.events|
        && after.accepted == before.accepted + [e] && after.deliveredAt == before.deliveredAt
        && !after.closed && after.capacity == before.capacity
  {
    PerformAllAdd(q, ops, [PutOp(e)]);
    assert PerformAll(PerformAll(q, ops), [PutOp(e)]) == Perform(PerformAll(q, ops), PutOp(e));
  }

  /** The other operations drop nothing and accept nothing: a take delivers one event if there is one,
      a drain all of them, a close none. */
  lemma OtherEffect<E(!new)>(q: Queue<E>, ops: seq<Op<E>>, op: Op<E>)
    requires Faithful(q) && !op.PutOp?
    ensures var before := PerformAll(q, ops); var after := PerformAll(q, ops + [op]);
      && after.dropped == before.dropped && after.accepted == before.accepted && after.capacity == before.capacity
      && (after.closed <==> before.closed || op.CloseOp?)
      && |after.deliveredAt| - |before.deliveredAt| == |before.events| - |after.events|
         == match op case TakeOp => Min(1, |before.events|) case DrainOp => |before.events| case CloseOp => 0
  {
    PerformAllAdd(q, ops, [op]);
    var before := PerformAll(q, ops);
    assert PerformAll(before, [op]) == Perform(before, op);
  }

  /** The puts among the operations that find the queue open and full. */
  ghost function FullPuts<E(!new)>(q: Queue<E>, ops: seq<Op<E>>): nat
    requires Faithful(q)
    decreases |ops|
  {
    if ops == [] then 0
    else
      var before := PerformAll(q, ops[..|ops| - 1]);
      FullPuts(q, ops[..|ops| - 1]) +
      (if ops[|ops| - 1].PutOp? && !before.closed && |before.events| == before.capacity then 1 else 0)
  }

  /** Over any operations the dropped count is exactly the number of puts that found a full open queue. */
  lemma {:induction false} DropsAreFullPuts<E(!new)>(q: Queue<E>, ops: seq<Op<E>>)
    requires Faithful(q)
    ensures PerformAll(q, ops).dropped == q.dropped + FullPuts(q, ops)
    decreases |ops|
  {
    if ops != [] {
      var init, op := ops[..|ops| - 1], ops[|ops| - 1];
      DropsAreFullPuts(q, init);
      assert ops == init + [op];
      HistoryFaithful(q, init);
      if op.PutOp? {
        PutEffect(q, init, op.event);
      } else {
        OtherEffect(q, init, op);
      }
    }
  }

  /** After puts alone a new queue holds the last events, as many as fit, and the others are dropped. */
  lemma {:induction false} PutsAlone<E(!new)>(capacity: nat, ops: seq<Op<E>>)
    requires capacity >= 1 && forall i :: 0 <= i < |ops| ==> ops[i].PutOp?
    ensures Faithful(Fresh<E>(capacity))
    ensures var t := PerformAll(Fresh(capacity), ops); var kept := Min(|ops|, capacity);
      && |t.events| == kept && t.dropped == |ops| - kept && |t.accepted| == |ops| && !t.closed
      && t.deliveredAt == [] && t.capacity == capacity
      && forall i :: 0 <= i < kept ==> t.events[i] == ops[|ops| - kept + i].event
    decreases |ops|
  {
    if ops != [] {
      var init, op := ops[..|ops| - 1], ops[|ops| - 1];
      PutsAlone<E>(capacity, init);
      assert ops == init + [op];
      PutEffect(Fresh(capacity), init, op.event);
    }
  }

  /** One wait on the condition: what other threads do meanwhile, and whether the waiter is
      woken (true) or times out (false). */
  datatype Wait<E> = Wait(ops: seq<Op<E>>, woken: bool)

  /** What other threads do during the first `n` waits. */
  function OpsOf<E>(waits: seq<Wait<E>>, n: nat): seq<Op<E>>
    requires n <= |waits|
  {
    if n == 0 then [] else OpsOf(waits, n - 1) + waits[n - 1].ops
  }

  /** The queue after the first `n` waits of a consumer that found `q`. */
  ghost function AfterWaits<E(!new)>(q: Queue<E>, waits: seq<Wait<E>>, n: nat): Queue<E>
    requires Faithful(q) && n <= |waits|
  {
    PerformAll(q, OpsOf(waits, n))
  }

  /** The consumer waits `n` times and no more: it found nothing in the open queue each time, and
      all but perhaps the last wait woke it. */
  ghost predicate WaitsFor<E(!new)>(q: Queue<E>, waits: seq<Wait<E>>, n: nat)
    requires Faithful(q) && n <= |waits|
  {
    && (forall k :: 0 <= k < n ==> AfterWaits(q, waits, k).events == [] && !AfterWaits(q, waits, k).closed)
    && (forall k :: 0 <= k < n - 1 ==> waits[k].woken)
  }

  predicate TimedOut<E>(waits: seq<Wait<E>>, n: nat)
    requires n <= |waits|
  {
    n > 0 && !waits[n - 1].woken
  }

  /** A consumer that finds nothing and is not told that the queue is closed waits once more. */
  lemma WaitsOnce<E(!new)>(q: Queue<E>, waits: seq<Wait<E>>, n: nat)
    requires Faithful(q) && n < |waits| && WaitsFor(q, waits, n) && !TimedOut(waits, n)
    requires AfterWaits(q, waits, n).events == [] && !AfterWaits(q, waits, n).closed
    ensures WaitsFor(q, waits, n + 1) && TimedOut(waits, n + 1) == !waits[n].woken
    ensures AfterWaits(q, waits, n + 1) == PerformAll(AfterWaits(q, waits, n), waits[n].ops)
  {
    PerformAllAdd(q, OpsOf(waits, n), waits[n].ops);
  }

  /** How a call of `get` that makes `n` waits ends, and the queue it leaves. */
  ghost predicate Ends<E(!new)>(r: Received<E>, q: Queue<E>, waits: seq<Wait<E>>, n: nat, left: Queue<E>)
    requires Faithful(q) && n <= |waits|
  {
    var mid := AfterWaits(q, waits, n);
    match r
    case Event(e) => !TimedOut(waits, n) && mid.events != [] && e == mid.events[0] && left == Take(mid)
    case Nothing => (TimedOut(waits, n) || (mid.closed && mid.events == [])) && left == mid
    case StillBlocked => n == |waits| && !TimedOut(waits, n) && mid.events == [] && !mid.closed && left == mid
  }

  datatype Received<E> = Event(event: E) | Nothing | StillBlocked

  /** What the environment does settles how many waits a call makes, what it returns and what it leaves. */
  lemma GetIsDetermined<E(!new)>(q: Queue<E>, waits: seq<Wait<E>>, m: nat, r: Received<E>, left: Queue<E>,
                                 n: nat, other: Received<E>, otherLeft: Queue<E>)
    requires Faithful(q) && m <= |waits| && n <= |waits|
    requires WaitsFor(q, waits, m) && Ends(r, q, waits, m, left)
    requires WaitsFor(q, waits, n) && Ends(other, q, waits, n, otherLeft)
    ensures m == n && r == other && left == otherLeft
  {
  }

  class Subscription<E(!new)> {
    const capacity: nat
    var events: seq<E>
    var closed: bool
    var droppedCount: nat
    ghost var accepted: seq<E>
    ghost var deliveredAt: seq<nat>

    ghost function State(): Queue<E>
      reads this
    {
      Queue(capacity, events, closed, droppedCount, accepted, deliveredAt)
    }

    constructor (capacity: nat)
      requires capacity >= 1
      ensures State() == Fresh(capacity) && Faithful(State())
    {
      this.capacity := capacity;
      events, closed, droppedCount := [], false, 0;
      accepted, deliveredAt := [], [];
    }

    method PutEvent(e: E)
      requires Faithful(State())
      modifies this
      ensures Faithful(State()) && State() == Put(old(State()), e)
    {
      PutFaithful(State(), e);
      if closed {
        return;
      }
      var wasFull := |events| == capacity;
      // a bounded deque: appending to a full one discards from the other end
      events := (if wasFull then events[1..] else events) + [e];
      accepted := accepted + [e];
      if wasFull {
        droppedCount := droppedCount + 1;
      }
    }

    method PopLeft() returns (e: E)
      requires Faithful(State()) && events != []
      modifies this
      ensures Faithful(State()) && State() == Take(old(State())) && e == old(events[0])
      ensures e == accepted[deliveredAt[|deliveredAt| - 1]]
    {
      TakeFaithful(State());
      e := events[0];
      deliveredAt := deliveredAt + [|accepted| - |events|];
      events := events[1..];
    }

    /** The other threads run while this one waits. */
    method OthersRun(ops: seq<Op<E>>)
      requires Faithful(State())
      modifies this
      ensures Faithful(State()) && State() == PerformAll(old(State()), ops)
    {
      for i := 0 to |ops|
        invariant Faithful(State()) && State() == PerformAll(old(State()), ops[..i])
      {
        PerformAllAdd(old(State()), ops[..i], [ops[i]]);
        PerformFaithful(State(), ops[i]);
        assert ops[..i + 1] == ops[..i] + [ops[i]];
        assert PerformAll(State(), [ops[i]]) == Perform(State(), ops[i]);
        match ops[i] {
          case PutOp(e) => PutEvent(e);
          case TakeOp => var _ := GetNowait();
          case DrainOp => var _ := Drain();
          case CloseOp => Close();
        }
      }
      assert ops[..|ops|] == ops;
    }

    /** `waits` describes each wait on the condition in turn, `used` says how many of them the call
        makes; a call that uses them all up may not have returned yet. Other threads act only
        during the waits, and the call itself does nothing but take the event it returns: the oldest
        one as soon as it finds one, unless a wait timed out. */
    method Get(waits: seq<Wait<E>>) returns (r: Received<E>, ghost used: nat)
      requires Faithful(State())
      modifies this
      ensures Faithful(State())
      ensures used <= |waits| && WaitsFor(old(State()), waits, used)
      ensures Ends(r, old(State()), waits, used, State())
    {
      used := 0;
      var k := 0;
      while events == [] && !closed
        invariant used == k <= |waits| && Faithful(State())
        invariant State() == AfterWaits(old(State()), waits, k)
        invariant WaitsFor(old(State()), waits, k) && !TimedOut(waits, k)
        decreases |waits| - k
      {
        if k == |waits| {
          return StillBlocked, used;
        }
        WaitsOnce(old(State()), waits, k);
        OthersRun(waits[k].ops);
        used := k + 1;
        if !waits[k].woken {
          return Nothing, used;
        }
        k := k + 1;
      }
      if events != [] {
        var e := PopLeft();
        return Event(e), used;
      }
      return Nothing, used;
    }

    method GetNowait() returns (r: Option<E>)
      requires Faithful(State())
      modifies this
      ensures Faithful(State())
      ensures if old(events) == [] then r == None && State() == old(State())
              else r == Some(old(events[0])) && State() == Take(old(State()))
    {
      if events != [] {
        var e := PopLeft();
        return Some(e);
      }
      return None;
    }

    method Drain() returns (drained: seq<E>)
      requires Faithful(State())
      modifies this
      ensures Faithful(State()) && State() == Drained(old(State())) && drained == old(events)
      ensures forall i :: 0 <= i < |drained| ==> drained[i] == accepted[deliveredAt[|old(deliveredAt)| + i]]
    {
      DrainedFaithful(State());
      drained := events;
      deliveredAt := deliveredAt + Positions(|accepted| - |events|, |events|);
      events := [];
    }

    method Close()
      requires Faithful(State())
      modifies this
      ensures Faithful(State()) && State() == Closed(old(State()))
    {
      if closed {
        return;
      }
      closed := true;
    }
  }

  /** The broker, when its calls do not overlap (BrokerRuns treats the overlapping ones). */
  class Broker<E(!new)> {
    const capacity: nat
    var subscribers: set<Subscription<E>>
    var shutDown: bool

    ghost predicate Valid()
      reads this, subscribers
    {
      && capacity >= 1
      && (shutDown ==> subscribers == {})
      && forall s :: s in subscribers ==> Faithful(s.State()) && !s.closed
    }

    constructor (capacity: nat)
      requires capacity >= 1
      ensures Valid() && subscribers == {} && !shutDown && this.capacity == capacity
    {
      this.capacity, subscribers, shutDown := capacity, {}, false;
    }

    method Subscribe() returns (s: Subscription<E>)
      requires Valid()
      modifies this`subscribers
      ensures Valid() && fresh(s) && Faithful(s.State())
      ensures s.State() == if shutDown then Closed(Fresh(capacity)) else Fresh(capacity)
      ensures subscribers == if shutDown then old(subscribers) else old(subscribers) + {s}
    {
      s := new Subscription(capacity);
      if shutDown {
        s.Close();
        return;
      }
      subscribers := subscribers + {s};
    }

    method Unsubscribe(s: Subscription<E>)
      requires Valid() && Faithful(s.State())
      modifies this`subscribers, s
      ensures Valid() && subscribers == old(subscribers) - {s}
      ensures s.State() == Closed(old(s.State()))
    {
      subscribers := subscribers - {s};
      s.Close();
    }

    method Publish(e: E)
      requires Valid()
      modifies subscribers
      ensures Valid()
      ensures forall s :: s in subscribers ==> s.State() == Put(old(s.State()), e)
    {
      if shutDown {
        return;
      }
      var todo := subscribers;
      while todo != {}
        invariant todo <= subscribers && Valid()
        invariant forall s :: s in subscribers ==>
          s.State() == if s in todo then old(s.State()) else Put(old(s.State()), e)
        decreases todo
      {
        var s :| s in todo;
        s.PutEvent(e);
        todo := todo - {s};
      }
    }

    method Shutdown()
      requires Valid()
      modifies this`subscribers, this`shutDown, subscribers
      ensures Valid() && shutDown && subscribers == {}
      ensures forall s :: s in old(subscribers) ==> s.State() == Closed(old(s.State()))
    {
      if shutDown {
        return;
      }
      shutDown := true;
      var snapshot := subscribers;
      subscribers := {};
      CloseAll(snapshot);
    }

    static method CloseAll(snapshot: set<Subscription<E>>)
      requires forall s :: s in snapshot ==> Faithful(s.State())
      modifies snapshot
      ensures forall s :: s in snapshot ==> s.State() == Closed(old(s.State()))
    {
      var todo := snapshot;
      while todo != {}
        invariant todo <= snapshot
        invariant forall s :: s in todo ==> s.State() == old(s.State())
        invariant forall s :: s in snapshot - todo ==> s.State() == Closed(old(s.State()))
        decreases todo
      {
        var s :| s in todo;
        s.Close();
        todo := todo - {s};
      }
    }
  }
}
