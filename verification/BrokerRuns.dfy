/** Every concurrent run of the event broker (app/application/broker.py): publishing takes its
    snapshot under one lock and delivers under others, while other threads subscribe,
    unsubscribe, close, receive and shut down. One step per critical section. */
module BrokerRuns {
  import opened EventBroker

  /** One call of `_put` on a subscription: which publication, and whether it found it closed. */
  datatype Offer = Offer(pub: nat, ignored: bool)

  /** A subscription handed out, identified by its place; its events are publication numbers. */
  datatype Sub = Sub(queue: Queue<nat>, offers: seq<Offer>)

  /** A `publish` that took its snapshot, numbered by its place. */
  datatype Publication = Publication(thread: nat, targets: set<nat>)

  /** What a thread is in the middle of. */
  datatype Act = Idle | Publishing(pub: nat, todo: set<nat>) | Unsubscribing(sub: nat) | ShuttingDown(todo: set<nat>)

  /** The capacity every subscription of a broker gets. */
  type Capacity = n: nat | n >= 1 witness 1

  datatype System = System(capacity: Capacity, subs: seq<Sub>, registered: set<nat>, shutDown: bool,
                           threads: seq<Act>, pubs: seq<Publication>)

  datatype Move =
    | Subscribe
    | StartPublish
    | PutNext(sub: nat)
    | StartUnsubscribe(sub: nat)
    | FinishUnsubscribe
    | StartShutdown
    | CloseNext(sub: nat)
    | OnQueue(sub: nat, op: Op<nat>)

  function SetAct(s: System, t: nat, a: Act): System
    requires t < |s.threads|
  {
    s.(threads := s.threads[t := a])
  }

  function SetQueue(s: System, i: nat, q: Queue<nat>): System
    requires i < |s.subs|
  {
    s.(subs := s.subs[i := s.subs[i].(queue := q)])
  }

  /** `subscription._put(event)` of publication `p`. */
  function OfferTo(x: Sub, p: nat): Sub
  {
    Sub(Put(x.queue, p), x.offers + [Offer(p, x.queue.closed)])
  }

  /** A snapshot with nobody in it leaves nothing to do. */
  function PublishingOrDone(p: nat, todo: set<nat>): Act
  {
    if todo == {} then Idle else Publishing(p, todo)
  }

  /** Thread `t` performs `m`; a move it cannot make now changes nothing. */
  function Step(s: System, t: nat, m: Move): System
    requires t < |s.threads| && forall i :: 0 <= i < |s.subs| ==> Faithful(s.subs[i].queue)
  {
    match s.threads[t]
    case Idle =>
      (match m
       case Subscribe =>
         if s.shutDown then s.(subs := s.subs + [Sub(Closed(Fresh(s.capacity)), [])])
         else s.(subs := s.subs + [Sub(Fresh(s.capacity), [])], registered := s.registered + {|s.subs|})
       case StartPublish =>
         if s.shutDown then s
         else SetAct(s.(pubs := s.pubs + [Publication(t, s.registered)]), t, PublishingOrDone(|s.pubs|, s.registered))
       case StartUnsubscribe(i) =>
         if i < |s.subs| then SetAct(s.(registered := s.registered - {i}), t, Unsubscribing(i)) else s
       case StartShutdown =>
         if s.shutDown then s
         else SetAct(s.(shutDown := true, registered := {}), t, if s.registered == {} then Idle else ShuttingDown(s.registered))
       case OnQueue(i, op) =>
         if i < |s.subs| && !op.PutOp? then
           assert Faithful(s.subs[i].queue);
           SetQueue(s, i, Perform(s.subs[i].queue, op))
         else s
       case _ => s)
    case Publishing(p, todo) =>
      if m.PutNext? && m.sub in todo && m.sub < |s.subs| then
        SetAct(s.(subs := s.subs[m.sub := OfferTo(s.subs[m.sub], p)]), t, PublishingOrDone(p, todo - {m.sub}))
      else s
    case Unsubscribing(i) =>
      if m.FinishUnsubscribe? && i < |s.subs| then SetAct(SetQueue(s, i, Closed(s.subs[i].queue)), t, Idle) else s
    case ShuttingDown(todo) =>
      if m.CloseNext? && m.sub in todo && m.sub < |s.subs| then
        var rest := todo - {m.sub};
        SetAct(SetQueue(s, m.sub, Closed(s.subs[m.sub].queue)), t, if rest == {} then Idle else ShuttingDown(rest))
      else s
  }

  // ------------------------------------------------- the invariant

  /** Publication `p` still has to be put into subscription `i`. */
  predicate Pending(s: System, p: nat, i: nat)
    requires p < |s.pubs|
  {
    var t := s.pubs[p].thread;
    t < |s.threads| && s.threads[t].Publishing? && s.threads[t].pub == p && i in s.threads[t].todo
  }

  predicate Offered(x: Sub, p: nat)
  {
    exists k :: 0 <= k < |x.offers| && x.offers[k].pub == p
  }

  /** The publications put in while the subscription was open. */
  function Heard(offers: seq<Offer>): seq<nat>
  {
    if offers == [] then []
    else Heard(offers[..|offers| - 1]) + (if offers[|offers| - 1].ignored then [] else [offers[|offers| - 1].pub])
  }

  ghost predicate QueueInv(x: Sub)
  {
    && Faithful(x.queue)
    && x.queue.accepted == Heard(x.offers)
    && (forall k :: 0 <= k < |x.offers| && x.offers[k].ignored ==> x.queue.closed)
    && (forall j, k :: 0 <= j < k < |x.offers| && x.offers[j].ignored ==> x.offers[k].ignored)
  }

  ghost predicate OffersInv(s: System, i: nat)
    requires i < |s.subs|
  {
    var offers := s.subs[i].offers;
    && (forall k :: 0 <= k < |offers| ==> offers[k].pub < |s.pubs|)
    && (forall k :: 0 <= k < |offers| ==> i in s.pubs[offers[k].pub].targets && !Pending(s, offers[k].pub, i))
    && (forall j, k :: 0 <= j < k < |offers| && s.pubs[offers[j].pub].thread == s.pubs[offers[k].pub].thread ==>
         offers[j].pub < offers[k].pub)
    && (forall p :: 0 <= p < |s.pubs| && i in s.pubs[p].targets && !Pending(s, p, i) ==> Offered(s.subs[i], p))
  }

  ghost predicate ThreadInv(s: System, t: nat)
    requires t < |s.threads|
  {
    match s.threads[t]
    case Idle => true
    case Publishing(p, todo) =>
      && p < |s.pubs| && s.pubs[p].thread == t && todo <= s.pubs[p].targets
      && forall q :: 0 <= q < |s.pubs| && s.pubs[q].thread == t ==> q <= p
    case Unsubscribing(i) => i < |s.subs|
    case ShuttingDown(todo) => s.shutDown && forall i :: i in todo ==> i < |s.subs|
  }

  /** Thread `t` is about to close subscription `i`. */
  predicate WillClose(s: System, t: nat, i: nat)
    requires t < |s.threads|
  {
    s.threads[t] == Unsubscribing(i) || (s.threads[t].ShuttingDown? && i in s.threads[t].todo)
  }

  ghost predicate Reachable(s: System, i: nat)
    requires i < |s.subs|
  {
    i in s.registered || s.subs[i].queue.closed || exists t :: 0 <= t < |s.threads| && WillClose(s, t, i)
  }

  ghost predicate Base(s: System)
  {
    && (s.shutDown ==> s.registered == {})
    && (forall i :: i in s.registered ==> i < |s.subs|)
    && (forall p :: 0 <= p < |s.pubs| ==> s.pubs[p].thread < |s.threads|)
    && (forall p, i :: 0 <= p < |s.pubs| && i in s.pubs[p].targets ==> i < |s.subs|)
  }

  ghost predicate ThreadsOk(s: System)
  {
    forall t :: 0 <= t < |s.threads| ==> ThreadInv(s, t)
  }

  ghost predicate QueuesOk(s: System)
  {
    forall i :: 0 <= i < |s.subs| ==> QueueInv(s.subs[i])
  }

  ghost predicate OffersOk(s: System)
  {
    forall i :: 0 <= i < |s.subs| ==> OffersInv(s, i)
  }

  ghost predicate AllReachable(s: System)
  {
    forall i :: 0 <= i < |s.subs| ==> Reachable(s, i)
  }

  ghost predicate Inv(s: System)
  {
    Base(s) && ThreadsOk(s) && QueuesOk(s) && OffersOk(s) && AllReachable(s)
  }

  // ------------------------------------------------- one lemma per kind of move

  /** Thread `t` moved without publishing: same publications, same offers, perhaps a new
      subscription at the end. */
  predicate Quiet(s: System, u: System, t: nat)
    requires t < |s.threads|
  {
    && |s.threads| == |u.threads| && s.pubs == u.pubs && |s.subs| <= |u.subs|
    && (s.shutDown ==> u.shutDown)
    && (forall i :: 0 <= i < |s.subs| ==> u.subs[i].offers == s.subs[i].offers)
    && (forall i :: |s.subs| <= i < |u.subs| ==> u.subs[i].offers == [])
    && !s.threads[t].Publishing? && !u.threads[t].Publishing?
    && forall q :: 0 <= q < |s.threads| && q != t ==> u.threads[q] == s.threads[q]
  }

  lemma QuietOffers(s: System, u: System, t: nat, i: nat)
    requires t < |s.threads| && Quiet(s, u, t) && i < |s.subs| && OffersInv(s, i)
    ensures OffersInv(u, i)
  {
    forall p | 0 <= p < |s.pubs| ensures Pending(u, p, i) == Pending(s, p, i) {}
    forall p | 0 <= p < |s.pubs| && i in s.pubs[p].targets && !Pending(u, p, i) ensures Offered(u.subs[i], p) {
      assert !Pending(s, p, i);
      var k :| 0 <= k < |s.subs[i].offers| && s.subs[i].offers[k].pub == p;
      assert u.subs[i].offers[k].pub == p;
    }
  }

  lemma QuietThreads(s: System, u: System, t: nat)
    requires t < |s.threads| && Quiet(s, u, t) && ThreadsOk(s) && ThreadInv(u, t)
    ensures ThreadsOk(u)
  {
    forall q | 0 <= q < |u.threads| ensures ThreadInv(u, q) {
      assert ThreadInv(s, q);
    }
  }

  lemma QuietInv(s: System, u: System, t: nat)
    requires Inv(s) && t < |s.threads| && Quiet(s, u, t)
    requires Base(u) && ThreadInv(u, t) && QueuesOk(u) && AllReachable(u)
    ensures Inv(u)
  {
    QuietThreads(s, u, t);
    forall i | 0 <= i < |u.subs| ensures OffersInv(u, i) {
      if i < |s.subs| {
        QuietOffers(s, u, t, i);
      } else {
        forall p | 0 <= p < |u.pubs| ensures i !in u.pubs[p].targets {}
      }
    }
  }

  lemma ReachableKept(s: System, u: System, i: nat)
    requires i < |s.subs| <= |u.subs| && |s.threads| == |u.threads| && Reachable(s, i)
    requires i in s.registered ==> i in u.registered
    requires s.subs[i].queue.closed ==> u.subs[i].queue.closed
    requires forall t :: 0 <= t < |s.threads| && WillClose(s, t, i) ==> WillClose(u, t, i) || u.subs[i].queue.closed
    ensures Reachable(u, i)
  {
    if i !in s.registered && !s.subs[i].queue.closed {
      var t :| 0 <= t < |s.threads| && WillClose(s, t, i);
      assert WillClose(u, t, i) || u.subs[i].queue.closed;
    }
  }

  /** Closing or consuming from one queue keeps every queue faithful to its offers. */
  lemma QueueKept(x: Sub, op: Op<nat>)
    requires QueueInv(x) && !op.PutOp?
    ensures QueueInv(Sub(Perform(x.queue, op), x.offers))
    ensures Perform(x.queue, op).closed == (x.queue.closed || op.CloseOp?)
  {
    PerformFaithful(x.queue, op);
  }

  lemma SetQueueOk(s: System, i: nat, q: Queue<nat>)
    requires i < |s.subs| && QueuesOk(s) && QueueInv(Sub(q, s.subs[i].offers))
    ensures QueuesOk(SetQueue(s, i, q))
  {
    var u := SetQueue(s, i, q);
    forall j | 0 <= j < |u.subs| ensures QueueInv(u.subs[j]) {
      assert u.subs[j] == if j == i then Sub(q, s.subs[i].offers) else s.subs[j];
    }
  }

  lemma QueueKeptInSystem(s: System, i: nat, op: Op<nat>)
    requires i < |s.subs| && QueuesOk(s) && !op.PutOp?
    ensures Faithful(s.subs[i].queue) && QueuesOk(SetQueue(s, i, Perform(s.subs[i].queue, op)))
    ensures Perform(s.subs[i].queue, op).closed == (s.subs[i].queue.closed || op.CloseOp?)
  {
    assert QueueInv(s.subs[i]);
    QueueKept(s.subs[i], op);
    SetQueueOk(s, i, Perform(s.subs[i].queue, op));
  }

  lemma NewSubOk(s: System, x: Sub)
    requires QueuesOk(s) && QueueInv(x)
    ensures QueuesOk(s.(subs := s.subs + [x]))
  {
  }

  lemma NewQueueInv(capacity: Capacity)
    ensures QueueInv(Sub(Fresh(capacity), [])) && QueueInv(Sub(Closed(Fresh(capacity)), []))
  {
  }

  function AfterSubscribe(s: System): System
  {
    if s.shutDown then s.(subs := s.subs + [Sub(Closed(Fresh(s.capacity)), [])])
    else s.(subs := s.subs + [Sub(Fresh(s.capacity), [])], registered := s.registered + {|s.subs|})
  }

  lemma SubscribeInv(s: System, t: nat)
    requires Inv(s) && t < |s.threads| && s.threads[t].Idle?
    ensures Inv(Step(s, t, Subscribe))
  {
    var u := AfterSubscribe(s);
    NewQueueInv(s.capacity);
    NewSubOk(s, u.subs[|s.subs|]);
    SubscribeReachable(s, u);
    SubscribeBase(s, u);
    QuietInv(s, u, t);
  }

  lemma SubscribeBase(s: System, u: System)
    requires Base(s) && u == AfterSubscribe(s)
    ensures Base(u)
  {
  }

  lemma SubscribeReachable(s: System, u: System)
    requires AllReachable(s) && u == AfterSubscribe(s)
    ensures AllReachable(u)
  {
    forall i | 0 <= i < |u.subs| ensures Reachable(u, i) {
      if i < |s.subs| {
        ReachableKept(s, u, i);
      }
    }
  }

  lemma OnQueueInv(s: System, t: nat, i: nat, op: Op<nat>)
    requires Inv(s) && t < |s.threads| && s.threads[t].Idle? && i < |s.subs| && !op.PutOp?
    ensures Inv(Step(s, t, OnQueue(i, op)))
  {
    QueueKeptInSystem(s, i, op);
    var u := SetQueue(s, i, Perform(s.subs[i].queue, op));
    forall j | 0 <= j < |u.subs| ensures Reachable(u, j) {
      ReachableKept(s, u, j);
    }
    QuietInv(s, u, t);
  }

  lemma StartUnsubscribeInv(s: System, t: nat, i: nat)
    requires Inv(s) && t < |s.threads| && s.threads[t].Idle? && i < |s.subs|
    ensures Inv(Step(s, t, StartUnsubscribe(i)))
  {
    var u := Step(s, t, StartUnsubscribe(i));
    assert WillClose(u, t, i);
    forall j | 0 <= j < |u.subs| ensures Reachable(u, j) {
      if j != i {
        ReachableKept(s, u, j);
      }
    }
    QuietInv(s, u, t);
  }

  lemma FinishUnsubscribeInv(s: System, t: nat)
    requires Inv(s) && t < |s.threads| && s.threads[t].Unsubscribing?
    ensures Inv(Step(s, t, FinishUnsubscribe))
  {
    assert ThreadInv(s, t);
    var i := s.threads[t].sub;
    QueueKeptInSystem(s, i, CloseOp);
    var u := SetAct(SetQueue(s, i, Closed(s.subs[i].queue)), t, Idle);
    forall j | 0 <= j < |u.subs| ensures Reachable(u, j) {
      ReachableKept(s, u, j);
    }
    QuietInv(s, u, t);
  }

  lemma StartShutdownInv(s: System, t: nat)
    requires Inv(s) && t < |s.threads| && s.threads[t].Idle?
    ensures Inv(Step(s, t, StartShutdown))
  {
    var u := Step(s, t, StartShutdown);
    forall j | 0 <= j < |u.subs| ensures Reachable(u, j) {
      if j in s.registered && !s.shutDown {
        assert WillClose(u, t, j);
      } else {
        ReachableKept(s, u, j);
      }
    }
    QuietInv(s, u, t);
  }

  lemma CloseNextInv(s: System, t: nat, i: nat)
    requires Inv(s) && t < |s.threads| && s.threads[t].ShuttingDown? && i in s.threads[t].todo
    ensures Inv(Step(s, t, CloseNext(i)))
  {
    assert ThreadInv(s, t);
    QueueKeptInSystem(s, i, CloseOp);
    var rest := s.threads[t].todo - {i};
    var u := SetAct(SetQueue(s, i, Closed(s.subs[i].queue)), t, if rest == {} then Idle else ShuttingDown(rest));
    forall j | 0 <= j < |u.subs| ensures Reachable(u, j) {
      ReachableKept(s, u, j);
    }
    QuietInv(s, u, t);
  }

  lemma StartPublishInv(s: System, t: nat)
    requires Inv(s) && t < |s.threads| && s.threads[t].Idle? && !s.shutDown
    ensures Inv(Step(s, t, StartPublish))
  {
    var u := SetAct(s.(pubs := s.pubs + [Publication(t, s.registered)]), t, PublishingOrDone(|s.pubs|, s.registered));
    StartPublishThreads(s, u, t);
    forall i | 0 <= i < |u.subs| ensures OffersInv(u, i) && Reachable(u, i) {
      StartPublishOffers(s, u, t, i);
      ReachableKept(s, u, i);
    }
  }

  lemma StartPublishThreads(s: System, u: System, t: nat)
    requires ThreadsOk(s) && Base(s) && t < |s.threads| && s.threads[t].Idle?
    requires u == SetAct(s.(pubs := s.pubs + [Publication(t, s.registered)]), t, PublishingOrDone(|s.pubs|, s.registered))
    ensures ThreadsOk(u)
  {
    forall q | 0 <= q < |u.threads| ensures ThreadInv(u, q) {
      assert ThreadInv(s, q);
    }
  }

  lemma StartPublishOffers(s: System, u: System, t: nat, i: nat)
    requires Base(s) && t < |s.threads| && s.threads[t].Idle? && i < |s.subs| && OffersInv(s, i)
    requires u == SetAct(s.(pubs := s.pubs + [Publication(t, s.registered)]), t, PublishingOrDone(|s.pubs|, s.registered))
    ensures OffersInv(u, i)
  {
    forall p | 0 <= p < |s.pubs| ensures Pending(u, p, i) == Pending(s, p, i) && u.pubs[p] == s.pubs[p] {}
    forall p | 0 <= p < |u.pubs| && i in u.pubs[p].targets && !Pending(u, p, i) ensures Offered(u.subs[i], p) {
      assert p < |s.pubs| && !Pending(s, p, i);
    }
  }

  function AfterPut(s: System, t: nat, p: nat, todo: set<nat>, i: nat): System
    requires t < |s.threads| && i < |s.subs|
  {
    SetAct(s.(subs := s.subs[i := OfferTo(s.subs[i], p)]), t, PublishingOrDone(p, todo - {i}))
  }

  lemma PutNextInv(s: System, t: nat, i: nat)
    requires Inv(s) && t < |s.threads| && s.threads[t].Publishing? && i in s.threads[t].todo && i < |s.subs|
    ensures Inv(Step(s, t, PutNext(i)))
  {
    var p, todo := s.threads[t].pub, s.threads[t].todo;
    assert ThreadInv(s, t);
    var u := AfterPut(s, t, p, todo, i);
    PutThreads(s, t, p, todo, i);
    PutQueues(s, t, p, todo, i);
    PutOffers(s, t, p, todo, i);
    PutReachable(s, t, p, todo, i);
    PutStep(s, t, i);
  }

  lemma PutReachable(s: System, t: nat, p: nat, todo: set<nat>, i: nat)
    requires Base(s) && AllReachable(s) && t < |s.threads| && i < |s.subs| && s.threads[t] == Publishing(p, todo)
    requires AfterPut(s, t, p, todo, i).subs[i].queue.closed == s.subs[i].queue.closed
    ensures AllReachable(AfterPut(s, t, p, todo, i)) && Base(AfterPut(s, t, p, todo, i))
  {
    var u := AfterPut(s, t, p, todo, i);
    forall j | 0 <= j < |u.subs| ensures Reachable(u, j) {
      ReachableKept(s, u, j);
    }
  }

  lemma PutStep(s: System, t: nat, i: nat)
    requires QueuesOk(s) && t < |s.threads| && s.threads[t].Publishing? && i in s.threads[t].todo && i < |s.subs|
    ensures Step(s, t, PutNext(i)) == AfterPut(s, t, s.threads[t].pub, s.threads[t].todo, i)
  {
  }

  lemma PutOffers(s: System, t: nat, p: nat, todo: set<nat>, i: nat)
    requires Base(s) && OffersOk(s) && t < |s.threads| && i < |s.subs|
    requires s.threads[t] == Publishing(p, todo) && ThreadInv(s, t) && i in todo
    ensures OffersOk(AfterPut(s, t, p, todo, i))
  {
    forall j | 0 <= j < |s.subs| ensures OffersInv(AfterPut(s, t, p, todo, i), j) {
      assert OffersInv(s, j);
      if j == i {
        PutOffersHere(s, t, p, todo, i);
      } else {
        PutOffersElsewhere(s, t, p, todo, i, j);
      }
    }
  }

  lemma PutThreads(s: System, t: nat, p: nat, todo: set<nat>, i: nat)
    requires ThreadsOk(s) && t < |s.threads| && i < |s.subs| && s.threads[t] == Publishing(p, todo)
    ensures ThreadsOk(AfterPut(s, t, p, todo, i))
  {
    var u := AfterPut(s, t, p, todo, i);
    forall q | 0 <= q < |u.threads| ensures ThreadInv(u, q) {
      assert ThreadInv(s, q);
    }
  }

  lemma PutQueues(s: System, t: nat, p: nat, todo: set<nat>, i: nat)
    requires QueuesOk(s) && t < |s.threads| && i < |s.subs|
    ensures QueuesOk(AfterPut(s, t, p, todo, i))
    ensures AfterPut(s, t, p, todo, i).subs[i].queue.closed == s.subs[i].queue.closed
  {
    PutQueueInv(s.subs[i], p);
    var u := AfterPut(s, t, p, todo, i);
    forall j | 0 <= j < |u.subs| ensures QueueInv(u.subs[j]) {
      assert u.subs[j] == if j == i then OfferTo(s.subs[i], p) else s.subs[j];
    }
  }

  lemma PutQueueInv(x: Sub, p: nat)
    requires QueueInv(x)
    ensures QueueInv(OfferTo(x, p)) && OfferTo(x, p).queue.closed == x.queue.closed
  {
    PutFaithful(x.queue, p);
    var y := OfferTo(x, p);
    assert y.offers[..|y.offers| - 1] == x.offers;
  }

  lemma PutOffersHere(s: System, t: nat, p: nat, todo: set<nat>, i: nat)
    requires Base(s) && t < |s.threads| && i < |s.subs| && OffersInv(s, i)
    requires s.threads[t] == Publishing(p, todo) && ThreadInv(s, t) && i in todo
    ensures OffersInv(AfterPut(s, t, p, todo, i), i)
  {
    var u := AfterPut(s, t, p, todo, i);
    var before, after := s.subs[i].offers, u.subs[i].offers;
    assert Pending(s, p, i);
    forall q | 0 <= q < |s.pubs| ensures Pending(u, q, i) == (Pending(s, q, i) && q != p) {}
    assert after[|before|].pub == p;
    forall q | 0 <= q < |u.pubs| && i in u.pubs[q].targets && !Pending(u, q, i) ensures Offered(u.subs[i], q) {
      if q != p {
        var k :| 0 <= k < |before| && before[k].pub == q;
        assert after[k].pub == q;
      }
    }
    PutOrder(s, t, p, todo, i);
  }

  /** The new offer comes after every earlier offer of its thread. */
  lemma PutOrder(s: System, t: nat, p: nat, todo: set<nat>, i: nat)
    requires Base(s) && t < |s.threads| && i < |s.subs| && OffersInv(s, i)
    requires s.threads[t] == Publishing(p, todo) && ThreadInv(s, t) && i in todo
    ensures var u := AfterPut(s, t, p, todo, i); var after := u.subs[i].offers;
      forall j, k :: 0 <= j < k < |after| && u.pubs[after[j].pub].thread == u.pubs[after[k].pub].thread ==>
        after[j].pub < after[k].pub
  {
    var u := AfterPut(s, t, p, todo, i);
    var before, after := s.subs[i].offers, u.subs[i].offers;
    assert Pending(s, p, i);
    forall j, k | 0 <= j < k < |after| && u.pubs[after[j].pub].thread == u.pubs[after[k].pub].thread
      ensures after[j].pub < after[k].pub
    {
      assert after[j] == before[j];
      if k < |before| {
        assert after[k] == before[k];
      } else {
        assert !Pending(s, before[j].pub, i);
      }
    }
  }

  lemma PutOffersElsewhere(s: System, t: nat, p: nat, todo: set<nat>, i: nat, j: nat)
    requires Base(s) && t < |s.threads| && i < |s.subs| && j < |s.subs| && j != i && OffersInv(s, j)
    requires s.threads[t] == Publishing(p, todo) && i in todo
    ensures OffersInv(AfterPut(s, t, p, todo, i), j)
  {
    var u := AfterPut(s, t, p, todo, i);
    forall q | 0 <= q < |s.pubs| ensures Pending(u, q, j) == Pending(s, q, j) {}
    assert u.subs[j] == s.subs[j];
  }

  // ------------------------------------------------- whole runs

  lemma StepInv(s: System, t: nat, m: Move)
    requires Inv(s) && t < |s.threads|
    ensures Inv(Step(s, t, m))
  {
    match s.threads[t]
    case Idle => IdleInv(s, t, m);
    case Publishing(p, todo) =>
      if m.PutNext? && m.sub in todo && m.sub < |s.subs| {
        PutNextInv(s, t, m.sub);
      }
    case Unsubscribing(i) =>
      if m.FinishUnsubscribe? && i < |s.subs| {
        FinishUnsubscribeInv(s, t);
      }
    case ShuttingDown(todo) =>
      if m.CloseNext? && m.sub in todo && m.sub < |s.subs| {
        CloseNextInv(s, t, m.sub);
      }
  }

  lemma IdleInv(s: System, t: nat, m: Move)
    requires Inv(s) && t < |s.threads| && s.threads[t].Idle?
    ensures Inv(Step(s, t, m))
  {
    match m
    case Subscribe => SubscribeInv(s, t);
    case StartPublish =>
      if !s.shutDown {
        StartPublishInv(s, t);
      }
    case StartUnsubscribe(i) =>
      if i < |s.subs| {
        StartUnsubscribeInv(s, t, i);
      }
    case StartShutdown => StartShutdownInv(s, t);
    case OnQueue(i, op) =>
      if i < |s.subs| && !op.PutOp? {
        OnQueueInv(s, t, i, op);
      }
    case _ =>
  }

  ghost predicate Initial(s: System)
  {
    s.subs == [] && s.registered == {} && !s.shutDown && s.pubs == [] && forall t :: 0 <= t < |s.threads| ==> s.threads[t].Idle?
  }

  /** The state after a schedule: who moves, and how. */
  ghost function Run(s: System, schedule: seq<(nat, Move)>): (u: System)
    requires Initial(s)
    ensures Inv(u) && |u.threads| == |s.threads|
    decreases |schedule|
  {
    if schedule == [] then s
    else
      var before := Run(s, schedule[..|schedule| - 1]);
      var (t, m) := schedule[|schedule| - 1];
      if t < |s.threads| then
        StepInv(before, t, m);
        Step(before, t, m)
      else before
  }

  // ------------------------------------------------- registration over whole runs

  /** In state `s` the move registers subscription `i`: a subscribe before the shutdown hands it out. */
  predicate Registers(s: System, t: nat, m: Move, i: nat)
  {
    t < |s.threads| && s.threads[t].Idle? && m.Subscribe? && !s.shutDown && i == |s.subs|
  }

  /** In state `s` the move removes subscription `i`, if it is there: it unsubscribes it, or shuts down. */
  predicate Removes(s: System, t: nat, m: Move, i: nat)
  {
    && t < |s.threads| && s.threads[t].Idle?
    && ((m == StartUnsubscribe(i) && i < |s.subs|) || (m.StartShutdown? && !s.shutDown))
  }

  /** In state `s` the move takes the snapshot of publication `p`. */
  predicate Publishes(s: System, t: nat, m: Move, p: nat)
  {
    t < |s.threads| && s.threads[t].Idle? && m.StartPublish? && !s.shutDown && p == |s.pubs|
  }

  /** The state before step number `k`. */
  ghost function Before(s: System, schedule: seq<(nat, Move)>, k: nat): (u: System)
    requires Initial(s) && k <= |schedule|
    ensures Inv(u) && |u.threads| == |s.threads|
  {
    Run(s, schedule[..k])
  }

  ghost predicate RegistersAt(s: System, schedule: seq<(nat, Move)>, k: nat, i: nat)
    requires Initial(s)
  {
    k < |schedule| && Registers(Before(s, schedule, k), schedule[k].0, schedule[k].1, i)
  }

  ghost predicate RemovesAt(s: System, schedule: seq<(nat, Move)>, k: nat, i: nat)
    requires Initial(s)
  {
    k < |schedule| && Removes(Before(s, schedule, k), schedule[k].0, schedule[k].1, i)
  }

  ghost predicate PublishesAt(s: System, schedule: seq<(nat, Move)>, k: nat, p: nat)
    requires Initial(s)
  {
    k < |schedule| && Publishes(Before(s, schedule, k), schedule[k].0, schedule[k].1, p)
  }

  /** Step `k` registered subscription `i`, and no step between `k` and `n` removed it. */
  ghost predicate Holds(s: System, schedule: seq<(nat, Move)>, k: nat, n: nat, i: nat)
    requires Initial(s)
  {
    k < n && RegistersAt(s, schedule, k, i) && forall j :: k < j < n ==> !RemovesAt(s, schedule, j, i)
  }

  /** Step `n` falls between a registration of subscription `i` and its removal. */
  ghost predicate InWindow(s: System, schedule: seq<(nat, Move)>, n: nat, i: nat)
    requires Initial(s)
  {
    exists k: nat :: Holds(s, schedule, k, n, i)
  }

  lemma OneStep(s: System, schedule: seq<(nat, Move)>, n: nat)
    requires Initial(s) && n < |schedule|
    ensures var u := Before(s, schedule, n);
      Before(s, schedule, n + 1) == if schedule[n].0 < |s.threads| then Step(u, schedule[n].0, schedule[n].1) else u
  {
    assert schedule[..n + 1][..n] == schedule[..n];
  }

  /** One step changes the registry only by registering and removing. */
  lemma RegistryStep(s: System, t: nat, m: Move, i: nat)
    requires Inv(s) && t < |s.threads|
    ensures i in Step(s, t, m).registered <==> Registers(s, t, m, i) || (i in s.registered && !Removes(s, t, m, i))
  {
  }

  lemma WindowBefore(s: System, schedule: seq<(nat, Move)>, n: nat, i: nat)
    requires Initial(s) && n < |schedule| && InWindow(s, schedule, n + 1, i)
    ensures RegistersAt(s, schedule, n, i) || (InWindow(s, schedule, n, i) && !RemovesAt(s, schedule, n, i))
  {
    var k: nat :| Holds(s, schedule, k, n + 1, i);
    if k < n {
      assert Holds(s, schedule, k, n, i);
    }
  }

  lemma WindowStep(s: System, schedule: seq<(nat, Move)>, n: nat, i: nat)
    requires Initial(s) && n < |schedule|
    ensures InWindow(s, schedule, n + 1, i) <==>
            RegistersAt(s, schedule, n, i) || (InWindow(s, schedule, n, i) && !RemovesAt(s, schedule, n, i))
  {
    if InWindow(s, schedule, n + 1, i) {
      WindowBefore(s, schedule, n, i);
    }
    if RegistersAt(s, schedule, n, i) {
      assert Holds(s, schedule, n, n + 1, i);
    } else if InWindow(s, schedule, n, i) && !RemovesAt(s, schedule, n, i) {
      var k: nat :| Holds(s, schedule, k, n, i);
      assert Holds(s, schedule, k, n + 1, i);
    }
  }

  /** In every run a subscription is registered exactly between a step that registers it and the next
      one that removes it. */
  lemma {:induction false} RegisteredInWindow(s: System, schedule: seq<(nat, Move)>, n: nat, i: nat)
    requires Initial(s) && n <= |schedule|
    ensures i in Before(s, schedule, n).registered <==> InWindow(s, schedule, n, i)
  {
    if n > 0 {
      RegisteredInWindow(s, schedule, n - 1, i);
      WindowStep(s, schedule, n - 1, i);
      RegisteredStep(s, schedule, n - 1, i);
    }
  }

  lemma RegisteredStep(s: System, schedule: seq<(nat, Move)>, n: nat, i: nat)
    requires Initial(s) && n < |schedule|
    ensures i in Before(s, schedule, n + 1).registered <==>
            RegistersAt(s, schedule, n, i) || (i in Before(s, schedule, n).registered && !RemovesAt(s, schedule, n, i))
  {
    OneStep(s, schedule, n);
    if schedule[n].0 < |s.threads| {
      RegistryStep(Before(s, schedule, n), schedule[n].0, schedule[n].1, i);
    }
  }

  lemma PubsStep(s: System, t: nat, m: Move)
    requires Inv(s) && t < |s.threads|
    ensures Step(s, t, m).pubs == s.pubs + (if Publishes(s, t, m, |s.pubs|) then [Publication(t, s.registered)] else [])
  {
  }

  /** A publication is what was registered when its snapshot was taken, and stays so. */
  lemma {:induction false} TargetsOfSnapshot(s: System, schedule: seq<(nat, Move)>, k: nat, n: nat, p: nat)
    requires Initial(s) && PublishesAt(s, schedule, k, p) && k < n <= |schedule|
    ensures var u := Before(s, schedule, n);
      p < |u.pubs| && u.pubs[p] == Publication(schedule[k].0, Before(s, schedule, k).registered)
  {
    if k < n - 1 {
      TargetsOfSnapshot(s, schedule, k, n - 1, p);
    }
    PubsGrow(s, schedule, n - 1);
  }

  lemma PubsGrow(s: System, schedule: seq<(nat, Move)>, n: nat)
    requires Initial(s) && n < |schedule|
    ensures var u := Before(s, schedule, n);
      Before(s, schedule, n + 1).pubs
      == u.pubs + (if PublishesAt(s, schedule, n, |u.pubs|) then [Publication(schedule[n].0, u.registered)] else [])
  {
    OneStep(s, schedule, n);
    if schedule[n].0 < |s.threads| {
      PubsStep(Before(s, schedule, n), schedule[n].0, schedule[n].1);
    }
  }

  /** Every publication has such a step. */
  lemma {:induction false} SnapshotOf(s: System, schedule: seq<(nat, Move)>, n: nat, p: nat) returns (k: nat)
    requires Initial(s) && n <= |schedule| && p < |Before(s, schedule, n).pubs|
    ensures k < n && PublishesAt(s, schedule, k, p)
  {
    assert n > 0;
    PubsGrow(s, schedule, n - 1);
    if p < |Before(s, schedule, n - 1).pubs| {
      k := SnapshotOf(s, schedule, n - 1, p);
    } else {
      k := n - 1;
    }
  }

  /** A publication whose snapshot was taken at step `k`, and that no thread is still delivering to this
      subscription: the subscription was offered it exactly once if the snapshot fell between its
      registration and its removal, and not at all otherwise. It took the offer unless it had been
      closed before. */
  lemma DeliveredExactlyOnce(s: System, schedule: seq<(nat, Move)>, k: nat, p: nat, i: nat)
    requires Initial(s) && PublishesAt(s, schedule, k, p)
    requires var u := Run(s, schedule); p < |u.pubs| && i < |u.subs| && !Pending(u, p, i)
    ensures var x := Run(s, schedule).subs[i];
            && (Offered(x, p) <==> InWindow(s, schedule, k, i))
            && (forall j, l :: 0 <= j < |x.offers| && 0 <= l < |x.offers| && x.offers[j].pub == x.offers[l].pub == p ==> j == l)
            && (forall j :: 0 <= j < |x.offers| && x.offers[j].pub == p ==>
                 if x.offers[j].ignored then x.queue.closed else p in x.queue.accepted)
  {
    var u := Run(s, schedule);
    var x := u.subs[i];
    assert schedule[..|schedule|] == schedule;
    TargetsOfSnapshot(s, schedule, k, |schedule|, p);
    RegisteredInWindow(s, schedule, k, i);
    assert OffersInv(u, i) && QueueInv(x);
    forall j | 0 <= j < |x.offers| && x.offers[j].pub == p && !x.offers[j].ignored ensures p in x.queue.accepted {
      HeardHas(x.offers, j);
    }
  }

  lemma {:induction false} HeardHas(offers: seq<Offer>, k: nat)
    requires k < |offers| && !offers[k].ignored
    ensures offers[k].pub in Heard(offers)
    decreases |offers|
  {
    if k < |offers| - 1 {
      HeardHas(offers[..|offers| - 1], k);
    }
  }

  /** Two publications of one thread reach a subscriber in the order they were made, and what a
      subscriber accepted is what it was offered while open, in that order; once it ignores an offer
      it has been closed and ignores all later ones. */
  lemma PublisherOrderKept(s: System, schedule: seq<(nat, Move)>, i: nat, j: nat, k: nat)
    requires Initial(s) && i < |Run(s, schedule).subs|
    requires j < k < |Run(s, schedule).subs[i].offers|
    ensures var u := Run(s, schedule); var offers := u.subs[i].offers;
            && offers[j].pub < |u.pubs| && offers[k].pub < |u.pubs|
            && (u.pubs[offers[j].pub].thread == u.pubs[offers[k].pub].thread ==> offers[j].pub < offers[k].pub)
            && (offers[j].ignored ==> offers[k].ignored)
            && u.subs[i].queue.accepted == Heard(offers)
            && Faithful(u.subs[i].queue)
  {
    assert OffersInv(Run(s, schedule), i) && QueueInv(Run(s, schedule).subs[i]);
  }

  /** Once the broker is shut down nobody is registered, and every subscription ever handed out
      is closed or is being closed by a call that has not returned; when no such call is left,
      all are closed. */
  lemma ShutdownClosesAll(s: System, schedule: seq<(nat, Move)>, i: nat)
    requires Initial(s) && Run(s, schedule).shutDown && i < |Run(s, schedule).subs|
    ensures var u := Run(s, schedule);
            && u.registered == {}
            && (u.subs[i].queue.closed || exists t :: 0 <= t < |u.threads| && WillClose(u, t, i))
            && ((forall t :: 0 <= t < |u.threads| ==> !u.threads[t].Unsubscribing? && !u.threads[t].ShuttingDown?) ==>
                 u.subs[i].queue.closed)
  {
    assert Reachable(Run(s, schedule), i);
  }

  /** After the shutdown all subscriptions are closed if and only if no running call still has an open one
      to close. */
  lemma AllClosedAfterShutdown(s: System, schedule: seq<(nat, Move)>)
    requires Initial(s) && Run(s, schedule).shutDown
    ensures var u := Run(s, schedule);
      (forall i :: 0 <= i < |u.subs| ==> u.subs[i].queue.closed) <==>
      (forall t, i :: 0 <= t < |u.threads| && 0 <= i < |u.subs| && WillClose(u, t, i) ==> u.subs[i].queue.closed)
  {
    var u := Run(s, schedule);
    forall i | 0 <= i < |u.subs| && !u.subs[i].queue.closed
      ensures exists t :: 0 <= t < |u.threads| && WillClose(u, t, i)
    {
      ShutdownClosesAll(s, schedule, i);
    }
  }

  /** A `shutdown` that returns while an unsubscribe sits between removing and closing leaves
      that one subscription open for the moment. */
  lemma ShutdownCanReturnFirst(s: System) returns (schedule: seq<(nat, Move)>)
    requires Initial(s) && |s.threads| == 2
    ensures var u := Run(s, schedule);
            u.shutDown && u.threads[1].Idle? && |u.subs| == 1 && !u.subs[0].queue.closed
  {
    var first: seq<(nat, Move)> := [(0, Subscribe)];
    var second: seq<(nat, Move)> := first + [(0, StartUnsubscribe(0))];
    schedule := second + [(1, StartShutdown)];
    assert first[..0] == [] && second[..1] == first && schedule[..2] == second;
    assert Run(s, first[..0]) == s;
    assert Run(s, first) == Step(s, 0, Subscribe);
    assert Run(s, second) == Step(Run(s, first), 0, StartUnsubscribe(0));
    assert Run(s, second).registered == {};
    assert Run(s, schedule) == Step(Run(s, second), 1, StartShutdown);
  }

  /** A second `shutdown` finds the broker shut down and returns while the first is still closing. */
  lemma SecondShutdownReturnsFirst(s: System) returns (schedule: seq<(nat, Move)>)
    requires Initial(s) && |s.threads| == 2
    ensures var u := Run(s, schedule);
            u.shutDown && u.threads[1].Idle? && |u.subs| == 1 && !u.subs[0].queue.closed && WillClose(u, 0, 0)
  {
    var first: seq<(nat, Move)> := [(0, Subscribe)];
    var second: seq<(nat, Move)> := first + [(0, StartShutdown)];
    schedule := second + [(1, StartShutdown)];
    assert first[..0] == [] && second[..1] == first && schedule[..2] == second;
    assert Run(s, first[..0]) == s;
    assert Run(s, first) == Step(s, 0, Subscribe);
    assert Run(s, first).registered == {0};
    assert Run(s, second) == Step(Run(s, first), 0, StartShutdown);
    assert Run(s, schedule) == Step(Run(s, second), 1, StartShutdown);
  }

  // ------------------------------------------------- every call can finish

  /** The steps a thread still has to make in its call. */
  function Left(a: Act): nat
  {
    match a
    case Idle => 0
    case Publishing(_, todo) => |todo|
    case Unsubscribing(_) => 1
    case ShuttingDown(todo) => |todo|
  }

  /** A thread that is publishing or shutting down has something left to do. */
  predicate Busy(s: System)
  {
    forall t :: 0 <= t < |s.threads| && !s.threads[t].Idle? ==> Left(s.threads[t]) > 0
  }

  lemma {:induction false} BusyRun(s: System, schedule: seq<(nat, Move)>)
    requires Initial(s)
    ensures Busy(Run(s, schedule))
    decreases |schedule|
  {
    if schedule != [] {
      var init := schedule[..|schedule| - 1];
      var (t, m) := schedule[|schedule| - 1];
      BusyRun(s, init);
      if t < |s.threads| {
        BusyStep(Run(s, init), t, m);
      }
    }
  }

  lemma BusyStep(s: System, t: nat, m: Move)
    requires Inv(s) && t < |s.threads| && Busy(s)
    ensures Busy(Step(s, t, m))
  {
    var u := Step(s, t, m);
    forall q | 0 <= q < |u.threads| && !u.threads[q].Idle? ensures Left(u.threads[q]) > 0 {
      if q == t {
        assert u.threads[t] == s.threads[t] || u.threads[t].Unsubscribing? || SomeLeft(u.threads[t]);
      } else {
        assert u.threads[q] == s.threads[q];
      }
    }
  }

  predicate SomeLeft(a: Act)
  {
    (a.Publishing? || a.ShuttingDown?) && a.todo != {}
  }

  ghost predicate AllFaithful(s: System)
  {
    forall i :: 0 <= i < |s.subs| ==> Faithful(s.subs[i].queue)
  }

  /** Only thread `t` has moved on, by one step of its call; the other threads, the registry and the
      publications are as they were. */
  predicate OneNearer(s: System, u: System, t: nat)
    requires t < |s.threads|
  {
    && |u.threads| == |s.threads| && Left(u.threads[t]) == Left(s.threads[t]) - 1
    && u.threads == s.threads[t := u.threads[t]] && (u.threads[t].Idle? <==> Left(u.threads[t]) == 0)
    && u.pubs == s.pubs && u.registered == s.registered && u.shutDown == s.shutDown && |u.subs| == |s.subs|
  }

  lemma PublishingAdvances(s: System, t: nat, i: nat)
    requires AllFaithful(s) && t < |s.threads| && s.threads[t].Publishing? && i in s.threads[t].todo && i < |s.subs|
    ensures OneNearer(s, Step(s, t, PutNext(i)), t)
  {
  }

  lemma UnsubscribingAdvances(s: System, t: nat)
    requires AllFaithful(s) && t < |s.threads| && s.threads[t].Unsubscribing? && s.threads[t].sub < |s.subs|
    ensures OneNearer(s, Step(s, t, FinishUnsubscribe), t)
  {
  }

  lemma ShuttingDownAdvances(s: System, t: nat, i: nat)
    requires AllFaithful(s) && t < |s.threads| && s.threads[t].ShuttingDown? && i in s.threads[t].todo && i < |s.subs|
    ensures OneNearer(s, Step(s, t, CloseNext(i)), t)
  {
  }

  /** A thread in the middle of a call can always make a step that brings it nearer to the end. */
  lemma CallAdvances(s: System, t: nat) returns (m: Move)
    requires Inv(s) && Busy(s) && t < |s.threads| && !s.threads[t].Idle?
    ensures OneNearer(s, Step(s, t, m), t)
  {
    assert ThreadInv(s, t);
    FaithfulQueues(s);
    match s.threads[t]
    case Publishing(p, todo) =>
      var i :| i in todo;
      m := PutNext(i);
      PublishingAdvances(s, t, i);
    case Unsubscribing(i) =>
      m := FinishUnsubscribe;
      UnsubscribingAdvances(s, t);
    case ShuttingDown(todo) =>
      var i :| i in todo;
      m := CloseNext(i);
      ShuttingDownAdvances(s, t, i);
  }

  lemma FaithfulQueues(s: System)
    requires QueuesOk(s)
    ensures AllFaithful(s)
  {
    forall i | 0 <= i < |s.subs| ensures Faithful(s.subs[i].queue) {
      assert QueueInv(s.subs[i]);
    }
  }

  function TotalLeft(threads: seq<Act>): nat
  {
    if threads == [] then 0 else TotalLeft(threads[..|threads| - 1]) + Left(threads[|threads| - 1])
  }

  lemma {:induction false} TotalLeftAfter(threads: seq<Act>, t: nat, a: Act)
    requires t < |threads| && Left(a) < Left(threads[t])
    ensures TotalLeft(threads[t := a]) < TotalLeft(threads)
  {
    var init := threads[..|threads| - 1];
    if t < |threads| - 1 {
      TotalLeftAfter(init, t, a);
      assert threads[t := a][..|threads| - 1] == init[t := a];
    } else {
      assert threads[t := a][..|threads| - 1] == init;
    }
  }

  /** Every run can be continued, by finishing the calls under way and starting no new ones, until no call
      is left. Then every publication has been offered to all its targets, and after a shutdown every
      subscription ever handed out is closed. */
  lemma {:induction false} AllCallsCanFinish(s: System, schedule: seq<(nat, Move)>) returns (whole: seq<(nat, Move)>)
    requires Initial(s)
    ensures schedule <= whole
    ensures var u := Run(s, whole);
      && (forall t :: 0 <= t < |u.threads| ==> u.threads[t].Idle?)
      && u.pubs == Run(s, schedule).pubs && u.shutDown == Run(s, schedule).shutDown
      && (forall p, i :: 0 <= p < |u.pubs| && i in u.pubs[p].targets ==> i < |u.subs| && Offered(u.subs[i], p))
      && (u.shutDown ==> forall i :: 0 <= i < |u.subs| ==> u.subs[i].queue.closed)
    decreases TotalLeft(Run(s, schedule).threads)
  {
    var u := Run(s, schedule);
    if t :| 0 <= t < |u.threads| && !u.threads[t].Idle? {
      BusyRun(s, schedule);
      var m := CallAdvances(u, t);
      var next := schedule + [(t, m)];
      assert next[..|next| - 1] == schedule;
      assert OneNearer(u, Run(s, next), t);
      TotalLeftAfter(u.threads, t, Run(s, next).threads[t]);
      whole := AllCallsCanFinish(s, next);
    } else {
      whole := schedule;
      AllQuiet(s, schedule);
    }
  }

  lemma AllQuiet(s: System, schedule: seq<(nat, Move)>)
    requires Initial(s) && forall t :: 0 <= t < |s.threads| ==> Run(s, schedule).threads[t].Idle?
    ensures var u := Run(s, schedule);
      && (forall p, i :: 0 <= p < |u.pubs| && i in u.pubs[p].targets ==> i < |u.subs| && Offered(u.subs[i], p))
      && (u.shutDown ==> forall i :: 0 <= i < |u.subs| ==> u.subs[i].queue.closed)
  {
    var u := Run(s, schedule);
    forall p, i | 0 <= p < |u.pubs| && i in u.pubs[p].targets ensures i < |u.subs| && Offered(u.subs[i], p) {
      assert OffersInv(u, i);
    }
    if u.shutDown {
      forall i | 0 <= i < |u.subs| ensures u.subs[i].queue.closed {
        ShutdownClosesAll(s, schedule, i);
      }
    }
  }

  // ------------------------------------------------- each queue on its own

  /** What a move does to subscription `i`, as operations of the subscription. */
  function OpsOn(s: System, t: nat, m: Move, i: nat): seq<Op<nat>>
    requires t < |s.threads|
  {
    match s.threads[t]
    case Idle => if m.OnQueue? && m.sub == i && !m.op.PutOp? then [m.op] else []
    case Publishing(p, todo) => if m == PutNext(i) && i in todo then [PutOp(p)] else []
    case Unsubscribing(j) => if m.FinishUnsubscribe? && i == j then [CloseOp] else []
    case ShuttingDown(todo) => if m == CloseNext(i) && i in todo then [CloseOp] else []
  }

  lemma QueueStep(s: System, t: nat, m: Move, i: nat)
    requires Inv(s) && t < |s.threads| && i < |s.subs|
    ensures Faithful(s.subs[i].queue) && |s.subs| <= |Step(s, t, m).subs|
    ensures Step(s, t, m).subs[i].queue == PerformAll(s.subs[i].queue, OpsOn(s, t, m, i))
  {
    FaithfulQueues(s);
    SubsGrow(s, t, m);
    match s.threads[t]
    case Idle => IdleQueue(s, t, m, i);
    case Publishing(p, todo) => PublishingQueue(s, t, m, i);
    case _ => ClosingQueue(s, t, m, i);
  }

  lemma SubsGrow(s: System, t: nat, m: Move)
    requires AllFaithful(s) && t < |s.threads|
    ensures |s.subs| <= |Step(s, t, m).subs|
  {
  }

  lemma IdleQueue(s: System, t: nat, m: Move, i: nat)
    requires AllFaithful(s) && t < |s.threads| && i < |s.subs| && s.threads[t].Idle?
    ensures |s.subs| <= |Step(s, t, m).subs|
    ensures Step(s, t, m).subs[i].queue == PerformAll(s.subs[i].queue, OpsOn(s, t, m, i))
  {
    if m.OnQueue? && m.sub == i && !m.op.PutOp? {
      PerformOne(s.subs[i].queue, m.op);
    }
  }

  lemma PublishingQueue(s: System, t: nat, m: Move, i: nat)
    requires AllFaithful(s) && t < |s.threads| && i < |s.subs| && s.threads[t].Publishing?
    ensures |s.subs| <= |Step(s, t, m).subs|
    ensures Step(s, t, m).subs[i].queue == PerformAll(s.subs[i].queue, OpsOn(s, t, m, i))
  {
    PerformOne(s.subs[i].queue, PutOp(s.threads[t].pub));
  }

  lemma ClosingQueue(s: System, t: nat, m: Move, i: nat)
    requires AllFaithful(s) && t < |s.threads| && i < |s.subs|
    requires s.threads[t].Unsubscribing? || s.threads[t].ShuttingDown?
    ensures |s.subs| <= |Step(s, t, m).subs|
    ensures Step(s, t, m).subs[i].queue == PerformAll(s.subs[i].queue, OpsOn(s, t, m, i))
  {
    PerformOne(s.subs[i].queue, CloseOp);
  }

  lemma NewQueue(s: System, t: nat, m: Move, i: nat)
    requires AllFaithful(s) && t < |s.threads| && |s.subs| <= i < |Step(s, t, m).subs|
    ensures var q := Step(s, t, m).subs[i].queue; q == Fresh(s.capacity) || q == Closed(Fresh(s.capacity))
  {
  }

  lemma PerformOne(q: Queue<nat>, op: Op<nat>)
    requires Faithful(q)
    ensures PerformAll(q, [op]) == Perform(q, op)
  {
    PerformFaithful(q, op);
  }

  /** What a run does to subscription `i`, in order. */
  ghost function OpsIn(s: System, schedule: seq<(nat, Move)>, i: nat): seq<Op<nat>>
    requires Initial(s)
    decreases |schedule|
  {
    if schedule == [] then []
    else
      var init := schedule[..|schedule| - 1];
      var (t, m) := schedule[|schedule| - 1];
      OpsIn(s, init, i) + (if t < |s.threads| && i < |Run(s, init).subs| then OpsOn(Run(s, init), t, m, i) else [])
  }

  /** However the threads interleave, each subscription's queue is that of a new subscription, open or closed
      from the start, after one operation at a time. */
  lemma {:induction false} QueueIsSequential(s: System, schedule: seq<(nat, Move)>, i: nat) returns (start: Queue<nat>)
    requires Initial(s) && i < |Run(s, schedule).subs|
    ensures start == Fresh(s.capacity) || start == Closed(Fresh(s.capacity))
    ensures Faithful(start) && Run(s, schedule).subs[i].queue == PerformAll(start, OpsIn(s, schedule, i))
    decreases |schedule|
  {
    assert schedule != [];
    if i < |Run(s, schedule[..|schedule| - 1]).subs| {
      start := QueueIsSequential(s, schedule[..|schedule| - 1], i);
      OneMoreOnQueue(s, schedule, i, start);
    } else {
      start := Run(s, schedule).subs[i].queue;
      JustCreated(s, schedule, i, start);
    }
  }

  lemma JustCreated(s: System, schedule: seq<(nat, Move)>, i: nat, start: Queue<nat>)
    requires Initial(s) && schedule != []
    requires |Run(s, schedule[..|schedule| - 1]).subs| <= i < |Run(s, schedule).subs|
    requires start == Run(s, schedule).subs[i].queue
    ensures start == Fresh(s.capacity) || start == Closed(Fresh(s.capacity))
    ensures Faithful(start) && start == PerformAll(start, OpsIn(s, schedule, i))
  {
    var init := schedule[..|schedule| - 1];
    var (t, m) := schedule[|schedule| - 1];
    SameCapacity(s, init);
    FaithfulQueues(Run(s, init));
    NewQueue(Run(s, init), t, m, i);
    NothingBefore(s, init, i);
  }

  lemma OneMoreOnQueue(s: System, schedule: seq<(nat, Move)>, i: nat, start: Queue<nat>)
    requires Initial(s) && schedule != [] && Faithful(start)
    requires var init := schedule[..|schedule| - 1];
      i < |Run(s, init).subs| && Run(s, init).subs[i].queue == PerformAll(start, OpsIn(s, init, i))
    ensures i < |Run(s, schedule).subs| && Run(s, schedule).subs[i].queue == PerformAll(start, OpsIn(s, schedule, i))
  {
    var init := schedule[..|schedule| - 1];
    var (t, m) := schedule[|schedule| - 1];
    if t < |s.threads| {
      QueueStep(Run(s, init), t, m, i);
      PerformAllAdd(start, OpsIn(s, init, i), OpsOn(Run(s, init), t, m, i));
    } else {
      assert OpsIn(s, init, i) + [] == OpsIn(s, init, i);
    }
  }

  lemma {:induction false} SameCapacity(s: System, schedule: seq<(nat, Move)>)
    requires Initial(s)
    ensures Run(s, schedule).capacity == s.capacity
    decreases |schedule|
  {
    if schedule != [] {
      SameCapacity(s, schedule[..|schedule| - 1]);
    }
  }

  lemma {:induction false} NothingBefore(s: System, schedule: seq<(nat, Move)>, i: nat)
    requires Initial(s) && i >= |Run(s, schedule).subs|
    ensures OpsIn(s, schedule, i) == []
    decreases |schedule|
  {
    if schedule != [] {
      var init := schedule[..|schedule| - 1];
      var (t, m) := schedule[|schedule| - 1];
      if t < |s.threads| {
        FaithfulQueues(Run(s, init));
        SubsGrow(Run(s, init), t, m);
      }
      NothingBefore(s, init, i);
    }
  }
}
