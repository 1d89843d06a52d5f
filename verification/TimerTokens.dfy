/** Single-use timer tokens (sidecar-core/src/restart.rs): schedules that refuse a second pending
    restart, stability windows that supersede it, and the process-wide counters behind them. */
module TimerTokens {
  import opened Basics

  /** A process-wide counter, shared by all objects of one kind. */
  class TokenCounter {
    var next: nat

    constructor ()
      ensures next == 1
    {
      next := 1;
    }

    method FetchAdd() returns (token: nat)
      modifies this
      ensures token == old(next) && next == (old(next) + 1) % U64
    {
      token := next;
      next := (next + 1) % U64;
    }
  }

  datatype Pending = Pending(token: nat, attempt: nat)

  class RestartSchedule {
    var pending: Option<Pending>

    constructor ()
      ensures pending == None
    {
      pending := None;
    }

    /** Refused while a restart is pending. */
    method TryBegin(counter: TokenCounter, attempt: nat) returns (token: Option<nat>)
      modifies this, counter
      ensures if old(pending).Some?
              then token == None && pending == old(pending) && counter.next == old(counter.next)
              else token == Some(old(counter.next)) && pending == Some(Pending(old(counter.next), attempt))
                   && counter.next == (old(counter.next) + 1) % U64
    {
      if pending.Some? {
        return None;
      }
      var t := counter.FetchAdd();
      pending := Some(Pending(t, attempt));
      token := Some(t);
    }

    method Consume(token: nat) returns (accepted: bool)
      modifies this
      ensures accepted == (old(pending).Some? && old(pending).value.token == token)
      ensures pending == if accepted then None else old(pending)
    {
      accepted := pending.Some? && pending.value.token == token;
      if accepted {
        pending := None;
      }
    }

    method Cancel()
      modifies this
      ensures pending == None
    {
      pending := None;
    }
  }

  class StabilityWindow {
    var pending: Option<nat>

    constructor ()
      ensures pending == None
    {
      pending := None;
    }

    /** Never refused: the window begun before, if still pending, is superseded. */
    method Begin(counter: TokenCounter) returns (token: nat)
      modifies this, counter
      ensures token == old(counter.next) && pending == Some(token) && counter.next == (old(counter.next) + 1) % U64
    {
      token := counter.FetchAdd();
      pending := Some(token);
    }

    method Confirm(token: nat) returns (accepted: bool)
      modifies this
      ensures accepted == (old(pending) == Some(token))
      ensures pending == if accepted then None else old(pending)
    {
      accepted := pending == Some(token);
      if accepted {
        pending := None;
      }
    }

    method Cancel()
      modifies this
      ensures pending == None
    {
      pending := None;
    }
  }

  // ------------------------------------------------------------------ runs over many objects

  /** A call on object number `who`; `Present` is `consume` or `confirm`. */
  datatype Call = Begin(who: nat) | Present(who: nat, token: nat) | Cancel(who: nat)

  datatype Reply = Issued(token: nat) | Refused | Accepted | Ignored | Done

  /** The counter and what is pending in each object; whether a new begin supersedes is what the
      two kinds of objects differ in. */
  datatype Slots = Slots(supersedes: bool, next: nat, pending: seq<Option<nat>>)
  {
    function Pending(who: nat): Option<nat> { if who < |pending| then pending[who] else None }
  }

  /** What one object answers, and what it has pending afterwards. */
  function AnswerOne(supersedes: bool, pending: Option<nat>, next: nat, c: Call): Reply
  {
    match c
    case Begin(_) => if pending.Some? && !supersedes then Refused else Issued(next)
    case Present(_, token) => if pending == Some(token) then Accepted else Ignored
    case Cancel(_) => Done
  }

  function PendingAfter(pending: Option<nat>, reply: Reply): Option<nat>
  {
    match reply
    case Issued(token) => Some(token)
    case Accepted => None
    case Done => None
    case _ => pending
  }

  function Answer(s: Slots, c: Call): Reply
  {
    AnswerOne(s.supersedes, s.Pending(c.who), s.next, c)
  }

  function Next(s: Slots, c: Call): Slots
  {
    var reply := Answer(s, c);
    s.(next := if reply.Issued? then (reply.token + 1) % U64 else s.next,
       pending := if c.who < |s.pending| then s.pending[c.who := PendingAfter(s.pending[c.who], reply)] else s.pending)
  }

  /** `count` objects, nothing pending yet. */
  function Fresh(supersedes: bool, count: nat): Slots
  {
    Slots(supersedes, 1, seq(count, _ => None))
  }

  predicate InRange(calls: seq<Call>, count: nat)
  {
    forall k :: 0 <= k < |calls| ==> calls[k].who < count
  }

  function After(s: Slots, calls: seq<Call>, n: nat): (r: Slots)
    requires n <= |calls|
    ensures |r.pending| == |s.pending| && r.supersedes == s.supersedes
  {
    if n == 0 then s else Next(After(s, calls, n - 1), calls[n - 1])
  }

  function ReplyTo(s: Slots, calls: seq<Call>, n: nat): Reply
    requires n < |calls|
  {
    Answer(After(s, calls, n), calls[n])
  }

  /** What one call does to the table. */
  lemma AfterCall(s: Slots, calls: seq<Call>, k: nat)
    requires k < |calls| && calls[k].who < |s.pending|
    ensures var t, u := After(s, calls, k), After(s, calls, k + 1); var c, reply := calls[k], ReplyTo(s, calls, k);
      && reply == AnswerOne(s.supersedes, t.pending[c.who], t.next, c)
      && u.next == (if reply.Issued? then (reply.token + 1) % U64 else t.next)
      && u.pending == t.pending[c.who := PendingAfter(t.pending[c.who], reply)]
  {
  }

  /** The schedules of a process play any calls the way the table of slots does. */
  method PlaySchedules(schedules: seq<RestartSchedule>, counter: TokenCounter, calls: seq<Call>, attempt: nat)
    returns (replies: seq<Reply>)
    requires forall i, j :: 0 <= i < j < |schedules| ==> schedules[i] != schedules[j]
    requires forall i :: 0 <= i < |schedules| ==> schedules[i].pending == None
    requires counter.next == 1 && InRange(calls, |schedules|)
    modifies schedules, counter
    ensures |replies| == |calls|
    ensures forall k :: 0 <= k < |calls| ==> replies[k] == ReplyTo(Fresh(false, |schedules|), calls, k)
  {
    replies := [];
    ghost var start := Fresh(false, |schedules|);
    for k := 0 to |calls|
      invariant |replies| == k
      invariant forall j :: 0 <= j < k ==> replies[j] == ReplyTo(start, calls, j)
      invariant counter.next == After(start, calls, k).next
      invariant forall i :: 0 <= i < |schedules| ==>
                  TokenOf(schedules[i].pending) == After(start, calls, k).pending[i]
    {
      AfterCall(start, calls, k);
      var reply := CallSchedule(schedules[calls[k].who], counter, calls[k], attempt);
      replies := replies + [reply];
    }
  }

  function TokenOf(p: Option<Pending>): Option<nat>
  {
    if p.Some? then Some(p.value.token) else None
  }

  method CallSchedule(s: RestartSchedule, counter: TokenCounter, c: Call, attempt: nat) returns (reply: Reply)
    modifies s, counter
    ensures reply == AnswerOne(false, old(TokenOf(s.pending)), old(counter.next), c)
    ensures TokenOf(s.pending) == PendingAfter(old(TokenOf(s.pending)), reply)
    ensures counter.next == if reply.Issued? then (reply.token + 1) % U64 else old(counter.next)
  {
    match c {
      case Begin(_) =>
        var t := s.TryBegin(counter, attempt);
        reply := if t.Some? then Issued(t.value) else Refused;
      case Present(_, token) =>
        var accepted := s.Consume(token);
        reply := if accepted then Accepted else Ignored;
      case Cancel(_) =>
        s.Cancel();
        reply := Done;
    }
  }

  method CallWindow(w: StabilityWindow, counter: TokenCounter, c: Call) returns (reply: Reply)
    modifies w, counter
    ensures reply == AnswerOne(true, old(w.pending), old(counter.next), c)
    ensures w.pending == PendingAfter(old(w.pending), reply)
    ensures counter.next == if reply.Issued? then (reply.token + 1) % U64 else old(counter.next)
  {
    match c {
      case Begin(_) =>
        var t := w.Begin(counter);
        reply := Issued(t);
      case Present(_, token) =>
        var accepted := w.Confirm(token);
        reply := if accepted then Accepted else Ignored;
      case Cancel(_) =>
        w.Cancel();
        reply := Done;
    }
  }

  method PlayWindows(windows: seq<StabilityWindow>, counter: TokenCounter, calls: seq<Call>)
    returns (replies: seq<Reply>)
    requires forall i, j :: 0 <= i < j < |windows| ==> windows[i] != windows[j]
    requires forall i :: 0 <= i < |windows| ==> windows[i].pending == None
    requires counter.next == 1 && InRange(calls, |windows|)
    modifies windows, counter
    ensures |replies| == |calls|
    ensures forall k :: 0 <= k < |calls| ==> replies[k] == ReplyTo(Fresh(true, |windows|), calls, k)
  {
    replies := [];
    ghost var start := Fresh(true, |windows|);
    for k := 0 to |calls|
      invariant |replies| == k
      invariant forall j :: 0 <= j < k ==> replies[j] == ReplyTo(start, calls, j)
      invariant counter.next == After(start, calls, k).next
      invariant forall i :: 0 <= i < |windows| ==> windows[i].pending == After(start, calls, k).pending[i]
    {
      AfterCall(start, calls, k);
      var reply := CallWindow(windows[calls[k].who], counter, calls[k]);
      replies := replies + [reply];
    }
  }

  // ------------------------------------------------------------------ what tokens are good for

  /** Call number `i` began something on `who` and was given `token`. */
  ghost predicate Begun(s: Slots, calls: seq<Call>, i: nat, who: nat, token: nat)
  {
    i < |calls| && calls[i] == Begin(who) && ReplyTo(s, calls, i) == Issued(token)
  }

  /** Between calls `i` and `n` nothing on `who` was begun, accepted or cancelled. */
  ghost predicate Quiet(s: Slots, calls: seq<Call>, i: nat, n: nat, who: nat)
    requires n <= |calls|
  {
    forall k :: i < k < n && calls[k].who == who ==> ReplyTo(s, calls, k) in {Refused, Ignored}
  }

  ghost predicate OpenAt(s: Slots, calls: seq<Call>, i: nat, n: nat, who: nat, token: nat)
    requires n <= |calls|
  {
    i < n && Begun(s, calls, i, who, token) && Quiet(s, calls, i, n, who)
  }

  ghost predicate SomeOpen(s: Slots, calls: seq<Call>, n: nat, who: nat, token: nat)
    requires n <= |calls|
  {
    exists i: nat :: OpenAt(s, calls, i, n, who, token)
  }

  /** What is pending is what was begun last and neither accepted nor cancelled since. */
  lemma {:induction false} PendingIsOpen(s: Slots, calls: seq<Call>, n: nat, who: nat, token: nat)
    requires n <= |calls| && InRange(calls, |s.pending|) && (who < |s.pending| ==> s.pending[who] == None)
    ensures After(s, calls, n).Pending(who) == Some(token) <==> SomeOpen(s, calls, n, who, token)
  {
    if n > 0 {
      PendingIsOpen(s, calls, n - 1, who, token);
      PendingStep(s, calls, n, who, token);
    }
  }

  lemma PendingStep(s: Slots, calls: seq<Call>, n: nat, who: nat, token: nat)
    requires 0 < n <= |calls| && InRange(calls, |s.pending|)
    requires After(s, calls, n - 1).Pending(who) == Some(token) <==> SomeOpen(s, calls, n - 1, who, token)
    ensures After(s, calls, n).Pending(who) == Some(token) <==> SomeOpen(s, calls, n, who, token)
  {
    var reply := ReplyTo(s, calls, n - 1);
    if calls[n - 1].who == who && reply !in {Refused, Ignored} {
      if reply == Issued(token) {
        assert OpenAt(s, calls, n - 1, n, who, token);
      }
      if SomeOpen(s, calls, n, who, token) {
        var i: nat :| OpenAt(s, calls, i, n, who, token);
        assert i == n - 1;
      }
    } else {
      assert After(s, calls, n).Pending(who) == After(s, calls, n - 1).Pending(who);
      if SomeOpen(s, calls, n, who, token) {
        var i: nat :| OpenAt(s, calls, i, n, who, token);
        StaysOpen(s, calls, i, n, who, token);
      }
      if SomeOpen(s, calls, n - 1, who, token) {
        var i: nat :| OpenAt(s, calls, i, n - 1, who, token);
        StaysOpen(s, calls, i, n, who, token);
      }
    }
  }

  lemma StaysOpen(s: Slots, calls: seq<Call>, i: nat, n: nat, who: nat, token: nat)
    requires 0 < n <= |calls|
    requires calls[n - 1].who == who ==> ReplyTo(s, calls, n - 1) in {Refused, Ignored}
    ensures OpenAt(s, calls, i, n, who, token) <==> OpenAt(s, calls, i, n - 1, who, token)
  {
  }

  /** A presented token is accepted exactly if it was issued by that object in its last begin and
      nothing has accepted, cancelled or superseded it since. */
  lemma AcceptedIffOpen(supersedes: bool, count: nat, calls: seq<Call>, n: nat)
    requires n < |calls| && InRange(calls, count) && calls[n].Present?
    ensures var s := Fresh(supersedes, count);
      ReplyTo(s, calls, n) == Accepted <==> SomeOpen(s, calls, n, calls[n].who, calls[n].token)
  {
    PendingIsOpen(Fresh(supersedes, count), calls, n, calls[n].who, calls[n].token);
  }

  /** Tokens issued before call `n`. */
  function IssuedBefore(s: Slots, calls: seq<Call>, n: nat): nat
    requires n <= |calls|
  {
    if n == 0 then 0 else IssuedBefore(s, calls, n - 1) + (if ReplyTo(s, calls, n - 1).Issued? then 1 else 0)
  }

  lemma {:induction false} CounterIs(s: Slots, calls: seq<Call>, n: nat)
    requires n <= |calls| && s.next < U64
    ensures After(s, calls, n).next == (s.next + IssuedBefore(s, calls, n)) % U64
  {
    if n > 0 {
      CounterIs(s, calls, n - 1);
      OneMore(s.next + IssuedBefore(s, calls, n - 1));
    }
  }

  /** A begin is answered with the next token in turn, counting from 1, and refused exactly if its object does
      not supersede and has a token open. */
  lemma BeginReply(supersedes: bool, count: nat, calls: seq<Call>, n: nat)
    requires n < |calls| && InRange(calls, count) && calls[n].Begin?
    ensures var s := Fresh(supersedes, count); var open := exists token: nat :: SomeOpen(s, calls, n, calls[n].who, token);
      ReplyTo(s, calls, n) == if open && !supersedes then Refused else Issued((1 + IssuedBefore(s, calls, n)) % U64)
  {
    CounterIs(Fresh(supersedes, count), calls, n);
    PendingIffOpen(Fresh(supersedes, count), calls, n, calls[n].who);
  }

  lemma PendingIffOpen(s: Slots, calls: seq<Call>, n: nat, who: nat)
    requires n <= |calls| && InRange(calls, |s.pending|) && (who < |s.pending| ==> s.pending[who] == None)
    ensures After(s, calls, n).Pending(who).Some? <==> exists token: nat :: SomeOpen(s, calls, n, who, token)
  {
    var pending := After(s, calls, n).Pending(who);
    if pending.Some? {
      PendingIsOpen(s, calls, n, who, pending.value);
    }
    if token: nat :| SomeOpen(s, calls, n, who, token) {
      PendingIsOpen(s, calls, n, who, token);
    }
  }

  lemma {:induction false} IssuedMonotone(s: Slots, calls: seq<Call>, m: nat, n: nat)
    requires m <= n <= |calls|
    ensures IssuedBefore(s, calls, m) <= IssuedBefore(s, calls, n)
  {
    if m < n {
      IssuedMonotone(s, calls, m, n - 1);
    }
  }

  /** Until the counter comes round, no token is issued twice, to whichever objects. */
  lemma TokensAreUnique(s: Slots, calls: seq<Call>, i: nat, j: nat, who: nat, other: nat, token: nat)
    requires s.next < U64 && IssuedBefore(s, calls, |calls|) <= U64
    requires Begun(s, calls, i, who, token) && Begun(s, calls, j, other, token)
    ensures i == j && who == other
  {
    CounterIs(s, calls, i);
    CounterIs(s, calls, j);
    if i < j {
      IssuedBetween(s, calls, i, j, who, token);
    } else if j < i {
      IssuedBetween(s, calls, j, i, other, token);
    }
  }

  lemma IssuedBetween(s: Slots, calls: seq<Call>, i: nat, j: nat, who: nat, token: nat)
    requires i < j < |calls| && IssuedBefore(s, calls, |calls|) <= U64
    requires Begun(s, calls, i, who, token) && ReplyTo(s, calls, j).Issued?
    ensures (s.next + IssuedBefore(s, calls, i)) % U64 != (s.next + IssuedBefore(s, calls, j)) % U64
  {
    IssuedMore(s, calls, i, j);
    IssuedMore(s, calls, j, |calls|);
    SameResidue(s.next + IssuedBefore(s, calls, i), s.next + IssuedBefore(s, calls, j));
  }

  /** An issued token counts from the next call on. */
  lemma IssuedMore(s: Slots, calls: seq<Call>, i: nat, n: nat)
    requires i < n <= |calls| && ReplyTo(s, calls, i).Issued?
    ensures IssuedBefore(s, calls, i) < IssuedBefore(s, calls, n)
  {
    IssuedMonotone(s, calls, i + 1, n);
  }

  lemma SameResidue(a: nat, b: nat)
    requires a < b < a + U64
    ensures a % U64 != b % U64
  {
  }

  lemma OneMore(a: nat)
    ensures (a % U64 + 1) % U64 == (a + 1) % U64
  {
  }

  /** An accepted token was issued earlier, and only by the object that accepts it. */
  lemma AcceptedByIssuer(supersedes: bool, count: nat, calls: seq<Call>, k: nat, i: nat, who: nat)
    requires var s := Fresh(supersedes, count);
      && k < |calls| && InRange(calls, count) && IssuedBefore(s, calls, |calls|) <= U64
      && calls[k].Present? && ReplyTo(s, calls, k) == Accepted && Begun(s, calls, i, who, calls[k].token)
    ensures i < k && calls[k].who == who
    ensures Quiet(Fresh(supersedes, count), calls, i, k, who)
  {
    var s := Fresh(supersedes, count);
    AcceptedIffOpen(supersedes, count, calls, k);
    var o :| OpenAt(s, calls, o, k, calls[k].who, calls[k].token);
    TokensAreUnique(s, calls, i, o, who, calls[k].who, calls[k].token);
  }

  /** Each token is accepted at most once, whoever presents it where. */
  lemma AcceptedOnce(supersedes: bool, count: nat, calls: seq<Call>, j: nat, k: nat)
    requires var s := Fresh(supersedes, count);
      && j < k < |calls| && InRange(calls, count) && IssuedBefore(s, calls, |calls|) <= U64
      && calls[j].Present? && calls[k].Present?
      && ReplyTo(s, calls, j) == Accepted && ReplyTo(s, calls, k) == Accepted
    ensures calls[j].token != calls[k].token
  {
    if calls[j].token == calls[k].token {
      var s := Fresh(supersedes, count);
      AcceptedIffOpen(supersedes, count, calls, j);
      var i :| OpenAt(s, calls, i, j, calls[j].who, calls[j].token);
      AcceptedByIssuer(supersedes, count, calls, k, i, calls[j].who);
    }
  }

  /** A token is dead once its object was cancelled or began anew. */
  lemma NeverAfterCancelOrBegin(supersedes: bool, count: nat, calls: seq<Call>, i: nat, c: nat, k: nat, who: nat)
    requires var s := Fresh(supersedes, count);
      && i < c < k < |calls| && InRange(calls, count) && IssuedBefore(s, calls, |calls|) <= U64
      && calls[k].Present? && Begun(s, calls, i, who, calls[k].token)
      && (calls[c] == Cancel(who) || (calls[c] == Begin(who) && ReplyTo(s, calls, c).Issued?))
    ensures ReplyTo(Fresh(supersedes, count), calls, k) == Ignored
  {
    var s := Fresh(supersedes, count);
    if ReplyTo(s, calls, k) == Accepted {
      AcceptedByIssuer(supersedes, count, calls, k, i, who);
    }
  }
}
