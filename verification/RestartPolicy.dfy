/** Restart policy and accounting (sidecar-core/src/restart.rs): capped exponential backoff in
    fixed-width integers, and the attempt counter of a crash-loop window. */
module RestartPolicy {
  import opened Basics

  const U32_MAX: nat := U32 - 1
  const U64_MAX: nat := U64 - 1
  const U128_MAX: nat := 0xFFFF_FFFF_FFFF_FFFF_FFFF_FFFF_FFFF_FFFF

  function Pow2(n: nat): (p: nat)
    ensures p >= 1
  {
    if n == 0 then 1 else 2 * Pow2(n - 1)
  }

  /** Delays are the whole milliseconds of the configured durations. */
  datatype Policy = Policy(maxAttempts: nat, baseDelay: nat, maxDelay: nat)
  {
    /** Attempts are counted in 32 bits. */
    predicate Valid() { maxAttempts <= U32_MAX }

    /** The delays as far as 64 bits of milliseconds can hold them. */
    function Base(): nat { Min(baseDelay, U64_MAX) }
    function Cap(): nat { Min(maxDelay, U64_MAX) }
  }

  /** 128-bit multiplication that stops at the largest value. */
  function SaturatingMul(a: nat, b: nat): nat
  {
    Min(a * b, U128_MAX)
  }

  /** The shift-and-saturate computation. */
  function BackoffForAttempt(p: Policy, attempt: nat): nat
  {
    var exponent := Min(if attempt == 0 then 0 else attempt - 1, 63);
    var scaled := SaturatingMul(Min(p.baseDelay, U64_MAX), Pow2(exponent));
    Min(Min(scaled, p.maxDelay), U64_MAX)
  }

  /** What the backoff is meant to be: the base delay, then doubling up to the cap. */
  function Doubling(p: Policy, attempt: nat): nat
    requires attempt >= 1
  {
    if attempt == 1 then Min(p.Base(), p.Cap()) else Min(2 * Doubling(p, attempt - 1), p.Cap())
  }

  lemma {:induction false} Pow2Monotone(m: nat, n: nat)
    requires m <= n
    ensures Pow2(m) <= Pow2(n)
  {
    if m < n {
      Pow2Monotone(m, n - 1);
    }
  }

  lemma Pow2Of63()
    ensures Pow2(63) == 0x8000_0000_0000_0000
  {
    assert Pow2(16) == 0x1_0000;
    Pow2Add(16, 16);
    Pow2Add(32, 16);
    Pow2Add(48, 15);
    assert Pow2(15) == 0x8000;
  }

  lemma {:induction false} Pow2Add(m: nat, n: nat)
    ensures Pow2(m + n) == Pow2(m) * Pow2(n)
  {
    if n > 0 {
      Pow2Add(m, n - 1);
    }
  }

  lemma MulMonotone(a: nat, b: nat, c: nat)
    requires b <= c
    ensures a * b <= a * c
  {
  }

  /** The 128-bit product is never cut off. */
  lemma NeverSaturates(base: nat, exponent: nat)
    requires base <= U64_MAX && exponent <= 63
    ensures SaturatingMul(base, Pow2(exponent)) == base * Pow2(exponent)
  {
    Pow2Monotone(exponent, 63);
    Pow2Of63();
    MulMonotone(base, Pow2(exponent), Pow2(63));
  }

  lemma BackoffIs(p: Policy, attempt: nat)
    requires attempt >= 1
    ensures BackoffForAttempt(p, attempt) == Min(p.Base() * Pow2(Min(attempt - 1, 63)), p.Cap())
  {
    NeverSaturates(p.Base(), Min(attempt - 1, 63));
  }

  /** Doubling step by step is shifting all at once, as long as the shift is not limited. */
  lemma {:induction false} DoublingIs(p: Policy, attempt: nat)
    requires attempt >= 1
    ensures Doubling(p, attempt) == Min(p.Base() * Pow2(attempt - 1), p.Cap())
  {
    if attempt > 1 {
      DoublingIs(p, attempt - 1);
      assert p.Base() * Pow2(attempt - 1) == 2 * (p.Base() * Pow2(attempt - 2));
    } else {
      assert Pow2(0) == 1;
    }
  }

  /** When the limited shift of 63 is enough to reach the cap. */
  predicate ReachesCap(p: Policy)
  {
    p.Base() == 0 || p.Cap() <= p.Base() * Pow2(63)
  }

  /** The computed backoff is the doubling one for every attempt exactly when the limited shift
      reaches the cap. */
  lemma BackoffIsDoubling(p: Policy)
    ensures (forall n: nat :: n >= 1 ==> BackoffForAttempt(p, n) == Doubling(p, n)) <==> ReachesCap(p)
    ensures BackoffForAttempt(p, 0) == BackoffForAttempt(p, 1)
  {
    if ReachesCap(p) {
      forall n: nat | n >= 1 ensures BackoffForAttempt(p, n) == Doubling(p, n) {
        AgreesAt(p, n);
      }
    } else {
      var n := FallsBehind(p);
    }
  }

  /** Attempt 65 is the first at which the limited shift falls behind. */
  lemma FallsBehind(p: Policy) returns (n: nat)
    requires !ReachesCap(p)
    ensures n == 65 && BackoffForAttempt(p, n) < Doubling(p, n)
    ensures forall m: nat :: 1 <= m < n ==> BackoffForAttempt(p, m) == Doubling(p, m)
  {
    n := 65;
    forall m: nat | 1 <= m < n ensures BackoffForAttempt(p, m) == Doubling(p, m) {
      AgreesAt(p, m);
    }
    FallsBehindAt(p, n, p.Base() * Pow2(63));
  }

  lemma FallsBehindAt(p: Policy, n: nat, limited: nat)
    requires p.Base() > 0 && p.Cap() > limited && n == 65 && limited == p.Base() * Pow2(n - 2)
    ensures BackoffForAttempt(p, n) < Doubling(p, n)
  {
    assert Min(n - 1, 63) == n - 2;
    BackoffIs(p, n);
    DoublingIs(p, n);
    TwiceMore(p.Base(), n);
    MulMonotone(p.Base(), 1, Pow2(n - 2));
  }

  lemma TwiceMore(base: nat, n: nat)
    requires n >= 2
    ensures base * Pow2(n - 1) == 2 * (base * Pow2(n - 2))
  {
  }

  lemma AgreesAt(p: Policy, n: nat)
    requires n >= 1 && (n <= 64 || ReachesCap(p))
    ensures BackoffForAttempt(p, n) == Doubling(p, n)
  {
    BackoffIs(p, n);
    DoublingIs(p, n);
    if n > 64 {
      Pow2Monotone(63, n - 1);
      MulMonotone(p.Base(), Pow2(63), Pow2(n - 1));
    }
  }

  /** Only a base delay of one millisecond under a cap beyond 2^63 milliseconds is out of reach. */
  lemma OutOfReach(p: Policy)
    ensures ReachesCap(p) <==> !(p.baseDelay == 1 && p.maxDelay > 0x8000_0000_0000_0000)
  {
    Pow2Of63();
    if p.Base() >= 2 {
      MulMonotone(Pow2(63), 2, p.Base());
    }
  }

  /** Delays never fall from one attempt to the next, and never exceed the configured cap. */
  lemma BackoffMonotone(p: Policy, m: nat, n: nat)
    requires m <= n
    ensures BackoffForAttempt(p, m) <= BackoffForAttempt(p, n) <= p.maxDelay
  {
    var i, j := Min(if m == 0 then 0 else m - 1, 63), Min(if n == 0 then 0 else n - 1, 63);
    Pow2Monotone(i, j);
    MulMonotone(p.Base(), Pow2(i), Pow2(j));
  }

  // ------------------------------------------------------------------ attempt accounting

  datatype Decision = Retry(attempt: nat, after: nat) | Exhausted(attempts: nat)

  class RestartTracker {
    var attempts: nat

    constructor ()
      ensures attempts == 0
    {
      attempts := 0;
    }

    function Decide(p: Policy): Decision
      reads this
    {
      if attempts >= p.maxAttempts then Exhausted(attempts)
      else Retry(attempts + 1, BackoffForAttempt(p, attempts + 1))
    }

    /** Does not consult a policy; the counter is 32 bits wide. */
    method RecordAttempt() returns (n: nat)
      modifies this
      ensures n == attempts == (old(attempts) + 1) % U32
    {
      attempts := (attempts + 1) % U32;
      n := attempts;
    }

    method Reset()
      modifies this
      ensures attempts == 0
    {
      attempts := 0;
    }
  }

  /** What a supervisor reports to the tracker: a failure that may be retried, or a stable run. */
  datatype Event = Failure | Stable

  /** Failures since the last reset, among the first `n` events. */
  function Failures(events: seq<Event>, n: nat): nat
    requires n <= |events|
  {
    if n == 0 || events[n - 1] == Stable then 0 else Failures(events, n - 1) + 1
  }

  /** The decision a failure meets: retries are numbered 1, 2, … up to the maximum in each window,
      and every later failure is told that exactly the maximum was used up. */
  function Expected(p: Policy, failures: nat): Decision
  {
    if failures <= p.maxAttempts && failures >= 1 then Retry(failures, BackoffForAttempt(p, failures))
    else Exhausted(p.maxAttempts)
  }

  /** What an event leads to: a decision with the attempts recorded after it, or a reset. */
  datatype Entry = Decided(decision: Decision, attempts: nat) | WasReset

  function EntryAt(p: Policy, events: seq<Event>, k: nat): Entry
    requires k < |events|
  {
    if events[k] == Stable then WasReset
    else Decided(Expected(p, Failures(events, k + 1)), Min(Failures(events, k + 1), p.maxAttempts))
  }

  /** Failures in a row after a stable run, or from the start, are what `Failures` counts. */
  lemma {:induction false} FailuresInARow(events: seq<Event>, n: nat, row: nat)
    requires row <= n <= |events| && forall j :: n - row <= j < n ==> events[j] == Failure
    requires n > row ==> events[n - row - 1] == Stable
    ensures Failures(events, n) == row
  {
    if row > 0 {
      FailuresInARow(events, n - 1, row - 1);
    }
  }

  /** A failure is retried exactly if it is among the first `maxAttempts` in a row; the retry carries its number
      and the doubling delay, or what is left of it where the limited shift falls behind. Later failures are
      told that all attempts are used up. */
  lemma RetriedWithinMaximum(p: Policy, events: seq<Event>, k: nat, row: nat)
    requires k < |events| && row <= k && forall j :: k - row <= j <= k ==> events[j] == Failure
    requires k - row > 0 ==> events[k - row - 1] == Stable
    ensures EntryAt(p, events, k) ==
      if row < p.maxAttempts then Decided(Retry(row + 1, BackoffForAttempt(p, row + 1)), row + 1)
      else Decided(Exhausted(p.maxAttempts), p.maxAttempts)
    ensures ReachesCap(p) || row < 64 ==> BackoffForAttempt(p, row + 1) == Doubling(p, row + 1)
  {
    FailuresInARow(events, k + 1, row + 1);
    if ReachesCap(p) || row < 64 {
      AgreesAt(p, row + 1);
    }
  }

  /** One failure: an attempt is recorded only after a `Retry` decision. */
  method Fail(tracker: RestartTracker, p: Policy, ghost failures: nat) returns (entry: Entry)
    requires p.Valid() && tracker.attempts == Min(failures, p.maxAttempts)
    modifies tracker
    ensures tracker.attempts == Min(failures + 1, p.maxAttempts)
    ensures entry == Decided(Expected(p, failures + 1), tracker.attempts)
  {
    var decision := tracker.Decide(p);
    if decision.Retry? {
      var n := tracker.RecordAttempt();
    }
    entry := Decided(decision, tracker.attempts);
  }

  /** A caller that records an attempt only after a `Retry` decision, whatever happens when. The
      counter stays within the policy's maximum, so it never overflows. */
  method Supervise(p: Policy, events: seq<Event>) returns (log: seq<Entry>)
    requires p.Valid()
    ensures |log| == |events|
    ensures forall k :: 0 <= k < |events| ==> log[k] == EntryAt(p, events, k)
  {
    var tracker := new RestartTracker();
    log := [];
    for k := 0 to |events|
      invariant |log| == k
      invariant tracker.attempts == Min(Failures(events, k), p.maxAttempts)
      invariant forall j :: 0 <= j < k ==> log[j] == EntryAt(p, events, j)
    {
      var entry := WasReset;
      if events[k] == Stable {
        tracker.Reset();
      } else {
        entry := Fail(tracker, p, Failures(events, k));
      }
      assert entry == EntryAt(p, events, k);
      log := log + [entry];
    }
  }
}
