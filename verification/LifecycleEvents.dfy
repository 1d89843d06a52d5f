/** Numbering of the lifecycle events (src-tauri/src/events.rs): one sequence shared by all events
    and a generation that counts launches, both fixed-width counters that wrap. */
module LifecycleEvents {
  import opened Basics
  import opened Lifecycle

  datatype Notice = Changed(previous: State, current: State) | RestartScheduled | RestartExhausted
  {
    predicate IsLaunch() { this == Changed(NotStarted, Starting) }
  }

  /** What a frontend can order events by; only state changes carry a generation. */
  datatype Payload = StateChanged(state: State, previousState: State, sequence: nat, generation: nat)
                   | Restart(sequence: nat)

  class EventSequencer {
    var sequence: nat
    var generation: nat

    constructor ()
      ensures sequence == 0 && generation == 0
    {
      sequence, generation := 0, 0;
    }

    method NextSequence() returns (s: nat)
      modifies this`sequence
      ensures s == sequence == (old(sequence) + 1) % U64
    {
      sequence := (sequence + 1) % U64;
      s := sequence;
    }

    method BumpGeneration()
      modifies this`generation
      ensures generation == (old(generation) + 1) % U32
    {
      generation := (generation + 1) % U32;
    }

    function CurrentGeneration(): nat
      reads this
    {
      Clamped(generation)
    }

    method Build(notice: Notice) returns (p: Payload)
      modifies this
      ensures sequence == (old(sequence) + 1) % U64
      ensures generation == if notice.IsLaunch() then (old(generation) + 1) % U32 else old(generation)
      ensures p == match notice
        case Changed(previous, current) => StateChanged(current, previous, sequence, CurrentGeneration())
        case _ => Restart(sequence)
    {
      match notice {
        case Changed(previous, current) =>
          if previous == NotStarted && current == Starting {
            BumpGeneration();
          }
          var s := NextSequence();
          p := StateChanged(current, previous, s, CurrentGeneration());
        case _ =>
          var s := NextSequence();
          p := Restart(s);
      }
    }
  }

  // ------------------------------------------------------------------ streams of events

  /** Launches among the first `n` notices. */
  function LaunchesIn(notices: seq<Notice>, n: nat): nat
    requires n <= |notices|
  {
    if n == 0 then 0 else LaunchesIn(notices, n - 1) + (if notices[n - 1].IsLaunch() then 1 else 0)
  }

  /** The state reported last. */
  function After(notices: seq<Notice>, n: nat): State
    requires n <= |notices|
  {
    if n == 0 then NotStarted else if notices[n - 1].Changed? then notices[n - 1].current else After(notices, n - 1)
  }

  /** The state changes among the notices are the steps of one lifecycle; restart notices come
      anywhere between. */
  ghost predicate Lawful(notices: seq<Notice>)
  {
    forall k :: 0 <= k < |notices| && notices[k].Changed? ==>
      notices[k].previous == After(notices, k) && notices[k].previous.CanBecome(notices[k].current)
  }

  /** The notices a lifecycle's own history gives. */
  ghost function NoticesOf(h: seq<State>): seq<Notice>
    requires h != []
  {
    seq(|h| - 1, i requires 0 <= i < |h| - 1 => Changed(h[i], h[i + 1]))
  }

  lemma HistoryIsLawful(h: seq<State>)
    requires IsHistory(h)
    ensures Lawful(NoticesOf(h))
  {
    forall k | 0 <= k < |NoticesOf(h)| ensures After(NoticesOf(h), k) == h[k] && h[k].CanBecome(h[k + 1]) {
    }
  }

  lemma {:induction false} NotLaunchedYet(notices: seq<Notice>, n: nat)
    requires Lawful(notices) && n <= |notices|
    ensures LaunchesIn(notices, n) == 0 ==> After(notices, n) == NotStarted
  {
    if n > 0 {
      NotLaunchedYet(notices, n - 1);
      if notices[n - 1].Changed? {
        assert notices[n - 1].previous == After(notices, n - 1);
      }
    }
  }

  /** Every state change comes with or after a launch. */
  lemma ChangeFollowsLaunch(notices: seq<Notice>, k: nat)
    requires Lawful(notices) && k < |notices| && notices[k].Changed?
    ensures LaunchesIn(notices, k + 1) >= 1
  {
    NotLaunchedYet(notices, k);
  }

  function Clamped(generation: nat): nat { if generation > 1 then generation else 1 }

  /** The payload of the `k`-th notice of a new sequencer, with the counters wrapped. */
  function Numbered(notices: seq<Notice>, k: nat): Payload
    requires k < |notices|
  {
    var sequence, generation := (k + 1) % U64, LaunchesIn(notices, k + 1) % U32;
    match notices[k]
    case Changed(previous, current) => StateChanged(current, previous, sequence, Clamped(generation))
    case _ => Restart(sequence)
  }

  method Emit(notices: seq<Notice>) returns (payloads: seq<Payload>)
    ensures |payloads| == |notices|
    ensures forall k :: 0 <= k < |notices| ==> payloads[k] == Numbered(notices, k)
  {
    var sequencer := new EventSequencer();
    payloads := [];
    for k := 0 to |notices|
      invariant sequencer.sequence == k % U64 && sequencer.generation == LaunchesIn(notices, k) % U32
      invariant |payloads| == k
      invariant forall j :: 0 <= j < k ==> payloads[j] == Numbered(notices, j)
    {
      var p := sequencer.Build(notices[k]);
      payloads := payloads + [p];
    }
  }

  /** Until a counter wraps, the events of one lifecycle are numbered 1, 2, 3, …, and each state change
      carries the number of launches so far, which is never 0: the lower bound of 1 never bites. It names the
      states before and after it. */
  lemma NumbersAreExact(notices: seq<Notice>, k: nat)
    requires Lawful(notices) && k < |notices|
    ensures k + 1 < U64 ==> Numbered(notices, k).sequence == k + 1
    ensures notices[k].Changed? && LaunchesIn(notices, k + 1) < U32 ==>
            Numbered(notices, k).generation == LaunchesIn(notices, k + 1) >= 1
    ensures notices[k].Changed? ==>
              && Numbered(notices, k).state == After(notices, k + 1)
              && Numbered(notices, k).previousState == After(notices, k)
  {
    if notices[k].Changed? {
      ChangeFollowsLaunch(notices, k);
    }
  }

  /** Below 2^64 events no two share a sequence number, and 2^64 later the number comes back. */
  lemma SequenceRepeats(notices: seq<Notice>, j: nat, k: nat)
    requires j < k < |notices|
    ensures Numbered(notices, j).sequence == Numbered(notices, k).sequence <==> (k - j) % U64 == 0
  {
    assert (j + 1) % U64 == (k + 1) % U64 <==> (k - j) % U64 == 0;
  }
}
