/** Threat-intelligence enrichment (app/threat_intel/service.py): four category loops with an
    early stop and remainders computed by hand, against one pass over all indicators. */
module Enrichment {
  import opened Basics

  datatype Kind = Hash | Ip | Domain | Url

  /** A provider record with its verdict attached. */
  type Record = string

  /** How one lookup ends. A value is rejected as invalid for some kind; `Unexpected` is any
      exception that none of the loops handles. */
  datatype Lookup = Hit(record: Record) | Invalid(kind: Kind) | Transient | RateLimited | KeyRejected | Unexpected

  /** A lookup asks for one value of one kind. */
  type Question = (Kind, string)

  /** The provider. How it answers is fixed but unknown, and may differ from one time to the next; the log
      holds every question it was ever asked. */
  class Provider {
    const answer: (nat, Question) -> Lookup
    var calls: nat
    ghost var log: seq<Question>

    constructor (answer: (nat, Question) -> Lookup)
      ensures Valid() && this.answer == answer && log == []
    {
      this.answer, calls, log := answer, 0, [];
    }

    ghost predicate Valid()
      reads this
    {
      calls == |log|
    }

    method LookUp(kind: Kind, value: string) returns (outcome: Lookup)
      requires Valid()
      modifies this
      ensures Valid() && log == old(log) + [(kind, value)] && outcome == answer(old(calls), (kind, value))
    {
      outcome := answer(calls, (kind, value));
      calls := calls + 1;
      log := log + [(kind, value)];
    }
  }

  /** The outcomes of the lookups of all values in turn, were they all made. */
  type Outcomes = seq<Lookup>

  function At(calls: Outcomes, k: nat): Lookup { if k < |calls| then calls[k] else Unexpected }

  // ------------------------------------------------- one pass over all indicators

  datatype Ending = Completed | RateLimit | BadKey | Raise

  /** How an outcome ends the pass, if it does, where a value of this kind is looked up: an
      exception that is not handled there propagates. */
  function EndingOf(kind: Kind, outcome: Lookup): Ending
  {
    match outcome
    case RateLimited => RateLimit
    case KeyRejected => BadKey
    case Unexpected => Raise
    case Invalid(k) => if k == kind then Completed else Raise
    case _ => Completed
  }

  predicate Stops(kind: Kind, outcome: Lookup)
  {
    EndingOf(kind, outcome) != Completed
  }

  /** The records found by lookups `lo` up to `hi`, in order. */
  function Records(calls: Outcomes, lo: nat, hi: nat): (rs: seq<Record>)
  {
    if hi <= lo then []
    else Records(calls, lo, hi - 1) + (if At(calls, hi - 1).Hit? then [At(calls, hi - 1).record] else [])
  }

  /** How many of the lookups `lo` up to `hi` timed out, lost the connection or made no sense. */
  function Transients(calls: Outcomes, lo: nat, hi: nat): nat
  {
    if hi <= lo then 0 else Transients(calls, lo, hi - 1) + (if At(calls, hi - 1).Transient? then 1 else 0)
  }

  function Invalids(calls: Outcomes, lo: nat, hi: nat): nat
  {
    if hi <= lo then 0 else Invalids(calls, lo, hi - 1) + (if At(calls, hi - 1).Invalid? then 1 else 0)
  }

  lemma {:induction false} RangesAdd(calls: Outcomes, lo: nat, mid: nat, hi: nat)
    requires lo <= mid <= hi
    ensures Records(calls, lo, hi) == Records(calls, lo, mid) + Records(calls, mid, hi)
    ensures Transients(calls, lo, hi) == Transients(calls, lo, mid) + Transients(calls, mid, hi)
    ensures Invalids(calls, lo, hi) == Invalids(calls, lo, mid) + Invalids(calls, mid, hi)
  {
    if mid < hi {
      RangesAdd(calls, lo, mid, hi - 1);
    }
  }

  /** How many indicators of each kind were extracted; they are looked up in this order. */
  datatype Request = Request(hashes: nat, ips: nat, domains: nat, urls: nat)
  {
    function Total(): nat { hashes + ips + domains + urls }
    function FirstDomain(): nat { hashes + ips }
    function FirstUrl(): nat { hashes + ips + domains }

    /** The values of one kind are those from `First` up to `Last`. */
    function First(kind: Kind): nat
    {
      match kind case Hash => 0 case Ip => hashes case Domain => FirstDomain() case Url => FirstUrl()
    }

    function Last(kind: Kind): nat
    {
      match kind case Hash => hashes case Ip => FirstDomain() case Domain => FirstUrl() case Url => Total()
    }

    function KindAt(k: nat): Kind
    {
      if k < hashes then Hash else if k < FirstDomain() then Ip else if k < FirstUrl() then Domain else Url
    }
  }

  function Tagged(kind: Kind, values: seq<string>): (r: seq<Question>)
    ensures |r| == |values|
  {
    seq(|values|, i requires 0 <= i < |values| => (kind, values[i]))
  }

  /** The extracted values of the four kinds. */
  datatype Lists = Lists(hashes: seq<string>, ips: seq<string>, domains: seq<string>, urls: seq<string>)
  {
    function Counts(): Request { Request(|hashes|, |ips|, |domains|, |urls|) }

    /** All questions of one pass, in order. */
    function Questions(): (r: seq<Question>)
      ensures |r| == Counts().Total()
    {
      Tagged(Hash, hashes) + Tagged(Ip, ips) + Tagged(Domain, domains) + Tagged(Url, urls)
    }
  }

  ghost predicate NoStopBefore(q: Request, calls: Outcomes, n: nat)
  {
    forall k :: 0 <= k < n ==> !Stops(q.KindAt(k), At(calls, k))
  }

  /** One pass over all indicators ends at lookup `end`. */
  ghost predicate PassEnds(q: Request, calls: Outcomes, end: nat)
  {
    && end <= q.Total()
    && NoStopBefore(q, calls, end)
    && (end < q.Total() ==> Stops(q.KindAt(end), At(calls, end)))
  }

  /** Where the pass from `k` on ends. */
  function EndFrom(q: Request, calls: Outcomes, k: nat): nat
    requires k <= q.Total()
    decreases q.Total() - k
  {
    if k == q.Total() || Stops(q.KindAt(k), At(calls, k)) then k else EndFrom(q, calls, k + 1)
  }

  /** Where one pass over all indicators ends. */
  function EndOf(q: Request, calls: Outcomes): nat { EndFrom(q, calls, 0) }

  lemma {:induction false} EndFromIs(q: Request, calls: Outcomes, k: nat)
    requires k <= q.Total() && NoStopBefore(q, calls, k)
    ensures PassEnds(q, calls, EndFrom(q, calls, k))
    decreases q.Total() - k
  {
    if k < q.Total() && !Stops(q.KindAt(k), At(calls, k)) {
      EndFromIs(q, calls, k + 1);
    }
  }

  /** There is exactly one such end. */
  lemma EndIsUnique(q: Request, calls: Outcomes, end: nat)
    ensures PassEnds(q, calls, end) <==> end == EndOf(q, calls)
  {
    EndFromIs(q, calls, 0);
  }

  // ------------------------------------------------- the loops as written

  /** The counters that run through all four loops. */
  datatype Tally = Tally(succeeded: nat, failed: nat, skipped: nat)

  /** What the counters have to be after the first `n` lookups, none of which stopped. */
  function TallyOf(calls: Outcomes, n: nat): Tally
  {
    Tally(|Records(calls, 0, n)|, Transients(calls, 0, n), Invalids(calls, 0, n))
  }

  /** The pass that ends at `end` was stopped by a rate limit while it was among the domains. */
  predicate RateLimitedAmongDomains(q: Request, calls: Outcomes, end: nat)
  {
    q.FirstDomain() <= end < q.FirstUrl() && At(calls, end).RateLimited?
  }

  /** How many indicators the report leaves out of account. */
  function Missing(q: Request, calls: Outcomes, end: nat): nat
  {
    if RateLimitedAmongDomains(q, calls, end) then q.urls else 0
  }

  /** The counters of a pass that ends at `end`, when the loops over the values before `hi` are done. */
  ghost predicate Stage(q: Request, calls: Outcomes, hi: nat, end: nat, ending: Ending, t: Tally)
  {
    && hi <= q.Total()
    && ending == (if end < hi then EndingOf(q.KindAt(end), At(calls, end)) else Completed)
    && t == TallyOf(calls, Min(end, hi)).(failed := t.failed)
    && (if ending.RateLimit? || ending.BadKey? then
          t.failed + Missing(q, calls, end) == Transients(calls, 0, end) + (q.Total() - end)
        else t.failed == Transients(calls, 0, Min(end, hi)))
  }

  /** The values of one kind are those from `lo` on; `laterOnRate` leaves out the URLs when the
      kind is a domain. */
  ghost predicate Section(kind: Kind, q: Request, lo: nat, count: nat, laterOnRate: nat, laterOnKey: nat)
  {
    && lo == q.First(kind) && lo + count == q.Last(kind)
    && (forall k :: lo <= k < lo + count ==> q.KindAt(k) == kind)
    && laterOnKey == q.Total() - (lo + count)
    && laterOnRate + (if kind == Domain then q.urls else 0) == laterOnKey
  }

  lemma Sections(q: Request)
    ensures Section(Hash, q, 0, q.hashes, q.ips + q.domains + q.urls, q.ips + q.domains + q.urls)
    ensures Section(Ip, q, q.hashes, q.ips, q.domains + q.urls, q.domains + q.urls)
    ensures Section(Domain, q, q.FirstDomain(), q.domains, 0, q.urls)
    ensures Section(Url, q, q.FirstUrl(), q.urls, 0, 0)
  {
  }

  lemma Started(q: Request, calls: Outcomes, lo: nat, end: nat)
    requires lo == 0
    ensures Stage(q, calls, lo, end, Completed, Tally(0, 0, 0))
  {
  }

  /** A lookup that stops its loop is where the pass ends, and the counters are right then. */
  lemma Stopped(kind: Kind, q: Request, calls: Outcomes, lo: nat, count: nat, laterOnRate: nat, laterOnKey: nat,
                n: nat, end: nat, records: seq<Record>, t: Tally)
    requires Section(kind, q, lo, count, laterOnRate, laterOnKey) && PassEnds(q, calls, end)
    requires lo <= n < lo + count && n <= end && !EndingOf(kind, At(calls, n)).Completed?
    requires records == Records(calls, lo, n)
    requires t == Counted(TallyOf(calls, n), kind, At(calls, n), lo + count - (n + 1), laterOnRate, laterOnKey)
    ensures n == end && records == Listed(q, calls, kind, end)
    ensures Stage(q, calls, lo + count, end, EndingOf(kind, At(calls, n)), t)
  {
    assert q.KindAt(n) == kind;
  }

  /** A lookup that does not stop its loop is not the last one. */
  lemma GoesOn(kind: Kind, q: Request, calls: Outcomes, lo: nat, count: nat, laterOnRate: nat, laterOnKey: nat,
               n: nat, end: nat, records: seq<Record>, t: Tally)
    requires Section(kind, q, lo, count, laterOnRate, laterOnKey) && PassEnds(q, calls, end)
    requires lo <= n < lo + count && n <= end && EndingOf(kind, At(calls, n)).Completed?
    requires records == Records(calls, lo, n) + (if At(calls, n).Hit? then [At(calls, n).record] else [])
    requires t == Counted(TallyOf(calls, n), kind, At(calls, n), lo + count - (n + 1), laterOnRate, laterOnKey)
    ensures n < end && records == Records(calls, lo, n + 1) && t == TallyOf(calls, n + 1)
  {
    assert q.KindAt(n) == kind;
  }

  lemma Passed(kind: Kind, q: Request, calls: Outcomes, lo: nat, count: nat, laterOnRate: nat, laterOnKey: nat, end: nat,
               records: seq<Record>, t: Tally)
    requires Section(kind, q, lo, count, laterOnRate, laterOnKey) && lo + count <= end
    requires records == Records(calls, lo, lo + count) && t == TallyOf(calls, lo + count)
    ensures Stage(q, calls, lo + count, end, Completed, t) && records == Listed(q, calls, kind, end)
  {
  }

  lemma Unstopped(q: Request, calls: Outcomes, lo: nat, t: Tally, end: nat)
    requires Stage(q, calls, lo, end, Completed, t) && PassEnds(q, calls, end)
    ensures lo <= end && t == TallyOf(calls, lo)
  {
  }

  lemma PassedOver(kind: Kind, q: Request, calls: Outcomes, lo: nat, hi: nat, ending: Ending, t: Tally, end: nat)
    requires Stage(q, calls, lo, end, ending, t) && !ending.Completed? && lo == q.First(kind) && lo <= hi <= q.Total()
    ensures Stage(q, calls, hi, end, ending, t) && Listed(q, calls, kind, end) == []
  {
  }

  /** One pass: its questions, the outcomes they get, where it ends, and what the provider was asked before. */
  datatype Pass = Pass(q: Request, questions: seq<Question>, calls: Outcomes, end: nat, before: seq<Question>)

  /** The outcomes are those the provider has, asked in turn after what it was asked before. */
  ghost predicate Real(p: Provider, w: Pass)
  {
    && |w.questions| == |w.calls| == w.q.Total() && PassEnds(w.q, w.calls, w.end)
    && forall k :: 0 <= k < |w.calls| ==> w.calls[k] == p.answer(|w.before| + k, w.questions[k])
  }

  /** The values of this kind are the questions from number `lo` on. */
  ghost predicate Asks(w: Pass, kind: Kind, values: seq<string>, lo: nat)
  {
    lo + |values| <= |w.questions| && forall i :: 0 <= i < |values| ==> w.questions[lo + i] == (kind, values[i])
  }

  /** Of the first `n` questions the provider was asked those up to the end of the pass, and no others. */
  ghost predicate AskedUpTo(p: Provider, w: Pass, n: nat)
    requires n <= |w.questions|
    reads p
  {
    p.Valid() && p.log == w.before + w.questions[..Min(w.end + 1, n)]
  }

  /** One category's loop, over values number `lo` up to `lo + |values|`; it is passed over when an
      earlier loop stopped. When a lookup stops it, the values not reached count as failed: those
      of this category, and `laterOnRate` or `laterOnKey` for the categories still to come. */
  method EnrichSection(kind: Kind, values: seq<string>, p: Provider, before: Tally, stopped: Ending,
                       laterOnRate: nat, laterOnKey: nat, ghost w: Pass, ghost lo: nat, ghost hi: nat)
    returns (records: seq<Record>, t: Tally, ending: Ending)
    requires hi == lo + |values| && Section(kind, w.q, lo, |values|, laterOnRate, laterOnKey)
    requires Real(p, w) && Asks(w, kind, values, lo) && AskedUpTo(p, w, lo)
    requires Stage(w.q, w.calls, lo, w.end, stopped, before)
    modifies p
    ensures AskedUpTo(p, w, hi)
    ensures Stage(w.q, w.calls, hi, w.end, ending, t)
    ensures records == Listed(w.q, w.calls, kind, w.end)
  {
    if !stopped.Completed? {
      PassedOver(kind, w.q, w.calls, lo, lo + |values|, stopped, before, w.end);
      return [], before, stopped;
    }
    Unstopped(w.q, w.calls, lo, before, w.end);
    records, t, ending := LookUpAll(kind, values, p, before, laterOnRate, laterOnKey, w, lo);
  }

  /** What an outcome does to the counters. A lookup that stops the pass counts itself, the `remaining`
      values of its kind and those of the categories to come as failed. */
  function Counted(t: Tally, kind: Kind, outcome: Lookup, remaining: nat, laterOnRate: nat, laterOnKey: nat): Tally
  {
    match outcome
    case Hit(_) => t.(succeeded := t.succeeded + 1)
    case Invalid(k) => if k == kind then t.(skipped := t.skipped + 1) else t
    case Transient => t.(failed := t.failed + 1)
    case RateLimited => t.(failed := t.failed + 1 + remaining + laterOnRate)
    case KeyRejected => t.(failed := t.failed + 1 + remaining + laterOnKey)
    case Unexpected => t
  }

  method LookUpOne(kind: Kind, value: string, p: Provider, before: Tally, remaining: nat, laterOnRate: nat, laterOnKey: nat)
    returns (found: seq<Record>, t: Tally, ending: Ending)
    requires p.Valid()
    modifies p
    ensures p.Valid() && p.log == old(p.log) + [(kind, value)]
    ensures var outcome := p.answer(old(p.calls), (kind, value));
      && found == (if outcome.Hit? then [outcome.record] else [])
      && t == Counted(before, kind, outcome, remaining, laterOnRate, laterOnKey) && ending == EndingOf(kind, outcome)
  {
    found, t, ending := [], before, Completed;
    var outcome := p.LookUp(kind, value);
    match outcome {
      case Hit(record) =>
        found := [record];
        t := t.(succeeded := t.succeeded + 1);
      case Invalid(k) =>
        if k == kind {
          t := t.(skipped := t.skipped + 1);
        } else {
          ending := Raise;
        }
      case Transient =>
        t := t.(failed := t.failed + 1);
      case RateLimited =>
        t := t.(failed := t.failed + 1 + remaining + laterOnRate);
        ending := RateLimit;
      case KeyRejected =>
        t := t.(failed := t.failed + 1 + remaining + laterOnKey);
        ending := BadKey;
      case Unexpected =>
        ending := Raise;
    }
  }

  /** The loop itself. */
  method LookUpAll(kind: Kind, values: seq<string>, p: Provider, before: Tally, laterOnRate: nat, laterOnKey: nat,
                   ghost w: Pass, ghost lo: nat)
    returns (records: seq<Record>, t: Tally, ending: Ending)
    requires Section(kind, w.q, lo, |values|, laterOnRate, laterOnKey)
    requires Real(p, w) && Asks(w, kind, values, lo) && AskedUpTo(p, w, lo)
    requires lo <= w.end && before == TallyOf(w.calls, lo)
    modifies p
    ensures AskedUpTo(p, w, lo + |values|)
    ensures Stage(w.q, w.calls, lo + |values|, w.end, ending, t)
    ensures records == Listed(w.q, w.calls, kind, w.end)
  {
    records, t, ending := [], before, Completed;
    for idx := 0 to |values|
      invariant ending == Completed && GoneOn(p, w, lo, lo + idx, records, t)
    {
      records, t, ending := LookUpNext(kind, values, idx, p, records, t, laterOnRate, laterOnKey, w, lo);
      if !ending.Completed? {
        return;
      }
    }
    AllAsked(p, w, lo + |values|);
    Passed(kind, w.q, w.calls, lo, |values|, laterOnRate, laterOnKey, w.end, records, t);
  }

  /** The loop that began at question `lo` has come to question `n` and has not been stopped. */
  ghost predicate GoneOn(p: Provider, w: Pass, lo: nat, n: nat, records: seq<Record>, t: Tally)
    reads p
  {
    && lo <= n <= w.end && n <= |w.questions| && p.Valid() && p.log == w.before + w.questions[..n]
    && records == Records(w.calls, lo, n) && t == TallyOf(w.calls, n)
  }

  lemma Ended(kind: Kind, p: Provider, w: Pass, lo: nat, count: nat, laterOnRate: nat, laterOnKey: nat, n: nat,
              records: seq<Record>, t: Tally)
    requires Section(kind, w.q, lo, count, laterOnRate, laterOnKey) && Real(p, w)
    requires lo <= n < lo + count && n <= w.end && !EndingOf(kind, At(w.calls, n)).Completed?
    requires p.Valid() && p.log == w.before + w.questions[..n + 1] && records == Records(w.calls, lo, n)
    requires t == Counted(TallyOf(w.calls, n), kind, At(w.calls, n), lo + count - (n + 1), laterOnRate, laterOnKey)
    ensures AskedUpTo(p, w, lo + count) && records == Listed(w.q, w.calls, kind, w.end)
    ensures Stage(w.q, w.calls, lo + count, w.end, EndingOf(kind, At(w.calls, n)), t)
  {
    Stopped(kind, w.q, w.calls, lo, count, laterOnRate, laterOnKey, n, w.end, records, t);
  }

  lemma AllAsked(p: Provider, w: Pass, n: nat)
    requires n <= |w.questions| && n <= w.end && p.Valid() && p.log == w.before + w.questions[..n]
    ensures AskedUpTo(p, w, n)
  {
  }

  /** One turn of the loop: the pass goes on, or it ends here. */
  method LookUpNext(kind: Kind, values: seq<string>, idx: nat, p: Provider, before: seq<Record>, tally: Tally,
                    laterOnRate: nat, laterOnKey: nat, ghost w: Pass, ghost lo: nat)
    returns (records: seq<Record>, t: Tally, ending: Ending)
    requires Section(kind, w.q, lo, |values|, laterOnRate, laterOnKey) && idx < |values|
    requires Real(p, w) && Asks(w, kind, values, lo) && GoneOn(p, w, lo, lo + idx, before, tally)
    modifies p
    ensures if ending.Completed?
            then GoneOn(p, w, lo, lo + idx + 1, records, t)
            else && AskedUpTo(p, w, lo + |values|) && records == Listed(w.q, w.calls, kind, w.end)
                 && Stage(w.q, w.calls, lo + |values|, w.end, ending, t)
  {
    var count := |values|;
    Answered(p, w, kind, values, lo, idx);
    var found: seq<Record>;
    found, t, ending := LookUpOne(kind, values[idx], p, tally, count - (idx + 1), laterOnRate, laterOnKey);
    records := before;
    if ending.Completed? {
      records := records + found;
      GoesOn(kind, w.q, w.calls, lo, count, laterOnRate, laterOnKey, lo + idx, w.end, records, t);
    } else {
      Ended(kind, p, w, lo, count, laterOnRate, laterOnKey, lo + idx, records, t);
    }
  }

  /** The next lookup asks the next question of the pass and gets its outcome. */
  lemma Answered(p: Provider, w: Pass, kind: Kind, values: seq<string>, lo: nat, idx: nat)
    requires Real(p, w) && Asks(w, kind, values, lo) && idx < |values|
    requires p.Valid() && p.log == w.before + w.questions[..lo + idx]
    ensures p.answer(p.calls, (kind, values[idx])) == At(w.calls, lo + idx)
    ensures p.log + [(kind, values[idx])] == w.before + w.questions[..lo + idx + 1]
  {
    assert w.questions[..lo + idx + 1] == w.questions[..lo + idx] + [w.questions[lo + idx]];
  }

  datatype Status = NoIndicators | Partial | AllOk

  /** The returned dictionary, coverage included. */
  datatype Report = Report(hashes: seq<Record>, ips: seq<Record>, domains: seq<Record>, urls: seq<Record>,
                           status: Status, requested: nat, succeeded: nat, failed: nat, skippedInvalid: nat,
                           rateLimited: bool, invalidApiKey: bool)

  datatype Outcome = Returned(report: Report) | Propagated

  /** The records of one kind, in input order, of a pass that ends at `end`. */
  function Listed(q: Request, calls: Outcomes, kind: Kind, end: nat): seq<Record>
  {
    Records(calls, q.First(kind), Min(end, q.Last(kind)))
  }

  /** What the report says about a pass that ends at `end`: every category's records in input
      order, and of the indicators the pass did not reach, all but `missing` as failed. */
  ghost predicate Reports(r: Report, q: Request, calls: Outcomes, end: nat, missing: nat)
  {
    && r.hashes == Listed(q, calls, Hash, end)
    && r.ips == Listed(q, calls, Ip, end)
    && r.domains == Listed(q, calls, Domain, end)
    && r.urls == Listed(q, calls, Url, end)
    && r.requested == q.Total()
    && r.succeeded == |Records(calls, 0, end)|
    && r.skippedInvalid == Invalids(calls, 0, end)
    && r.failed + missing == Transients(calls, 0, end) + (q.Total() - end)
    && r.rateLimited == (end < q.Total() && At(calls, end).RateLimited?)
    && r.invalidApiKey == (end < q.Total() && At(calls, end).KeyRejected?)
    && r.status == (if q.Total() == 0 then NoIndicators
                    else if end < q.Total() || Transients(calls, 0, end) > 0 then Partial else AllOk)
  }

  /** The pass that the provider is about to be asked for. */
  ghost function PassOf(p: Provider, lists: Lists): (w: Pass)
    reads p
    ensures w.q == lists.Counts() && w.before == p.log && Real(p, w)
  {
    var q, questions := lists.Counts(), lists.Questions();
    var answer, first := p.answer, |p.log|;
    var calls := seq(|questions|, k requires 0 <= k < |questions| => answer(first + k, questions[k]));
    EndIsUnique(q, calls, EndOf(q, calls));
    Pass(q, questions, calls, EndOf(q, calls), p.log)
  }

  /** The report is about one pass over all values that ends at the first rate limit, rejected key or
      unhandled exception, and the provider is asked about the values up to that one, each once and in
      order, and about no others. */
  method EnrichResults(lists: Lists, p: Provider) returns (r: Outcome)
    requires p.Valid()
    modifies p
    ensures var w := old(PassOf(p, lists));
      && p.Valid() && p.log == old(p.log) + lists.Questions()[..Min(w.end + 1, |lists.Questions()|)]
      && Concludes(r, w)
  {
    r := EnrichLists(lists, p, PassOf(p, lists));
  }

  ghost predicate Concludes(r: Outcome, w: Pass)
  {
    if w.end < w.q.Total() && EndingOf(w.q.KindAt(w.end), At(w.calls, w.end)).Raise? then r == Propagated
    else r.Returned? && Reports(r.report, w.q, w.calls, w.end, Missing(w.q, w.calls, w.end))
  }

  method EnrichLists(lists: Lists, p: Provider, ghost w: Pass) returns (r: Outcome)
    requires w.q == lists.Counts() && w.questions == lists.Questions() && Real(p, w) && AskedUpTo(p, w, 0)
    modifies p
    ensures AskedUpTo(p, w, w.q.Total()) && Concludes(r, w)
  {
    var q := lists.Counts();
    Sections(q);
    Started(q, w.calls, 0, w.end);
    AsksAll(lists, w);
    var hashes, ips, domains, urls;
    var t, ending := Tally(0, 0, 0), Completed;
    hashes, t, ending := EnrichSection(Hash, lists.hashes, p, t, ending,
                                       q.ips + q.domains + q.urls, q.ips + q.domains + q.urls, w, 0, q.hashes);
    ips, t, ending := EnrichSection(Ip, lists.ips, p, t, ending, q.domains + q.urls, q.domains + q.urls,
                                    w, q.hashes, q.FirstDomain());
    // the rate-limit remainder of this loop leaves out the URLs, the other one counts them
    domains, t, ending := EnrichSection(Domain, lists.domains, p, t, ending, 0, q.urls,
                                        w, q.FirstDomain(), q.FirstUrl());
    urls, t, ending := EnrichSection(Url, lists.urls, p, t, ending, 0, 0, w, q.FirstUrl(), q.Total());
    Raised(q, w.calls, w.end, ending, t);
    if ending.Raise? {
      return Propagated;
    }
    Concluded(q, w.calls, hashes, ips, domains, urls, t, ending, w.end);
    r := Returned(Assembled(q, hashes, ips, domains, urls, t, ending));
  }

  lemma AsksAll(lists: Lists, w: Pass)
    requires w.questions == lists.Questions()
    ensures var q := lists.Counts();
      && Asks(w, Hash, lists.hashes, 0) && Asks(w, Ip, lists.ips, q.hashes)
      && Asks(w, Domain, lists.domains, q.FirstDomain()) && Asks(w, Url, lists.urls, q.FirstUrl())
  {
  }

  lemma Raised(q: Request, calls: Outcomes, end: nat, ending: Ending, t: Tally)
    requires Stage(q, calls, q.Total(), end, ending, t)
    ensures ending.Raise? <==> end < q.Total() && EndingOf(q.KindAt(end), At(calls, end)).Raise?
  {
  }

  /** The dictionary built from the lists and counters. */
  function Assembled(q: Request, hashes: seq<Record>, ips: seq<Record>, domains: seq<Record>, urls: seq<Record>,
                     t: Tally, ending: Ending): Report
  {
    var status := if q.Total() == 0 then NoIndicators
                  else if ending.RateLimit? || ending.BadKey? || t.failed > 0 then Partial
                  else AllOk;
    Report(hashes, ips, domains, urls, status, q.Total(), t.succeeded, t.failed, t.skipped,
           ending.RateLimit?, ending.BadKey?)
  }

  lemma Concluded(q: Request, calls: Outcomes, hashes: seq<Record>, ips: seq<Record>, domains: seq<Record>,
                  urls: seq<Record>, t: Tally, ending: Ending, end: nat)
    requires Stage(q, calls, q.Total(), end, ending, t) && PassEnds(q, calls, end) && !ending.Raise?
    requires hashes == Listed(q, calls, Hash, end) && ips == Listed(q, calls, Ip, end)
    requires domains == Listed(q, calls, Domain, end) && urls == Listed(q, calls, Url, end)
    ensures Reports(Assembled(q, hashes, ips, domains, urls, t, ending), q, calls, end, Missing(q, calls, end))
  {
  }

  // ------------------------------------------------- what the figures add up to

  /** The law the coverage figures are for, requested = succeeded + failed + skipped, holds of a
      returned report exactly unless a rate limit struck among the domains with URLs waiting;
      then it is short by exactly the number of URLs. */
  lemma CoverageLaw(r: Report, q: Request, calls: Outcomes, end: nat)
    requires end == EndOf(q, calls) && Reports(r, q, calls, end, Missing(q, calls, end))
    ensures r.requested == q.Total()
    ensures r.requested - (r.succeeded + r.failed + r.skippedInvalid)
         == Missing(q, calls, end)
    ensures r.requested == r.succeeded + r.failed + r.skippedInvalid
       <==> !(RateLimitedAmongDomains(q, calls, end) && q.urls > 0)
    ensures r.succeeded == |r.hashes| + |r.ips| + |r.domains| + |r.urls|
  {
    EndIsUnique(q, calls, end);
    PassAccounted(q, calls, end);
    ListsAddUp(q, calls, end);
  }

  lemma ListsAddUp(q: Request, calls: Outcomes, end: nat)
    requires end <= q.Total()
    ensures |Records(calls, 0, end)| == |Listed(q, calls, Hash, end)| + |Listed(q, calls, Ip, end)|
                                      + |Listed(q, calls, Domain, end)| + |Listed(q, calls, Url, end)|
  {
    var a, b, c := Min(end, q.hashes), Min(end, q.FirstDomain()), Min(end, q.FirstUrl());
    RangesAdd(calls, 0, a, end);
    RangesAdd(calls, a, b, end);
    RangesAdd(calls, b, c, end);
  }

  lemma {:induction false} PassAccounted(q: Request, calls: Outcomes, end: nat)
    requires NoStopBefore(q, calls, end)
    ensures end == |Records(calls, 0, end)| + Transients(calls, 0, end) + Invalids(calls, 0, end)
  {
    if end > 0 {
      PassAccounted(q, calls, end - 1);
      assert !Stops(q.KindAt(end - 1), At(calls, end - 1));
    }
  }

  /** What the values after the stop would have given does not matter: outcomes that agree up to it have
      the same end and allow the same report. */
  lemma EndIsDetermined(q: Request, calls: Outcomes, other: Outcomes, r: Report)
    requires forall k :: 0 <= k <= EndOf(q, calls) && k < q.Total() ==> At(other, k) == At(calls, k)
    ensures EndOf(q, other) == EndOf(q, calls)
    ensures var end := EndOf(q, calls);
      Reports(r, q, other, end, Missing(q, other, end)) <==> Reports(r, q, calls, end, Missing(q, calls, end))
  {
    var end := EndOf(q, calls);
    EndIsUnique(q, calls, end);
    EndIsUnique(q, other, end);
    SameRecords(calls, other, 0, end);
    SameRecords(calls, other, 0, Min(end, q.hashes));
    SameRecords(calls, other, q.hashes, Min(end, q.FirstDomain()));
    SameRecords(calls, other, q.FirstDomain(), Min(end, q.FirstUrl()));
    SameRecords(calls, other, q.FirstUrl(), end);
  }

  lemma {:induction false} SameRecords(calls: Outcomes, other: Outcomes, lo: nat, n: nat)
    requires forall k :: 0 <= k < n ==> At(other, k) == At(calls, k)
    ensures Records(other, lo, n) == Records(calls, lo, n)
    ensures Transients(other, lo, n) == Transients(calls, lo, n) && Invalids(other, lo, n) == Invalids(calls, lo, n)
  {
    if n > lo {
      SameRecords(calls, other, lo, n - 1);
    }
  }

  /** The failure at its smallest: one domain and one URL, and the first lookup is rate limited. Of two
      requested indicators one is accounted for. */
  lemma CoverageCanFail(q: Request, calls: Outcomes, r: Report, end: nat)
    requires q.hashes == 0 && q.ips == 0 && q.domains == 1 && q.urls == 1 && At(calls, 0) == RateLimited
    requires end == EndOf(q, calls) && Reports(r, q, calls, end, Missing(q, calls, end))
    ensures r.requested == 2 && r.succeeded + r.failed + r.skippedInvalid == 1
  {
    LimitAtOnce(q, calls, r, end, q.domains);
  }

  /** However many domains and URLs, the URLs are missing. */
  lemma LimitAtOnce(q: Request, calls: Outcomes, r: Report, end: nat, domains: nat)
    requires q.hashes == 0 && q.ips == 0 && q.domains == domains > 0 && At(calls, 0) == RateLimited
    requires end == EndOf(q, calls) && Reports(r, q, calls, end, Missing(q, calls, end))
    ensures r.requested == q.domains + q.urls && r.succeeded + r.failed + r.skippedInvalid == q.domains
  {
    StopsAtOnce(q, calls, 0);
    CoverageSums(r, q, calls, end);
  }

  /** The coverage law with the shortfall alone. */
  lemma CoverageSums(r: Report, q: Request, calls: Outcomes, end: nat)
    requires end == EndOf(q, calls) && Reports(r, q, calls, end, Missing(q, calls, end))
    ensures r.requested == q.Total() && r.succeeded + r.failed + r.skippedInvalid == q.Total() - Missing(q, calls, end)
  {
    CoverageLaw(r, q, calls, end);
  }

  lemma StopsAtOnce(q: Request, calls: Outcomes, first: nat)
    requires q.hashes == 0 && q.ips == 0 && first == 0 && q.domains > 0 && At(calls, first) == RateLimited
    ensures EndOf(q, calls) == first && Missing(q, calls, first) == q.urls
  {
    EndIsUnique(q, calls, first);
  }

  // ------------------------------------------------- the report in terms of the outcomes

  /** The pass goes on after a record, after a lookup that timed out, and after a value that is no value of
      the kind it was looked up as; everything else ends it. */
  predicate Harmless(kind: Kind, outcome: Lookup)
  {
    outcome.Hit? || outcome.Transient? || outcome == Invalid(kind)
  }

  /** All lookups before number `k` are harmless. */
  ghost predicate Reached(q: Request, calls: Outcomes, k: nat)
  {
    k <= q.Total() && forall j :: 0 <= j < k ==> Harmless(q.KindAt(j), At(calls, j))
  }

  /** The first lookup that is not harmless has this outcome. */
  ghost predicate FirstHarm(q: Request, calls: Outcomes, outcome: Lookup)
  {
    exists k: nat :: k < q.Total() && Reached(q, calls, k) && At(calls, k) == outcome && !Harmless(q.KindAt(k), outcome)
  }

  lemma EndIsFirstHarm(q: Request, calls: Outcomes, end: nat)
    requires PassEnds(q, calls, end)
    ensures Reached(q, calls, end) && (end < q.Total() ==> !Harmless(q.KindAt(end), At(calls, end)))
    ensures forall outcome :: FirstHarm(q, calls, outcome) <==> end < q.Total() && At(calls, end) == outcome
  {
    forall outcome | FirstHarm(q, calls, outcome) ensures end < q.Total() && At(calls, end) == outcome {
      var k: nat :| k < q.Total() && Reached(q, calls, k) && At(calls, k) == outcome && !Harmless(q.KindAt(k), outcome);
      assert k == end;
    }
  }

  /** An exception propagates exactly if the first lookup that is not harmless ends in one: an unexpected one,
      or a value rejected as another kind. Otherwise the two flags say whether it was a rate limit or a
      rejected key, and the status is OK exactly if every value gave a record or was invalid. */
  lemma FlagsAreExact(r: Outcome, w: Pass)
    requires PassEnds(w.q, w.calls, w.end) && Concludes(r, w)
    ensures r.Propagated? <==>
            FirstHarm(w.q, w.calls, Unexpected) || exists kind: Kind :: FirstHarm(w.q, w.calls, Invalid(kind))
    ensures r.Returned? ==>
              && r.report.requested == w.q.Total()
              && (r.report.rateLimited <==> FirstHarm(w.q, w.calls, RateLimited))
              && (r.report.invalidApiKey <==> FirstHarm(w.q, w.calls, KeyRejected))
              && (r.report.status == NoIndicators <==> w.q.Total() == 0)
  {
    EndIsFirstHarm(w.q, w.calls, w.end);
    if r.Propagated? && At(w.calls, w.end) != Unexpected {
      assert FirstHarm(w.q, w.calls, Invalid(At(w.calls, w.end).kind));
    }
  }

  lemma AllOkIsExact(r: Outcome, w: Pass)
    requires PassEnds(w.q, w.calls, w.end) && Concludes(r, w) && r.Returned?
    ensures r.report.status == AllOk <==>
            w.q.Total() > 0 && forall k :: 0 <= k < w.q.Total() ==>
              At(w.calls, k).Hit? || At(w.calls, k) == Invalid(w.q.KindAt(k))
  {
    EndIsFirstHarm(w.q, w.calls, w.end);
    CountsAre(w.calls, 0, w.end);
    var transients := TransientAt(w.calls, 0, w.end);
    if w.end == w.q.Total() && transients == {} {
      forall k: nat | k < w.end ensures !At(w.calls, k).Transient? {
        assert k !in transients;
      }
    } else if w.end == w.q.Total() {
      var k :| k in transients;
    }
  }

  function TransientAt(calls: Outcomes, lo: nat, hi: nat): set<nat>
  {
    set k: nat | lo <= k < hi && At(calls, k).Transient?
  }

  function InvalidAt(calls: Outcomes, lo: nat, hi: nat): set<nat>
  {
    set k: nat | lo <= k < hi && At(calls, k).Invalid?
  }

  /** What is counted as failed or skipped on the way. */
  lemma {:induction false} CountsAre(calls: Outcomes, lo: nat, hi: nat)
    ensures Transients(calls, lo, hi) == |TransientAt(calls, lo, hi)|
    ensures Invalids(calls, lo, hi) == |InvalidAt(calls, lo, hi)|
  {
    if lo < hi {
      CountsAre(calls, lo, hi - 1);
      OneMoreAt(calls, lo, hi - 1);
    } else {
      assert TransientAt(calls, lo, hi) == {} && InvalidAt(calls, lo, hi) == {};
    }
  }

  lemma OneMoreAt(calls: Outcomes, lo: nat, n: nat)
    requires lo <= n
    ensures TransientAt(calls, lo, n + 1) == TransientAt(calls, lo, n) + (if At(calls, n).Transient? then {n} else {})
    ensures InvalidAt(calls, lo, n + 1) == InvalidAt(calls, lo, n) + (if At(calls, n).Invalid? then {n} else {})
  {
  }

  /** A record found by lookup number `k` stands after those of the lookups before it. */
  lemma RecordInPlace(calls: Outcomes, lo: nat, k: nat, hi: nat)
    requires lo <= k < hi && At(calls, k).Hit?
    ensures |Records(calls, lo, k)| < |Records(calls, lo, hi)|
    ensures Records(calls, lo, hi)[|Records(calls, lo, k)|] == At(calls, k).record
  {
    RangesAdd(calls, lo, k, hi);
    RangesAdd(calls, k, k + 1, hi);
    assert Records(calls, k, k) == [];
    assert Records(calls, k, k + 1) == [At(calls, k).record];
  }

  lemma {:induction false} RecordsHave(calls: Outcomes, lo: nat, hi: nat, x: Record)
    ensures x in Records(calls, lo, hi) <==> exists k: nat :: lo <= k < hi && At(calls, k) == Hit(x)
  {
    if lo < hi {
      RecordsHave(calls, lo, hi - 1, x);
    }
  }

  /** A lookup of this kind, made before the pass ended, gave this record. */
  ghost predicate FoundAs(w: Pass, kind: Kind, x: Record)
  {
    exists k: nat :: k < w.end && w.q.KindAt(k) == kind && At(w.calls, k) == Hit(x)
  }

  lemma ListedAs(w: Pass, kind: Kind, x: Record)
    requires w.end <= w.q.Total()
    ensures x in Listed(w.q, w.calls, kind, w.end) <==> FoundAs(w, kind, x)
  {
    RecordsHave(w.calls, w.q.First(kind), Min(w.end, w.q.Last(kind)), x);
    if FoundAs(w, kind, x) {
      var k: nat :| k < w.end && w.q.KindAt(k) == kind && At(w.calls, k) == Hit(x);
      assert w.q.First(kind) <= k < Min(w.end, w.q.Last(kind));
    }
    if x in Listed(w.q, w.calls, kind, w.end) {
      var k: nat :| w.q.First(kind) <= k < Min(w.end, w.q.Last(kind)) && At(w.calls, k) == Hit(x);
      assert w.q.KindAt(k) == kind;
    }
  }

  /** Each list of the report holds the records found for values of its own kind, and no others. */
  lemma ListsByKind(r: Outcome, w: Pass, x: Record)
    requires PassEnds(w.q, w.calls, w.end) && Concludes(r, w) && r.Returned?
    ensures x in r.report.hashes <==> FoundAs(w, Hash, x)
    ensures x in r.report.ips <==> FoundAs(w, Ip, x)
    ensures x in r.report.domains <==> FoundAs(w, Domain, x)
    ensures x in r.report.urls <==> FoundAs(w, Url, x)
  {
    ListedAs(w, Hash, x);
    ListedAs(w, Ip, x);
    ListedAs(w, Domain, x);
    ListedAs(w, Url, x);
  }

  /** A lookup of one kind asks for an extracted value of that kind. */
  lemma AsksItsKind(lists: Lists, k: nat)
    requires k < lists.Counts().Total()
    ensures lists.Questions()[k].0 == lists.Counts().KindAt(k)
    ensures var value := lists.Questions()[k].1;
      match lists.Counts().KindAt(k)
      case Hash => value in lists.hashes
      case Ip => value in lists.ips
      case Domain => value in lists.domains
      case Url => value in lists.urls
  {
    var a, b, c, d := Tagged(Hash, lists.hashes), Tagged(Ip, lists.ips), Tagged(Domain, lists.domains), Tagged(Url, lists.urls);
    assert lists.Questions() == a + (b + (c + d));
    var q := lists.Counts();
    match q.KindAt(k)
    case Hash => assert lists.Questions()[k] == (Hash, lists.hashes[k]);
    case Ip => assert lists.Questions()[k] == (Ip, lists.ips[k - q.hashes]);
    case Domain => assert lists.Questions()[k] == (Domain, lists.domains[k - q.FirstDomain()]);
    case Url => assert lists.Questions()[k] == (Url, lists.urls[k - q.FirstUrl()]);
  }
}
