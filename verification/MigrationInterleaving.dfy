/** Every interleaving of any number of migration runners on one database
    (app/database/migration_runner.py): one atomic step per database access. */
module MigrationInterleaving {
  import opened Basics
  import opened MigrationRunner

  /** Where a runner stands. From `Reread` to `Commit` it holds the write lock. */
  datatype Pc =
    | Precheck
    | Begin
    | Reread
    | Execute(m: Migration, done: nat)
    | Commit(m: Migration)
    | Returned(version: nat)
    | Raised(error: Failure)

  datatype Runner = Runner(migrations: seq<Migration>, pc: Pc)

  /** The committed database, the lock with the holder's uncommitted work, the runners, and
      the migrations committed so far, oldest first. */
  datatype System = System(committed: Database, lock: Option<nat>, work: Database,
                           runners: seq<Runner>, log: seq<Migration>)

  predicate HoldsLock(pc: Pc)
  {
    pc.Reread? || pc.Execute? || pc.Commit?
  }

  predicate Finished(pc: Pc)
  {
    pc.Returned? || pc.Raised?
  }

  function Goto(s: System, r: nat, pc: Pc): System
    requires r < |s.runners|
  {
    s.(runners := s.runners[r := s.runners[r].(pc := pc)])
  }

  /** Leaving the loop with the lock held: ROLLBACK, or the connection is closed. */
  function Release(s: System, r: nat, pc: Pc): System
    requires r < |s.runners|
  {
    Goto(s, r, pc).(lock := None)
  }

  /** Runner `r` takes its next step. `ok` is whether the database lets the access succeed. A
      finished runner, and one waiting for a lock it has not given up on, stay as they are. */
  function Step(s: System, r: nat, ok: bool): System
    requires r < |s.runners|
  {
    var latest := Latest(s.runners[r].migrations);
    match s.runners[r].pc
    case Precheck =>
      (match GetCurrentVersion(s.committed)
       case Err(e) => Goto(s, r, Raised(e))
       case Ok(v) =>
         if v > latest then Goto(s, r, Raised(NewerSchema))
         else if v == latest then Goto(s, r, Returned(v))
         else Goto(s, r, Begin))
    case Begin =>
      if !ok then Goto(s, r, Raised(DatabaseBusy))
      else if s.lock.Some? then s
      else Goto(s, r, Reread).(lock := Some(r), work := s.committed)
    case Reread =>
      (match GetCurrentVersion(s.work)
       case Err(e) => Release(s, r, Raised(e))
       case Ok(v) =>
         if v > latest then Release(s, r, Raised(NewerSchema))
         else match NextPending(s.runners[r].migrations, v)
           case None => Release(s, r, Returned(v))
           case Some(m) => Goto(s, r, Execute(m, 0)))
    case Execute(m, done) =>
      if !ok then Release(s, r, Raised(MigrationFailed))
      else if done < |m.statements| then
        Goto(s, r, Execute(m, done + 1)).(work := s.work.(schema := s.work.schema + [m.statements[done]]))
      else Goto(s, r, Commit(m)).(work := SetVersion(s.work, m.version))
    case Commit(m) =>
      if !ok then Release(s, r, Raised(MigrationFailed))
      else Release(s, r, Begin).(committed := s.work, log := s.log + [m])
    case Returned(_) => s
    case Raised(_) => s
  }

  /** A schedule names, step by step, who moves and whether the access succeeds. */
  type Schedule = seq<(nat, bool)>

  function Run(s: System, schedule: Schedule): (t: System)
    ensures |t.runners| == |s.runners|
    ensures forall q :: 0 <= q < |s.runners| ==> t.runners[q].migrations == s.runners[q].migrations
    decreases |schedule|
  {
    if schedule == [] then s
    else
      var before := Run(s, schedule[..|schedule| - 1]);
      var (r, ok) := schedule[|schedule| - 1];
      if r < |s.runners| then Step(before, r, ok) else before
  }

  /** A database in any valid state, and runners of builds that each know a prefix of one
      catalogue, all about to start. */
  ghost predicate Initial(catalog: seq<Migration>, base: Database, s: System)
  {
    && Ordered(catalog) && ValidTable(base)
    && s.committed == base && s.lock.None? && s.log == []
    && forall r :: 0 <= r < |s.runners| ==> s.runners[r].migrations <= catalog && s.runners[r].pc.Precheck?
  }

  /** What the work in progress of the lock holder is. */
  ghost predicate WorkMatches(s: System, x: Runner)
    requires ValidTable(s.committed)
  {
    match x.pc
    case Reread => s.work == s.committed
    case Execute(m, done) =>
      && NextPending(x.migrations, Version(s.committed)) == Some(m) && m.version <= Latest(x.migrations)
      && done <= |m.statements|
      && s.work == Database(s.committed.schema + m.statements[..done], s.committed.versionRows)
    case Commit(m) =>
      && NextPending(x.migrations, Version(s.committed)) == Some(m) && m.version <= Latest(x.migrations)
      && s.work == Applied(s.committed, m)
    case _ => true
  }

  ghost predicate Inv(catalog: seq<Migration>, base: Database, s: System)
  {
    && Ordered(catalog)
    && Consistent(catalog, base, s.committed, s.log)
    && (s.lock.Some? ==> s.lock.value < |s.runners|)
    && (forall r :: 0 <= r < |s.runners| ==> RunnerInv(catalog, s, r))
  }

  ghost predicate RunnerInv(catalog: seq<Migration>, s: System, r: nat)
    requires r < |s.runners| && ValidTable(s.committed)
  {
    var x := s.runners[r];
    && x.migrations <= catalog
    && (HoldsLock(x.pc) <==> s.lock == Some(r))
    && WorkMatches(s, x)
    && (x.pc.Returned? ==> x.pc.version == Latest(x.migrations) <= Version(s.committed))
    && (x.pc == Raised(NewerSchema) ==> Latest(x.migrations) < Version(s.committed))
    && x.pc != Raised(NoVersionRow)
  }

  // ------------------------------------------------- the invariant

  lemma InitialInv(catalog: seq<Migration>, base: Database, s: System)
    requires Initial(catalog, base, s)
    ensures Inv(catalog, base, s)
  {
    BetweenNone2(catalog, Version(base));
  }

  lemma {:induction false} BetweenNone2(ms: seq<Migration>, v: nat)
    ensures Between(ms, v, v) == []
  {
    BetweenNone(ms, v, v);
  }

  /** Only a successful COMMIT changes what is committed, and it commits the next pending
      migration of the runner's own list. */
  lemma OnlyCommitChanges(catalog: seq<Migration>, base: Database, s: System, r: nat, ok: bool)
    requires Inv(catalog, base, s) && r < |s.runners|
    ensures var t := Step(s, r, ok);
            if ok && s.runners[r].pc.Commit? then
              && NextPending(s.runners[r].migrations, Version(s.committed)) == Some(s.runners[r].pc.m)
              && t.committed == Applied(s.committed, s.runners[r].pc.m) && t.log == s.log + [s.runners[r].pc.m]
              && Version(s.committed) < Latest(s.runners[r].migrations)
            else t.committed == s.committed && t.log == s.log
  {
    assert RunnerInv(catalog, s, r);
  }

  lemma StepInv(catalog: seq<Migration>, base: Database, s: System, r: nat, ok: bool)
    requires Inv(catalog, base, s) && r < |s.runners|
    ensures Inv(catalog, base, Step(s, r, ok))
    ensures Version(s.committed) <= Version(Step(s, r, ok).committed)
  {
    var t := Step(s, r, ok);
    OnlyCommitChanges(catalog, base, s, r, ok);
    assert RunnerInv(catalog, s, r);
    if ok && s.runners[r].pc.Commit? {
      CommitKeepsConsistent(catalog, base, s.committed, s.log, s.runners[r].migrations);
    }
    assert Consistent(catalog, base, t.committed, t.log);
    forall q | 0 <= q < |t.runners| ensures RunnerInv(catalog, t, q) {
      assert RunnerInv(catalog, s, q);
      if q == r {
        MoverInv(catalog, s, r, ok);
      } else {
        OtherInv(catalog, s, r, ok, q);
      }
    }
  }

  lemma MoverInv(catalog: seq<Migration>, s: System, r: nat, ok: bool)
    requires Ordered(catalog) && r < |s.runners| && ValidTable(s.committed) && RunnerInv(catalog, s, r)
    requires ValidTable(Step(s, r, ok).committed)
    ensures RunnerInv(catalog, Step(s, r, ok), r)
  {
    match s.runners[r].pc
    case Reread => RereadInv(catalog, s, r, ok);
    case Execute(m, done) => ExecuteInv(catalog, s, r, ok, m, done);
    case Commit(m) => CommitInv(catalog, s, r, ok, m);
    case _ => OutsideInv(catalog, s, r, ok);
  }

  lemma OutsideInv(catalog: seq<Migration>, s: System, r: nat, ok: bool)
    requires Ordered(catalog) && r < |s.runners| && ValidTable(s.committed) && RunnerInv(catalog, s, r)
    requires !HoldsLock(s.runners[r].pc)
    ensures Step(s, r, ok).committed == s.committed && RunnerInv(catalog, Step(s, r, ok), r)
  {
  }

  lemma RereadInv(catalog: seq<Migration>, s: System, r: nat, ok: bool)
    requires Ordered(catalog) && r < |s.runners| && ValidTable(s.committed) && RunnerInv(catalog, s, r)
    requires s.runners[r].pc.Reread?
    ensures Step(s, r, ok).committed == s.committed && RunnerInv(catalog, Step(s, r, ok), r)
  {
    var list, v := s.runners[r].migrations, Version(s.committed);
    if NextPending(list, v).None? {
      if v <= Latest(list) {
        NothingPending(list, v);
      }
    } else {
      LatestIsMax(list, NextPending(list, v).value);
    }
  }

  lemma ExecuteInv(catalog: seq<Migration>, s: System, r: nat, ok: bool, m: Migration, done: nat)
    requires Ordered(catalog) && r < |s.runners| && ValidTable(s.committed) && RunnerInv(catalog, s, r)
    requires s.runners[r].pc == Execute(m, done)
    ensures Step(s, r, ok).committed == s.committed && RunnerInv(catalog, Step(s, r, ok), r)
  {
    if done < |m.statements| {
      assert s.committed.schema + m.statements[..done] + [m.statements[done]]
          == s.committed.schema + m.statements[..done + 1];
    } else {
      assert m.statements[..done] == m.statements;
    }
  }

  lemma CommitInv(catalog: seq<Migration>, s: System, r: nat, ok: bool, m: Migration)
    requires Ordered(catalog) && r < |s.runners| && ValidTable(s.committed) && RunnerInv(catalog, s, r)
    requires s.runners[r].pc == Commit(m) && ValidTable(Step(s, r, ok).committed)
    ensures RunnerInv(catalog, Step(s, r, ok), r)
  {
  }

  lemma OtherInv(catalog: seq<Migration>, s: System, r: nat, ok: bool, q: nat)
    requires r < |s.runners| && q < |s.runners| && q != r && ValidTable(s.committed)
    requires RunnerInv(catalog, s, r) && RunnerInv(catalog, s, q)
    requires ValidTable(Step(s, r, ok).committed) && Version(s.committed) <= Version(Step(s, r, ok).committed)
    ensures RunnerInv(catalog, Step(s, r, ok), q)
  {
  }

  lemma {:induction false} RunInv(catalog: seq<Migration>, base: Database, s: System, schedule: Schedule)
    requires Inv(catalog, base, s)
    ensures Inv(catalog, base, Run(s, schedule))
    decreases |schedule|
  {
    if schedule != [] {
      var before := schedule[..|schedule| - 1];
      RunInv(catalog, base, s, before);
      var (r, ok) := schedule[|schedule| - 1];
      if r < |s.runners| {
        StepInv(catalog, base, Run(s, before), r, ok);
      }
    }
  }

  /** In every state of every interleaving: what has been committed is exactly the catalogue's
      migrations above the starting version and up to the recorded one, each once, in strictly
      increasing order, and their statements are the only change to the database; and the
      version table, once it exists, has one row. */
  lemma MigrationsCommittedOnceInOrder(catalog: seq<Migration>, base: Database, s: System, schedule: Schedule)
    requires Initial(catalog, base, s)
    ensures var t := Run(s, schedule);
            && ValidTable(t.committed) && Ordered(t.log)
            && t.log == Between(catalog, Version(base), Version(t.committed))
            && t.committed.schema == base.schema + Script(t.log)
            && (if t.log == [] then t.committed == base else Version(t.committed) == t.log[|t.log| - 1].version)
  {
    InitialInv(catalog, base, s);
    RunInv(catalog, base, s, schedule);
    var t := Run(s, schedule);
    BetweenOrdered(catalog, Version(base), Version(t.committed));
  }

  // ------------------------------------------------- termination

  /** Steps that migrations of `ms` above `v` still cost a runner that applies them all itself. */
  function Remaining(ms: seq<Migration>, v: nat): nat
  {
    if ms == [] then 0
    else (if ms[0].version > v then |ms[0].statements| + 4 else 0) + Remaining(ms[1..], v)
  }

  /** Bound on the steps a runner can still take when version `v` is committed. */
  function Rank(x: Runner, v: nat): nat
  {
    match x.pc
    case Precheck => 3 + Remaining(x.migrations, v)
    case Begin => 2 + Remaining(x.migrations, v)
    case Reread => 1 + Remaining(x.migrations, v)
    case Execute(m, done) =>
      (if done <= |m.statements| then |m.statements| - done else 0) + 4 + Remaining(x.migrations, m.version)
    case Commit(m) => 3 + Remaining(x.migrations, m.version)
    case _ => 0
  }

  lemma {:induction false} RemainingShrinks(ms: seq<Migration>, v: nat, w: nat)
    requires v <= w
    ensures Remaining(ms, w) <= Remaining(ms, v)
  {
    if ms != [] {
      RemainingShrinks(ms[1..], v, w);
    }
  }

  lemma {:induction false} RemainingNext(ms: seq<Migration>, v: nat)
    requires Ordered(ms) && NextPending(ms, v).Some?
    ensures var m := NextPending(ms, v).value;
            Remaining(ms, v) == |m.statements| + 4 + Remaining(ms, m.version)
  {
    OrderedTail(ms);
    if ms[0].version > v {
      RemainingAbove(ms[1..], v, ms[0].version);
    } else {
      RemainingNext(ms[1..], v);
    }
  }

  lemma {:induction false} RemainingAbove(ms: seq<Migration>, v: nat, w: nat)
    requires v <= w && forall m :: m in ms ==> m.version > w
    ensures Remaining(ms, v) == Remaining(ms, w)
  {
    if ms != [] {
      RemainingAbove(ms[1..], v, w);
    }
  }

  /** Whether the step does anything. */
  predicate Moves(s: System, r: nat, ok: bool)
    requires r < |s.runners|
  {
    !Finished(s.runners[r].pc) && !(s.runners[r].pc.Begin? && ok && s.lock.Some?)
  }

  /** What the invariant says about a runner and its next step. */
  lemma StepVersion(catalog: seq<Migration>, base: Database, s: System, r: nat, ok: bool)
    requires Inv(catalog, base, s) && r < |s.runners|
    ensures Ordered(catalog) && ValidTable(s.committed) && RunnerInv(catalog, s, r)
    ensures ValidTable(Step(s, r, ok).committed) && Version(s.committed) <= Version(Step(s, r, ok).committed)
  {
    StepInv(catalog, base, s, r, ok);
  }

  lemma OwnStepCosts(catalog: seq<Migration>, s: System, r: nat, ok: bool)
    requires Ordered(catalog) && r < |s.runners| && Moves(s, r, ok)
    requires ValidTable(s.committed) && RunnerInv(catalog, s, r)
    requires ValidTable(Step(s, r, ok).committed)
    ensures Rank(Step(s, r, ok).runners[r], Version(Step(s, r, ok).committed)) < Rank(s.runners[r], Version(s.committed))
  {
    var x, v := s.runners[r], Version(s.committed);
    match x.pc
    case Reread =>
      RereadCosts(catalog, s, r, ok);
    case Execute(m, done) =>
    case Commit(m) =>
      if ok {
        assert Version(Step(s, r, ok).committed) == m.version;
      }
    case _ =>
  }

  lemma RereadCosts(catalog: seq<Migration>, s: System, r: nat, ok: bool)
    requires Ordered(catalog) && r < |s.runners| && Moves(s, r, ok) && s.runners[r].pc.Reread?
    requires ValidTable(s.committed) && RunnerInv(catalog, s, r)
    requires ValidTable(Step(s, r, ok).committed)
    ensures Rank(Step(s, r, ok).runners[r], Version(Step(s, r, ok).committed)) < Rank(s.runners[r], Version(s.committed))
  {
    var x, v := s.runners[r], Version(s.committed);
    if NextPending(x.migrations, v).Some? {
      RemainingNext(x.migrations, v);
    }
  }

  /** Every step of a runner uses up its own bound, and no step of another raises it. */
  lemma RankDecreases(catalog: seq<Migration>, s: System, r: nat, ok: bool, q: nat)
    requires Ordered(catalog) && r < |s.runners| && q < |s.runners| && ValidTable(s.committed) && RunnerInv(catalog, s, r)
    requires ValidTable(Step(s, r, ok).committed) && Version(s.committed) <= Version(Step(s, r, ok).committed)
    ensures Rank(Step(s, r, ok).runners[q], Version(Step(s, r, ok).committed)) + (if q == r && Moves(s, r, ok) then 1 else 0)
         <= Rank(s.runners[q], Version(s.committed))
  {
    if q == r && Moves(s, r, ok) {
      OwnStepCosts(catalog, s, r, ok);
    } else {
      StaysPut(s, r, ok, q);
      RankShrinks(s.runners[q], Version(s.committed), Version(Step(s, r, ok).committed));
    }
  }

  lemma RankShrinks(x: Runner, v: nat, w: nat)
    requires v <= w
    ensures Rank(x, w) <= Rank(x, v)
  {
    RemainingShrinks(x.migrations, v, w);
  }

  lemma StaysPut(s: System, r: nat, ok: bool, q: nat)
    requires r < |s.runners| && q < |s.runners| && (q != r || !Moves(s, r, ok))
    ensures Step(s, r, ok).runners[q] == s.runners[q]
  {
  }

  /** The steps of `schedule` in which runner `q` really moves. */
  function MovesOf(s: System, schedule: Schedule, q: nat): nat
    decreases |schedule|
  {
    if schedule == [] then 0
    else
      var init := schedule[..|schedule| - 1];
      var (r, ok) := schedule[|schedule| - 1];
      MovesOf(s, init, q) + (if r == q && r < |s.runners| && Moves(Run(s, init), r, ok) then 1 else 0)
  }

  /** No runner takes more steps than its own list costs, whatever the others do. */
  lemma {:induction false} EveryRunnerTerminates(catalog: seq<Migration>, base: Database, s: System, schedule: Schedule, q: nat)
    requires Inv(catalog, base, s) && q < |s.runners|
    ensures Inv(catalog, base, Run(s, schedule))
    ensures MovesOf(s, schedule, q) + Rank(Run(s, schedule).runners[q], Version(Run(s, schedule).committed))
         <= Rank(s.runners[q], Version(s.committed))
    decreases |schedule|
  {
    RunInv(catalog, base, s, schedule);
    if schedule != [] {
      var init := schedule[..|schedule| - 1];
      var (r, ok) := schedule[|schedule| - 1];
      EveryRunnerTerminates(catalog, base, s, init, q);
      if r < |s.runners| {
        StepVersion(catalog, base, Run(s, init), r, ok);
        RankDecreases(catalog, Run(s, init), r, ok, q);
      }
    }
  }

  /** How a runner can end: success is exactly its own latest version, and then the database is
      at least there; refusal means the database is newer than the build. */
  lemma OutcomeOfRunner(catalog: seq<Migration>, base: Database, s: System, schedule: Schedule, q: nat)
    requires Initial(catalog, base, s) && q < |s.runners|
    ensures var t := Run(s, schedule); var x := t.runners[q];
            && ValidTable(t.committed)
            && (x.pc.Returned? ==> x.pc.version == Latest(x.migrations) <= Version(t.committed))
            && (x.pc == Raised(NewerSchema) ==> Latest(x.migrations) < Version(t.committed))
            && x.pc != Raised(NoVersionRow)
  {
    InitialInv(catalog, base, s);
    RunInv(catalog, base, s, schedule);
    assert RunnerInv(catalog, Run(s, schedule), q);
  }

  // ------------------------------------------------- what a failure needs

  /** The access of step `k` fails for runner `q`, which then stands at `pc`. */
  ghost predicate FailedAt(s: System, schedule: Schedule, q: nat, k: nat, pc: Pc)
    requires q < |s.runners| && k < |schedule|
  {
    schedule[k] == (q, false) && Run(s, schedule[..k]).runners[q].pc == pc
  }

  /** Some step of runner `q` failed while it was waiting for the lock. */
  ghost predicate LockRefused(s: System, schedule: Schedule, q: nat)
    requires q < |s.runners|
  {
    exists k :: 0 <= k < |schedule| && FailedAt(s, schedule, q, k, Begin)
  }

  /** Some step of runner `q` failed while it was executing or committing a migration. */
  ghost predicate WorkFailed(s: System, schedule: Schedule, q: nat)
    requires q < |s.runners|
  {
    exists k, pc: Pc :: 0 <= k < |schedule| && (pc.Execute? || pc.Commit?) && FailedAt(s, schedule, q, k, pc)
  }

  lemma FailedBefore(s: System, schedule: Schedule, q: nat, k: nat, pc: Pc)
    requires q < |s.runners| && schedule != [] && k < |schedule| - 1
    ensures FailedAt(s, schedule, q, k, pc) == FailedAt(s, schedule[..|schedule| - 1], q, k, pc)
  {
    assert schedule[..|schedule| - 1][..k] == schedule[..k];
  }

  /** One step more: the refusals are those before and perhaps the last one. */
  lemma RefusedNext(s: System, schedule: Schedule, q: nat)
    requires q < |s.runners| && schedule != []
    ensures var n := |schedule| - 1;
      LockRefused(s, schedule, q) <==> LockRefused(s, schedule[..n], q) || FailedAt(s, schedule, q, n, Begin)
  {
    var n := |schedule| - 1;
    if LockRefused(s, schedule, q) {
      var k :| 0 <= k < |schedule| && FailedAt(s, schedule, q, k, Begin);
      if k < n { FailedBefore(s, schedule, q, k, Begin); }
    }
    if LockRefused(s, schedule[..n], q) {
      var k :| 0 <= k < n && FailedAt(s, schedule[..n], q, k, Begin);
      FailedBefore(s, schedule, q, k, Begin);
    }
  }

  lemma WorkFailedNext(s: System, schedule: Schedule, q: nat)
    requires q < |s.runners| && schedule != []
    ensures var n := |schedule| - 1; var pc := Run(s, schedule[..n]).runners[q].pc;
      WorkFailed(s, schedule, q) <==>
      WorkFailed(s, schedule[..n], q) || ((pc.Execute? || pc.Commit?) && FailedAt(s, schedule, q, n, pc))
  {
    var n := |schedule| - 1;
    if WorkFailed(s, schedule, q) {
      var k, pc: Pc :| 0 <= k < |schedule| && (pc.Execute? || pc.Commit?) && FailedAt(s, schedule, q, k, pc);
      if k < n { FailedBefore(s, schedule, q, k, pc); }
    }
    if WorkFailed(s, schedule[..n], q) {
      var k, pc: Pc :| 0 <= k < n && (pc.Execute? || pc.Commit?) && FailedAt(s, schedule[..n], q, k, pc);
      FailedBefore(s, schedule, q, k, pc);
    }
  }

  /** A runner ends busy, in any interleaving, if and only if it was refused the lock, and ends with a
      failed migration if and only if a step of its own work failed. */
  lemma {:induction false} FailuresAreReal(s: System, schedule: Schedule, q: nat)
    requires q < |s.runners| && s.runners[q].pc.Precheck?
    ensures Run(s, schedule).runners[q].pc == Raised(DatabaseBusy) <==> LockRefused(s, schedule, q)
    ensures Run(s, schedule).runners[q].pc == Raised(MigrationFailed) <==> WorkFailed(s, schedule, q)
    decreases |schedule|
  {
    if schedule != [] {
      var n := |schedule| - 1;
      FailuresAreReal(s, schedule[..n], q);
      RefusedNext(s, schedule, q);
      WorkFailedNext(s, schedule, q);
      FailureStep(Run(s, schedule[..n]), schedule[n].0, schedule[n].1, q);
    }
  }

  lemma FailureStep(s: System, r: nat, ok: bool, q: nat)
    requires q < |s.runners|
    ensures var t := if r < |s.runners| then Step(s, r, ok) else s; var pc := s.runners[q].pc;
      && (t.runners[q].pc == Raised(DatabaseBusy) <==> pc == Raised(DatabaseBusy) || ((r, ok) == (q, false) && pc.Begin?))
      && (t.runners[q].pc == Raised(MigrationFailed) <==>
          pc == Raised(MigrationFailed) || ((r, ok) == (q, false) && (pc.Execute? || pc.Commit?)))
  {
  }

  /** All accesses of runner `q` succeed. */
  predicate OwnStepsSucceed(schedule: Schedule, q: nat)
  {
    forall k :: 0 <= k < |schedule| && schedule[k].0 == q ==> schedule[k].1
  }

  /** In any interleaving, a runner whose own accesses all succeed ends at its latest version, or finds
      that others have made the database newer. */
  lemma UnhinderedOutcome(catalog: seq<Migration>, base: Database, s: System, schedule: Schedule, q: nat)
    requires Initial(catalog, base, s) && q < |s.runners| && OwnStepsSucceed(schedule, q)
    requires Finished(Run(s, schedule).runners[q].pc)
    ensures var t := Run(s, schedule); var x := t.runners[q];
      && ValidTable(t.committed)
      && (x.pc == Returned(Latest(x.migrations)) || x.pc == Raised(NewerSchema))
      && (x.pc.Returned? ==> Latest(x.migrations) <= Version(t.committed))
      && (x.pc.Raised? ==> Latest(x.migrations) < Version(t.committed))
  {
    OutcomeOfRunner(catalog, base, s, schedule, q);
    NoFailure(s, schedule, q);
    TwoEnds(Run(s, schedule).runners[q].pc);
  }

  lemma TwoEnds(pc: Pc)
    requires Finished(pc) && pc !in {Raised(DatabaseBusy), Raised(MigrationFailed), Raised(NoVersionRow)}
    ensures pc.Returned? || pc == Raised(NewerSchema)
  {
    match pc
    case Raised(error) => assert error == NewerSchema;
    case _ =>
  }

  lemma NoFailure(s: System, schedule: Schedule, q: nat)
    requires q < |s.runners| && s.runners[q].pc.Precheck? && OwnStepsSucceed(schedule, q)
    ensures Run(s, schedule).runners[q].pc !in {Raised(DatabaseBusy), Raised(MigrationFailed)}
  {
    FailuresAreReal(s, schedule, q);
  }

  /** No deadlock: as long as a runner is unfinished, some runner can really move. */
  lemma SomeoneCanMove(catalog: seq<Migration>, base: Database, s: System, schedule: Schedule, q: nat)
    returns (mover: nat)
    requires Initial(catalog, base, s) && q < |s.runners| && !Finished(Run(s, schedule).runners[q].pc)
    ensures mover < |s.runners| && Moves(Run(s, schedule), mover, true)
  {
    InitialInv(catalog, base, s);
    RunInv(catalog, base, s, schedule);
    var t := Run(s, schedule);
    mover := if t.lock.Some? then t.lock.value else q;
    assert RunnerInv(catalog, t, mover);
  }

  /** A build that knows no migration above the database it finds never waits for the lock, whatever
      the others do: at its first step it refuses a newer database, and otherwise returns or refuses. */
  lemma {:induction false} UpToDateNeverWaits(catalog: seq<Migration>, base: Database, s: System, schedule: Schedule, q: nat)
    requires Initial(catalog, base, s) && q < |s.runners| && Latest(s.runners[q].migrations) <= Version(base)
    ensures var x := Run(s, schedule).runners[q];
      if exists k :: 0 <= k < |schedule| && schedule[k].0 == q
      then x.pc == Raised(NewerSchema) || (x.pc == Returned(Latest(x.migrations)) && Latest(x.migrations) == Version(base))
      else x.pc == Precheck
    decreases |schedule|
  {
    if schedule != [] {
      var n := |schedule| - 1;
      UpToDateNeverWaits(catalog, base, s, schedule[..n], q);
      VersionsGrow(catalog, base, s, schedule[..n]);
      assert schedule == schedule[..n] + [schedule[n]];
      UpToDateStep(Run(s, schedule[..n]), schedule[n].0, schedule[n].1, q);
    }
  }

  lemma VersionsGrow(catalog: seq<Migration>, base: Database, s: System, schedule: Schedule)
    requires Initial(catalog, base, s)
    ensures ValidTable(Run(s, schedule).committed) && Version(base) <= Version(Run(s, schedule).committed)
  {
    InitialInv(catalog, base, s);
    RunInv(catalog, base, s, schedule);
  }

  lemma UpToDateStep(s: System, r: nat, ok: bool, q: nat)
    requires q < |s.runners| && ValidTable(s.committed) && Latest(s.runners[q].migrations) <= Version(s.committed)
    ensures var pc := (if r < |s.runners| then Step(s, r, ok) else s).runners[q].pc;
      && (r != q || Finished(s.runners[q].pc) ==> pc == s.runners[q].pc)
      && (r == q && s.runners[q].pc.Precheck? ==>
          if Latest(s.runners[q].migrations) < Version(s.committed) then pc == Raised(NewerSchema)
          else pc == Returned(Version(s.committed)))
  {
  }

  // ------------------------------------------------- one turn of one runner

  /** Runner `r` takes `n` steps in a row, all of which succeed. */
  function Alone(r: nat, n: nat): (schedule: Schedule)
    ensures |schedule| == n
  {
    if n == 0 then [] else Alone(r, n - 1) + [(r, true)]
  }

  lemma OneMoreStep(s: System, r: nat, n: nat)
    requires r < |s.runners| && n > 0
    ensures Run(s, Alone(r, n)) == Step(Run(s, Alone(r, n - 1)), r, true)
  {
    assert Alone(r, n)[..n - 1] == Alone(r, n - 1);
  }

  /** The version read lets the runner go on with `m`. */
  predicate PicksNext(list: seq<Migration>, db: Database, m: Migration)
  {
    && GetCurrentVersion(db).Ok? && GetCurrentVersion(db).version <= Latest(list)
    && NextPending(list, GetCurrentVersion(db).version) == Some(m)
  }

  /** From `s`, runner `r` has taken the lock and executed `k` statements of `m` on its work copy. */
  function Midway(s: System, r: nat, m: Migration, k: nat): System
    requires r < |s.runners| && k <= |m.statements|
  {
    Goto(s, r, Execute(m, k)).(lock := Some(r),
                               work := Database(s.committed.schema + m.statements[..k], s.committed.versionRows))
  }

  lemma TakesLock(s: System, r: nat, m: Migration)
    requires r < |s.runners| && s.runners[r].pc == Begin && s.lock.None? && PicksNext(s.runners[r].migrations, s.committed, m)
    ensures Step(Step(s, r, true), r, true) == Midway(s, r, m, 0)
  {
    assert s.committed.schema + m.statements[..0] == s.committed.schema;
    var t := Step(s, r, true);
    assert t.runners[r].pc == Reread && t.work == s.committed;
  }

  lemma OneStatement(s: System, r: nat, m: Migration, k: nat)
    requires r < |s.runners| && k < |m.statements|
    ensures Step(Midway(s, r, m, k), r, true) == Midway(s, r, m, k + 1)
  {
    assert s.committed.schema + m.statements[..k] + [m.statements[k]] == s.committed.schema + m.statements[..k + 1];
  }

  lemma Commits(s: System, r: nat, m: Migration)
    requires r < |s.runners| && s.runners[r].pc == Begin && s.lock.None?
    ensures Step(Step(Midway(s, r, m, |m.statements|), r, true), r, true)
         == s.(committed := Applied(s.committed, m), log := s.log + [m], work := Applied(s.committed, m))
  {
    assert m.statements[..|m.statements|] == m.statements;
    var t := Step(Midway(s, r, m, |m.statements|), r, true);
    assert t.runners[r].pc == Commit(m) && t.work == Applied(s.committed, m);
    assert Step(t, r, true).runners == s.runners;
  }

  lemma {:induction false} StatementsAlone(s: System, r: nat, m: Migration, k: nat)
    requires r < |s.runners| && s.runners[r].pc == Begin && s.lock.None? && k <= |m.statements|
    requires PicksNext(s.runners[r].migrations, s.committed, m)
    ensures Run(s, Alone(r, k + 2)) == Midway(s, r, m, k)
  {
    OneMoreStep(s, r, k + 2);
    if k == 0 {
      OneMoreStep(s, r, k + 1);
      assert Run(s, Alone(r, k)) == s;
      TakesLock(s, r, m);
    } else {
      StatementsAlone(s, r, m, k - 1);
      OneStatement(s, r, m, k - 1);
    }
  }

  /** A runner that finds the lock free and goes through its turn does what `ExecuteMigration` and the
      commit do in one go: the committed database becomes the migrated one. */
  lemma TurnAlone(s: System, r: nat, m: Migration)
    requires r < |s.runners| && s.runners[r].pc == Begin && s.lock.None?
    requires PicksNext(s.runners[r].migrations, s.committed, m)
    ensures var t := Run(s, Alone(r, |m.statements| + 4));
      && t.committed == Applied(s.committed, m) && t.log == s.log + [m]
      && t.lock.None? && t.runners == s.runners
  {
    var n := |m.statements|;
    StatementsAlone(s, r, m, n);
    OneMoreStep(s, r, n + 3);
    OneMoreStep(s, r, n + 4);
    Commits(s, r, m);
  }

  // ------------------------------------------------- a whole run of one runner

  /** With nobody else moving, the lock is free or held by `r`, and the version stays within its list. */
  ghost predicate LoneInv(catalog: seq<Migration>, base: Database, s: System, r: nat)
  {
    && Inv(catalog, base, s) && r < |s.runners|
    && (s.lock.Some? ==> s.lock == Some(r))
    && (Version(base) <= Latest(s.runners[r].migrations) ==> Version(s.committed) <= Latest(s.runners[r].migrations))
    && (Version(base) > Latest(s.runners[r].migrations) ==> s.committed == base)
  }

  lemma LoneStep(catalog: seq<Migration>, base: Database, s: System, r: nat)
    requires LoneInv(catalog, base, s, r)
    ensures LoneInv(catalog, base, Step(s, r, true), r)
    ensures Finished(s.runners[r].pc) || Moves(s, r, true)
  {
    StepInv(catalog, base, s, r, true);
    OnlyCommitChanges(catalog, base, s, r, true);
    LoneLock(s, r);
    assert RunnerInv(catalog, s, r);
    if s.runners[r].pc.Commit? {
      LatestIsMax(s.runners[r].migrations, s.runners[r].pc.m);
    }
  }

  lemma LoneLock(s: System, r: nat)
    requires r < |s.runners| && (s.lock.Some? ==> s.lock == Some(r))
    ensures Step(s, r, true).lock.Some? ==> Step(s, r, true).lock == Some(r)
  {
  }

  lemma {:induction false} LoneRun(catalog: seq<Migration>, base: Database, s: System, r: nat, n: nat)
    requires LoneInv(catalog, base, s, r)
    ensures LoneInv(catalog, base, Run(s, Alone(r, n)), r)
    ensures Finished(Run(s, Alone(r, n)).runners[r].pc) || MovesOf(s, Alone(r, n), r) == n
  {
    if n > 0 {
      LoneRun(catalog, base, s, r, n - 1);
      OneMoreStep(s, r, n);
      LoneStep(catalog, base, Run(s, Alone(r, n - 1)), r);
      OneMoreMove(s, r, n);
      if Finished(Run(s, Alone(r, n - 1)).runners[r].pc) {
        FinishedStays(Run(s, Alone(r, n - 1)), r);
      }
    }
  }

  lemma OneMoreMove(s: System, r: nat, n: nat)
    requires r < |s.runners| && n > 0
    ensures MovesOf(s, Alone(r, n), r)
         == MovesOf(s, Alone(r, n - 1), r) + (if Moves(Run(s, Alone(r, n - 1)), r, true) then 1 else 0)
  {
    assert Alone(r, n)[..n - 1] == Alone(r, n - 1) && Alone(r, n)[n - 1] == (r, true);
  }

  lemma FinishedStays(s: System, r: nat)
    requires r < |s.runners| && Finished(s.runners[r].pc)
    ensures Step(s, r, true) == s
  {
  }

  /** A runner that is left alone and whose accesses succeed finishes within the steps its pending
      migrations cost. A database that is newer is refused and left as it is; any other one ends at the
      latest version of the runner's list, with exactly the migrations in between committed. */
  lemma LoneRunnerMigrates(catalog: seq<Migration>, base: Database, s: System, r: nat, n: nat)
    requires Initial(catalog, base, s) && r < |s.runners|
    requires n >= 3 + Remaining(s.runners[r].migrations, Version(base))
    ensures var t := Run(s, Alone(r, n)); var latest := Latest(s.runners[r].migrations);
      && ValidTable(t.committed)
      && (if Version(base) > latest then t.runners[r].pc == Raised(NewerSchema) && t.committed == base
          else t.runners[r].pc == Returned(latest) && Version(t.committed) == latest
               && t.log == Between(catalog, Version(base), latest))
  {
    LoneFinishes(catalog, base, s, r, n);
    LoneOutcome(catalog, base, s, r, n);
    MigrationsCommittedOnceInOrder(catalog, base, s, Alone(r, n));
  }

  lemma LoneOutcome(catalog: seq<Migration>, base: Database, s: System, r: nat, n: nat)
    requires Initial(catalog, base, s) && r < |s.runners| && Finished(Run(s, Alone(r, n)).runners[r].pc)
    ensures var t := Run(s, Alone(r, n)); var latest := Latest(s.runners[r].migrations);
      && ValidTable(t.committed)
      && if Version(base) > latest then t.runners[r].pc == Raised(NewerSchema)
         else if Version(t.committed) <= latest then t.runners[r].pc == Returned(latest) && Version(t.committed) == latest
         else true
  {
    SucceedsAlone(r, n);
    UnhinderedOutcome(catalog, base, s, Alone(r, n), r);
    if Version(base) > Latest(s.runners[r].migrations) {
      UpToDateNeverWaits(catalog, base, s, Alone(r, n), r);
    }
  }

  lemma LoneFinishes(catalog: seq<Migration>, base: Database, s: System, r: nat, n: nat)
    requires Initial(catalog, base, s) && r < |s.runners|
    requires n >= 3 + Remaining(s.runners[r].migrations, Version(base))
    ensures var t := Run(s, Alone(r, n)); var latest := Latest(s.runners[r].migrations);
      && Finished(t.runners[r].pc) && ValidTable(t.committed) && Version(base) <= Version(t.committed)
      && (if Version(base) > latest then t.committed == base else Version(t.committed) <= latest)
  {
    InitialInv(catalog, base, s);
    LoneRun(catalog, base, s, r, n);
    EveryRunnerTerminates(catalog, base, s, Alone(r, n), r);
    RankZero(Run(s, Alone(r, n)).runners[r], Version(Run(s, Alone(r, n)).committed));
  }

  lemma RankZero(x: Runner, v: nat)
    ensures Rank(x, v) == 0 ==> Finished(x.pc)
  {
    match x.pc
    case Precheck =>
    case Begin =>
    case Reread =>
    case Execute(m, done) =>
    case Commit(m) =>
    case _ =>
  }

  lemma {:induction false} SucceedsAlone(r: nat, n: nat)
    ensures OwnStepsSucceed(Alone(r, n), r)
  {
    if n > 0 {
      SucceedsAlone(r, n - 1);
    }
  }
}
