/** Schema migrations (app/database/migration_runner.py): what a database records, what one
    runner does, and every interleaving of any number of runners on one database. */
module MigrationRunner {
  import opened Basics

  datatype Failure = NewerSchema | NoVersionRow | MigrationFailed | DatabaseBusy

  datatype Outcome = Ok(version: nat) | Err(error: Failure)

  /** A discovered migration file; its SQL is already split into statements. */
  datatype Migration = Migration(version: nat, name: string, statements: seq<string>)

  /** The statements executed so far, and the rows of `schema_version` (None: no such table). */
  datatype Database = Database(schema: seq<string>, versionRows: Option<seq<nat>>)

  function GetCurrentVersion(db: Database): Outcome
  {
    match db.versionRows
    case None => Ok(0)
    case Some(rows) => if rows == [] then Err(NoVersionRow) else Ok(rows[0])
  }

  function SetVersion(db: Database, version: nat): Database
  {
    var rows := if db.versionRows.None? then [] else db.versionRows.value;
    db.(versionRows := Some(if |rows| == 0 then [version] else seq(|rows|, i => version)))
  }

  /** The database once migration `m` is committed on it. */
  function Applied(db: Database, m: Migration): Database
  {
    SetVersion(Database(db.schema + m.statements, db.versionRows), m.version)
  }

  function Latest(ms: seq<Migration>): nat
  {
    if ms == [] then 0 else ms[|ms| - 1].version
  }

  function NextPending(ms: seq<Migration>, current: nat): (m: Option<Migration>)
    ensures m.Some? ==> m.value in ms && m.value.version > current
    ensures m.None? ==> forall x :: x in ms ==> x.version <= current
  {
    if ms == [] then None
    else if ms[0].version > current then Some(ms[0])
    else NextPending(ms[1..], current)
  }

  /** Discovery returns its migrations like this. */
  predicate Ordered(ms: seq<Migration>)
  {
    forall i, j :: 0 <= i < j < |ms| ==> ms[i].version < ms[j].version
  }

  /** No version table, or one with exactly one row. */
  predicate ValidTable(db: Database)
  {
    db.versionRows.None? || |db.versionRows.value| == 1
  }

  function Version(db: Database): nat
    requires ValidTable(db)
  {
    GetCurrentVersion(db).version
  }

  /** The migrations of `ms` above `lo` and up to `hi`. */
  function Between(ms: seq<Migration>, lo: nat, hi: nat): seq<Migration>
  {
    if ms == [] then []
    else (if lo < ms[0].version <= hi then [ms[0]] else []) + Between(ms[1..], lo, hi)
  }

  function Script(ms: seq<Migration>): seq<string>
  {
    if ms == [] then [] else Script(ms[..|ms| - 1]) + ms[|ms| - 1].statements
  }

  /** The database started as `base`; `log` is what was committed since, and it is exactly the
      catalogue's migrations from the version of `base` up to the recorded one, each once. */
  ghost predicate Consistent(catalog: seq<Migration>, base: Database, db: Database, log: seq<Migration>)
  {
    && ValidTable(base) && ValidTable(db)
    && Version(base) <= Version(db)
    && (if log == [] then db == base else Version(db) == log[|log| - 1].version)
    && log == Between(catalog, Version(base), Version(db))
    && db.schema == base.schema + Script(log)
  }

  // ------------------------------------------------- facts about the catalogue

  lemma {:induction false} BetweenNone(ms: seq<Migration>, lo: nat, hi: nat)
    requires forall m :: m in ms ==> m.version <= lo || m.version > hi
    ensures Between(ms, lo, hi) == []
  {
    if ms != [] {
      BetweenNone(ms[1..], lo, hi);
    }
  }

  lemma {:induction false} BetweenMembers(ms: seq<Migration>, lo: nat, hi: nat, x: Migration)
    ensures x in Between(ms, lo, hi) <==> x in ms && lo < x.version <= hi
  {
    if ms != [] {
      BetweenMembers(ms[1..], lo, hi, x);
      assert ms == [ms[0]] + ms[1..];
    }
  }

  lemma OrderedTail(ms: seq<Migration>)
    requires Ordered(ms) && ms != []
    ensures Ordered(ms[1..])
    ensures forall m :: m in ms[1..] ==> m.version > ms[0].version
  {
    forall i, j | 0 <= i < j < |ms[1..]| ensures ms[1..][i].version < ms[1..][j].version {
      assert ms[i + 1].version < ms[j + 1].version;
    }
  }

  /** A committed range of the catalogue is strictly increasing in version. */
  lemma {:induction false} BetweenOrdered(ms: seq<Migration>, lo: nat, hi: nat)
    requires Ordered(ms)
    ensures Ordered(Between(ms, lo, hi))
  {
    if ms != [] {
      OrderedTail(ms);
      BetweenOrdered(ms[1..], lo, hi);
      var rest := Between(ms[1..], lo, hi);
      forall k | 0 <= k < |rest| ensures rest[k].version > ms[0].version {
        BetweenMembers(ms[1..], lo, hi, rest[k]);
      }
    }
  }

  /** What a build with a shorter list picks next is what the whole catalogue has next:
      the committed range grows by exactly that migration. */
  lemma {:induction false} BetweenNext(catalog: seq<Migration>, list: seq<Migration>, lo: nat, v: nat)
    requires Ordered(catalog) && list <= catalog && lo <= v
    requires NextPending(list, v).Some?
    ensures Between(catalog, lo, NextPending(list, v).value.version)
         == Between(catalog, lo, v) + [NextPending(list, v).value]
  {
    OrderedTail(catalog);
    var m := NextPending(list, v).value;
    if catalog[0].version > v {
      assert m == catalog[0];
      BetweenNone(catalog[1..], lo, m.version);
      BetweenNone(catalog[1..], lo, v);
    } else {
      assert m in list[1..];
      assert list[1..] <= catalog[1..];
      BetweenNext(catalog[1..], list[1..], lo, v);
      assert m.version > catalog[0].version;
    }
  }

  lemma ScriptAppend(log: seq<Migration>, m: Migration)
    ensures Script(log + [m]) == Script(log) + m.statements
  {
    assert (log + [m])[..|log + [m]| - 1] == log;
  }

  /** Committing the next pending migration of a known list keeps the database consistent. */
  lemma CommitKeepsConsistent(catalog: seq<Migration>, base: Database, db: Database, log: seq<Migration>,
                              list: seq<Migration>)
    requires Ordered(catalog) && list <= catalog && Consistent(catalog, base, db, log)
    requires NextPending(list, Version(db)).Some?
    ensures var m := NextPending(list, Version(db)).value;
            Consistent(catalog, base, Applied(db, m), log + [m]) && Version(Applied(db, m)) == m.version
  {
    var m := NextPending(list, Version(db)).value;
    BetweenNext(catalog, list, Version(base), Version(db));
    ScriptAppend(log, m);
    assert base.schema + Script(log) + m.statements == base.schema + (Script(log) + m.statements);
  }

  /** Once nothing is pending and the database is not newer, it is at the list's last version. */
  lemma NothingPending(list: seq<Migration>, v: nat)
    requires Ordered(list) && NextPending(list, v).None? && v <= Latest(list)
    ensures v == Latest(list)
  {
    if list != [] {
      assert list[|list| - 1] in list;
    }
  }

  // ------------------------------------------------- one runner, as written

  /** The database file that several runners share. What other runners do while this one does
      not hold the write lock is given from outside: at turn `t` they commit `others(t)`
      migrations of the catalogue, one after the other. */
  class SharedDatabase {
    const catalog: seq<Migration>
    const base: Database
    const others: nat -> nat
    var committed: Database
    ghost var log: seq<Migration>
    /** Which entries of the log this runner committed. */
    ghost var mine: seq<bool>

    constructor (catalog: seq<Migration>, base: Database, others: nat -> nat)
      requires Ordered(catalog) && ValidTable(base)
      ensures Valid() && committed == base && log == [] && this.catalog == catalog && this.others == others
    {
      this.catalog, this.base, this.others, committed, log, mine := catalog, base, others, base, [], [];
      BetweenNone(catalog, Version(base), Version(base));
    }

    ghost predicate Valid()
      reads this
    {
      Ordered(catalog) && Consistent(catalog, base, committed, log) && |mine| == |log|
    }

    /** The log has grown, and what this runner committed meanwhile is of its own list. */
    twostate predicate Grown(list: seq<Migration>)
      reads this
    {
      && old(log) <= log && old(mine) <= mine && |mine| == |log|
      && forall k :: |old(log)| <= k < |log| && mine[k] ==> log[k] in list
    }

    /** Ends a transaction in which the next pending migration of `list` was executed. */
    method Commit(txn: Database, m: Migration, ghost list: seq<Migration>, ghost own: bool)
      requires Valid() && list <= catalog && NextPending(list, Version(committed)) == Some(m)
      requires txn == Applied(committed, m)
      modifies this`committed, this`log, this`mine
      ensures Valid() && committed == txn && log == old(log) + [m] && mine == old(mine) + [own]
      ensures Version(committed) == m.version
    {
      CommitKeepsConsistent(catalog, base, committed, log, list);
      committed := txn;
      log, mine := log + [m], mine + [own];
    }

    /** A point without the lock: other runners commit. */
    method OthersCommit(t: nat)
      requires Valid()
      modifies this`committed, this`log, this`mine
      ensures Valid() && Version(old(committed)) <= Version(committed)
      ensures Grown([])
    {
      var k := 0;
      while k < others(t)
        invariant Valid() && Version(old(committed)) <= Version(committed)
        invariant Grown([])
      {
        var next := NextPending(catalog, Version(committed));
        if next.Some? {
          Commit(Applied(committed, next.value), next.value, catalog, false);
        }
        k := k + 1;
      }
    }
  }

  /** Executes `m` in a transaction on `start`; `succeeds(i)` says whether statement `i` does (the
      version update and the COMMIT are the two after the last). None: rolled back. */
  method ExecuteMigration(start: Database, m: Migration, succeeds: nat -> bool) returns (txn: Option<Database>)
    ensures txn == if forall i :: 0 <= i <= |m.statements| + 1 ==> succeeds(i) then Some(Applied(start, m)) else None
  {
    var work := start;
    var i := 0;
    while i < |m.statements|
      invariant i <= |m.statements|
      invariant work == Database(start.schema + m.statements[..i], start.versionRows)
      invariant forall j :: 0 <= j < i ==> succeeds(j)
    {
      if !succeeds(i) {
        return None;
      }
      work := work.(schema := work.schema + [m.statements[i]]);
      assert start.schema + m.statements[..i] + [m.statements[i]] == start.schema + m.statements[..i + 1];
      i := i + 1;
    }
    assert m.statements[..i] == m.statements;
    if !succeeds(i) || !succeeds(i + 1) {
      return None;
    }
    return Some(SetVersion(work, m.version));
  }

  /** `succeeds(t, i)` says whether statement `i` of turn `t` succeeds, `busy(t)` whether waiting for
      the lock at turn `t` gives up. The log stays strictly ordered and grows by migrations that were
      pending; those this call commits are of its own list, the others were committed by others. */
  method ApplyMigrations(db: SharedDatabase, migrations: seq<Migration>,
                         busy: nat -> bool, succeeds: nat -> nat -> bool)
    returns (r: Outcome)
    requires db.Valid() && migrations <= db.catalog
    modifies db`committed, db`log, db`mine
    ensures db.Valid() && Ordered(db.log) && db.Grown(migrations)
    ensures Reported(r, migrations, db.committed, busy, succeeds)
    ensures Version(old(db.committed)) > Latest(migrations) ==> r == Err(NewerSchema)
    ensures forall k :: |old(db.log)| <= k < |db.log| ==> db.log[k].version > Version(old(db.committed))
  {
    var latest := Latest(migrations);
    db.OthersCommit(0);
    var precheck := GetCurrentVersion(db.committed);
    if precheck.Err? || precheck.version == latest {
      r := precheck;
    } else if precheck.version > latest {
      r := Err(NewerSchema);
    } else {
      r := ApplyAll(db, migrations, busy, succeeds);
    }
    LaterVersions(db.catalog, db.base, old(db.committed), old(db.log), db.committed, db.log);
  }

  /** What a result of the call says about the database and about what has failed. */
  ghost predicate Reported(r: Outcome, migrations: seq<Migration>, db: Database, busy: nat -> bool,
                           succeeds: nat -> nat -> bool)
    requires ValidTable(db)
  {
    && (r.Ok? ==> r.version == Latest(migrations) <= Version(db))
    && (r == Err(NewerSchema) ==> Version(db) > Latest(migrations))
    && r != Err(NoVersionRow)
    && (r == Err(DatabaseBusy) ==> exists t :: busy(t))
    && (r == Err(MigrationFailed) ==> exists t, i :: !succeeds(t)(i))
  }

  /** The log is strictly ordered, and what is added to it lies above what was recorded before. */
  lemma LaterVersions(catalog: seq<Migration>, base: Database, before: Database, log: seq<Migration>, db: Database,
                      grown: seq<Migration>)
    requires Ordered(catalog) && Consistent(catalog, base, before, log) && Consistent(catalog, base, db, grown) && log <= grown
    ensures Ordered(grown)
    ensures forall k :: |log| <= k < |grown| ==> grown[k].version > Version(before)
  {
    BetweenOrdered(catalog, Version(base), Version(db));
    forall k | |log| <= k < |grown| ensures grown[k].version > Version(before) {
      BetweenMembers(catalog, Version(base), Version(db), grown[k]);
      if log != [] {
        assert grown[|log| - 1] == log[|log| - 1];
      }
    }
  }

  /** The loop. */
  method ApplyAll(db: SharedDatabase, migrations: seq<Migration>, busy: nat -> bool, succeeds: nat -> nat -> bool)
    returns (r: Outcome)
    requires db.Valid() && migrations <= db.catalog && Version(db.committed) <= Latest(migrations)
    modifies db`committed, db`log, db`mine
    ensures db.Valid() && Version(old(db.committed)) <= Version(db.committed) && db.Grown(migrations)
    ensures Reported(r, migrations, db.committed, busy, succeeds)
  {
    var t := 1;
    while true
      invariant db.Valid() && Version(old(db.committed)) <= Version(db.committed) && db.Grown(migrations)
      decreases |Between(migrations, Version(db.committed), Latest(migrations))|
    {
      var turn := ApplyNext(db, migrations, t, busy(t), succeeds(t));
      match turn {
        case Stopped(error) =>
          return Err(error);
        case Settled(version) =>
          return Ok(version);
        case Committed(m) =>
          t := t + 1;
      }
    }
  }

  /** How one turn of the loop ends. */
  datatype Turn = Stopped(error: Failure) | Settled(version: nat) | Committed(m: Migration)

  /** One turn: take the lock, read the version again, execute and commit what is pending now. Only a
      committing turn adds an own entry to the log, as the last one. */
  method ApplyNext(db: SharedDatabase, migrations: seq<Migration>, t: nat, busy: bool, succeeds: nat -> bool)
    returns (turn: Turn)
    requires db.Valid() && migrations <= db.catalog
    modifies db`committed, db`log, db`mine
    ensures db.Valid() && Version(old(db.committed)) <= Version(db.committed) && db.Grown(migrations)
    ensures !turn.Committed? ==> db.Grown([])
    ensures turn.Settled? ==> turn.version == Latest(migrations) == Version(db.committed)
    ensures turn == Stopped(NewerSchema) ==> Version(db.committed) > Latest(migrations)
    ensures turn == Stopped(DatabaseBusy) <==> busy
    ensures turn == Stopped(MigrationFailed) ==> exists i :: !succeeds(i)
    ensures turn != Stopped(NoVersionRow)
    ensures turn.Committed? ==>
              && |db.log| > |old(db.log)| && db.log[|db.log| - 1] == turn.m && db.mine[|db.log| - 1]
              && turn.m in migrations && turn.m.version > Version(old(db.committed))
              && |Between(migrations, Version(db.committed), Latest(migrations))|
               < |Between(migrations, Version(old(db.committed)), Latest(migrations))|
  {
    ghost var before := Version(db.committed);
    db.OthersCommit(t);
    if busy {
      return Stopped(DatabaseBusy);
    }
    var current := GetCurrentVersion(db.committed);
    if current.Err? {
      return Stopped(current.error);
    }
    if current.version > Latest(migrations) {
      return Stopped(NewerSchema);
    }
    var next := NextPending(migrations, current.version);
    if next.None? {
      NothingPending(migrations, current.version);
      return Settled(current.version);
    }
    var txn := ExecuteMigration(db.committed, next.value, succeeds);
    if txn.None? {
      return Stopped(MigrationFailed);
    }
    PendingShrinks(migrations, before, current.version);
    db.Commit(txn.value, next.value, migrations, true);
    turn := Committed(next.value);
  }

  /** The pending part of a list gets strictly shorter with each migration applied. */
  lemma PendingShrinks(list: seq<Migration>, before: nat, v: nat)
    requires Ordered(list) && before <= v && NextPending(list, v).Some?
    ensures |Between(list, NextPending(list, v).value.version, Latest(list))| < |Between(list, before, Latest(list))|
  {
    var m := NextPending(list, v).value;
    assert m in list && m.version <= Latest(list) by { LatestIsMax(list, m); }
    BetweenSplit(list, before, m.version, Latest(list));
    BetweenMembers(list, before, m.version, m);
  }

  lemma LatestIsMax(list: seq<Migration>, m: Migration)
    requires Ordered(list) && m in list
    ensures m.version <= Latest(list)
  {
    var i :| 0 <= i < |list| && list[i] == m;
  }

  lemma {:induction false} BetweenSplit(ms: seq<Migration>, lo: nat, mid: nat, hi: nat)
    requires lo <= mid <= hi
    ensures |Between(ms, lo, hi)| == |Between(ms, lo, mid)| + |Between(ms, mid, hi)|
  {
    if ms != [] {
      BetweenSplit(ms[1..], lo, mid, hi);
    }
  }
}
