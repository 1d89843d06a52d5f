/** Stored investigations (app/database/repository.py) and the analysis call around them
    (app/analyzer.py): one call among others that insert and delete between its accesses. */
module InvestigationRepository {
  import opened Basics

  /** A stored investigation; `content` stands for everything besides its identity. */
  datatype Row = Row(id: nat, name: string, content: string)

  /** The rows in id order, and the id the next insert gets: ids are never given twice. */
  datatype Table = Table(rows: seq<Row>, nextId: nat)

  predicate Exists(t: Table, name: string)
  {
    exists i :: 0 <= i < |t.rows| && t.rows[i].name == name
  }

  /** The rows of that name, newest first. */
  function FindByName(rows: seq<Row>, name: string): (found: seq<Row>)
    ensures forall r :: r in found <==> r in rows && r.name == name
  {
    if rows == [] then []
    else (if rows[|rows| - 1].name == name then [rows[|rows| - 1]] else []) + FindByName(rows[..|rows| - 1], name)
  }

  function GetById(rows: seq<Row>, id: nat): (r: Option<Row>)
    ensures r.Some? ==> r.value in rows && r.value.id == id
    ensures r.None? ==> forall x :: x in rows ==> x.id != id
  {
    if rows == [] then None
    else if rows[|rows| - 1].id == id then Some(rows[|rows| - 1])
    else GetById(rows[..|rows| - 1], id)
  }

  /** The rows with another id. */
  function Keeping(rows: seq<Row>, id: nat): (kept: seq<Row>)
    ensures forall r :: r in kept <==> r in rows && r.id != id
  {
    if rows == [] then []
    else Keeping(rows[..|rows| - 1], id) + (if rows[|rows| - 1].id == id then [] else [rows[|rows| - 1]])
  }

  /** The INSERT without its conflict check. */
  function Inserted(t: Table, name: string, content: string): Table
  {
    Table(t.rows + [Row(t.nextId, name, content)], t.nextId + 1)
  }

  function Deleted(t: Table, id: nat): Table
  {
    t.(rows := Keeping(t.rows, id))
  }

  /** What the schema enforces: ids belong to one row and were given out before, and so does
      every report name. */
  predicate ValidTable(t: Table)
  {
    && (forall r :: r in t.rows ==> r.id < t.nextId)
    && (forall r, s :: r in t.rows && s in t.rows && (r.id == s.id || r.name == s.name) ==> r == s)
  }

  lemma InsertValid(t: Table, name: string, content: string)
    requires ValidTable(t) && !Exists(t, name)
    ensures ValidTable(Inserted(t, name, content))
    ensures forall r :: r in Inserted(t, name, content).rows <==> r in t.rows || r == Row(t.nextId, name, content)
  {
    var u := Inserted(t, name, content);
    forall r | r in t.rows ensures r.name != name && r in u.rows {
      var i :| 0 <= i < |t.rows| && t.rows[i] == r;
      assert u.rows[i] == r;
    }
    assert u.rows[|t.rows|] == Row(t.nextId, name, content);
  }

  lemma DeleteValid(t: Table, id: nat)
    requires ValidTable(t)
    ensures ValidTable(Deleted(t, id))
  {
  }

  /** A row of a valid table is what a search for its name or its id finds. */
  lemma RowIsFound(t: Table, r: Row)
    requires ValidTable(t) && r in t.rows
    ensures Exists(t, r.name)
    ensures FindByName(t.rows, r.name) != [] && FindByName(t.rows, r.name)[0] == r
    ensures GetById(t.rows, r.id) == Some(r)
  {
    var i :| 0 <= i < |t.rows| && t.rows[i] == r;
    var found := FindByName(t.rows, r.name);
    assert r in found;
    assert found[0] in found;
  }

  /** What another caller may do to the table between two accesses of this one. */
  datatype Action = InsertRow(name: string, content: string) | DeleteRow(id: nat)

  function Perform(t: Table, a: Action): Table
  {
    match a
    case InsertRow(name, content) => if Exists(t, name) then t else Inserted(t, name, content)
    case DeleteRow(id) => Deleted(t, id)
  }

  predicate InsertsOnly(acts: seq<Action>)
  {
    forall i :: 0 <= i < |acts| ==> acts[i].InsertRow?
  }

  /** From `t` to `u` nothing was deleted. */
  predicate Grew(t: Table, u: Table)
  {
    t.nextId <= u.nextId && forall r :: r in t.rows ==> r in u.rows
  }

  function ActAll(t: Table, acts: seq<Action>): Table
  {
    if acts == [] then t else Perform(ActAll(t, acts[..|acts| - 1]), acts[|acts| - 1])
  }

  lemma {:induction false} ActAllValid(t: Table, acts: seq<Action>)
    requires ValidTable(t)
    ensures var u := ActAll(t, acts);
      && ValidTable(u) && t.nextId <= u.nextId
      && (forall r :: r in u.rows ==> r in t.rows || r.id >= t.nextId)
      && (InsertsOnly(acts) ==> Grew(t, u))
  {
    if acts != [] {
      var init, last := acts[..|acts| - 1], acts[|acts| - 1];
      ActAllValid(t, init);
      var u := ActAll(t, init);
      assert InsertsOnly(acts) ==> InsertsOnly(init) && last.InsertRow?;
      if last.InsertRow? && !Exists(u, last.name) {
        InsertValid(u, last.name, last.content);
      }
    }
  }

  // ------------------------------------------------- the accesses of one analysis

  datatype Failure = DuplicateVanished | ConflictVanished | SavedVanished

  /** Where a call stands: which access it makes next, or how it ended. */
  datatype Pc =
    | Check
    | FindExisting
    | TryInsert
    | ResolveConflict
    | Load(id: nat, created: bool)
    | Done(row: Row, existing: bool)
    | Raised(error: Failure)
  {
    predicate Finished() { Done? || Raised? }

    /** The accesses are numbered. */
    function Number(): nat
    {
      match this
      case Check => 0 case FindExisting => 1 case TryInsert => 2 case ResolveConflict => 3 case _ => 4
    }

    /** How many accesses may still come. */
    function Left(): nat
    {
      match this
      case Check => 4 case FindExisting => 1 case TryInsert => 3 case ResolveConflict => 2 case Load(_, _) => 1 case _ => 0
    }
  }

  /** One access to the table, and what the call does next. */
  function Access(name: string, content: string, pc: Pc, t: Table): (Pc, Table)
  {
    match pc
    case Check => (if Exists(t, name) then FindExisting else TryInsert, t)
    case FindExisting =>
      var matches := FindByName(t.rows, name);
      (if matches == [] then Raised(DuplicateVanished) else Done(matches[0], true), t)
    case TryInsert => if Exists(t, name) then (ResolveConflict, t) else (Load(t.nextId, true), Inserted(t, name, content))
    case ResolveConflict =>
      var matches := FindByName(t.rows, name);
      (if matches == [] then Raised(ConflictVanished) else Load(matches[0].id, false), t)
    case Load(id, created) =>
      (match GetById(t.rows, id) case None => Raised(SavedVanished) case Some(row) => Done(row, !created), t)
    case _ => (pc, t)
  }

  /** A call from `pc` to its end, when just before access number `k` others do `others(k)`. */
  function Drive(name: string, content: string, others: nat -> seq<Action>, pc: Pc, t: Table): (Pc, Table)
    decreases pc.Left()
  {
    if pc.Finished() then (pc, t)
    else
      var (next, u) := Access(name, content, pc, ActAll(t, others(pc.Number())));
      Drive(name, content, others, next, u)
  }

  // ------------------------------------------------- the calls as written

  /** A record in memory, whose id is filled in when it is stored. */
  class Investigation {
    const reportName: string
    const content: string
    var investigationId: Option<nat>

    constructor (reportName: string, content: string)
      ensures this.reportName == reportName && this.content == content && investigationId == None
    {
      this.reportName, this.content, investigationId := reportName, content, None;
    }
  }

  datatype Saved = Saved(id: nat, created: bool) | SaveFailed(error: Failure)

  datatype Analysis = Analyzed(investigation: Row, existing: bool) | Failed(error: Failure)

  /** What a call does next once its record is saved or not. */
  function PcAfter(r: Saved): Pc
  {
    match r case Saved(id, created) => Load(id, created) case SaveFailed(error) => Raised(error)
  }

  /** How a call that ended with `r` stands. */
  function PcOf(r: Analysis): Pc
  {
    match r case Analyzed(row, existing) => Done(row, existing) case Failed(error) => Raised(error)
  }

  /** A row's id gives that row or nothing, whatever others do, and without deletes that row. */
  lemma LoadsStored(t: Table, acts: seq<Action>, stored: Row)
    requires ValidTable(t) && stored in t.rows
    ensures var u := ActAll(t, acts); var loaded := GetById(u.rows, stored.id);
      (loaded == None || (loaded == Some(stored) && stored in u.rows)) && (InsertsOnly(acts) ==> loaded.Some?)
  {
    ActAllValid(t, acts);
  }

  lemma LoadDrives(name: string, content: string, others: nat -> seq<Action>, created: bool, t: Table, stored: Row)
    requires ValidTable(t) && stored in t.rows
    ensures var u := ActAll(t, others(4)); var loaded := GetById(u.rows, stored.id);
      && (loaded.None? ==> Drive(name, content, others, Load(stored.id, created), t) == (Raised(SavedVanished), u))
      && (loaded.Some? ==> loaded.value == stored && stored in u.rows
                           && Drive(name, content, others, Load(stored.id, created), t) == (Done(stored, !created), u))
      && (InsertsOnly(others(4)) ==> loaded.Some?)
  {
    LoadsStored(t, others(4), stored);
    DriveOn(name, content, others, Load(stored.id, created), t);
  }

  lemma DriveOn(name: string, content: string, others: nat -> seq<Action>, pc: Pc, t: Table)
    requires !pc.Finished()
    ensures var (next, u) := Access(name, content, pc, ActAll(t, others(pc.Number())));
      && Drive(name, content, others, pc, t) == Drive(name, content, others, next, u)
      && (next.Finished() ==> Drive(name, content, others, pc, t) == (next, u))
  {
  }

  /** The database several callers share. `others(k)` is what other callers do just before
      this caller's `k`-th access. */
  class Repository {
    var table: Table
    const others: nat -> seq<Action>

    method OthersAct(k: nat)
      requires ValidTable(table)
      modifies this`table
      ensures ValidTable(table) && table == ActAll(old(table), others(k)) && old(table.nextId) <= table.nextId
    {
      var acts := others(k);
      for i := 0 to |acts|
        invariant table == ActAll(old(table), acts[..i])
      {
        assert acts[..i + 1][..i] == acts[..i];
        table := Perform(table, acts[i]);
      }
      assert acts[..|acts|] == acts;
      ActAllValid(old(table), acts);
    }

    /** INSERT under the UNIQUE constraint: None is the IntegrityError. */
    method Insert(name: string, content: string) returns (id: Option<nat>)
      requires ValidTable(table)
      modifies this`table
      ensures ValidTable(table)
      ensures if old(Exists(table, name)) then id == None && table == old(table)
              else id == Some(old(table.nextId)) && table == old(Inserted(table, name, content))
    {
      if Exists(table, name) {
        return None;
      }
      InsertValid(table, name, content);
      id := Some(table.nextId);
      table := Inserted(table, name, content);
    }

    method Delete(id: nat) returns (deleted: bool)
      requires ValidTable(table)
      modifies this`table
      ensures ValidTable(table) && table == old(Deleted(table, id))
      ensures deleted <==> exists r :: r in old(table.rows) && r.id == id
    {
      deleted := GetById(table.rows, id).Some?;
      if deleted {
        assert GetById(table.rows, id).value in table.rows;
      }
      table := Deleted(table, id);
    }

    /** Accesses 2 and 3: the insert, and the search that resolves a conflict. The record is reported
        as created exactly if the insert was accepted, and then it is the row just inserted. */
    method SaveResolvingConflict(investigation: Investigation) returns (r: Saved)
      requires ValidTable(table)
      modifies this`table, investigation`investigationId
      ensures ValidTable(table) && old(table.nextId) <= table.nextId
      ensures r.Saved? ==> investigation.investigationId == Some(r.id)
      ensures r.Saved? ==> exists x :: x in table.rows && x.id == r.id && x.name == investigation.reportName
      ensures var found := ActAll(old(table), others(2));
        if Exists(found, investigation.reportName) then r.Saved? ==> !r.created
        else r == Saved(found.nextId, true) && table == Inserted(found, investigation.reportName, investigation.content)
      ensures r.Saved? && r.created ==>
        r.id >= old(table.nextId) && Row(r.id, investigation.reportName, investigation.content) in table.rows
      ensures r.SaveFailed? ==> r.error == ConflictVanished && !InsertsOnly(others(3))
      ensures InsertsOnly(others(2)) && InsertsOnly(others(3)) ==> Grew(old(table), table)
      ensures Drive(investigation.reportName, investigation.content, others, TryInsert, old(table))
           == Drive(investigation.reportName, investigation.content, others, PcAfter(r), table)
    {
      OthersAct(2);
      ActAllValid(old(table), others(2));
      DriveOn(investigation.reportName, investigation.content, others, TryInsert, old(table));
      var id := Insert(investigation.reportName, investigation.content);
      if id.None? {
        r := Resolve(investigation);
        return;
      }
      assert table.rows[|table.rows| - 1] in table.rows;
      investigation.investigationId := id;
      return Saved(id.value, true);
    }

    /** Access 3: the record that won the race. */
    method Resolve(investigation: Investigation) returns (r: Saved)
      requires ValidTable(table) && Exists(table, investigation.reportName)
      modifies this`table, investigation`investigationId
      ensures ValidTable(table) && old(table.nextId) <= table.nextId
      ensures r.Saved? ==> !r.created && investigation.investigationId == Some(r.id)
      ensures r.Saved? ==> exists x :: x in table.rows && x.id == r.id && x.name == investigation.reportName
      ensures r.SaveFailed? <==> !Exists(table, investigation.reportName)
      ensures r.SaveFailed? ==> r.error == ConflictVanished && !InsertsOnly(others(3))
      ensures InsertsOnly(others(3)) ==> Grew(old(table), table)
      ensures Drive(investigation.reportName, investigation.content, others, ResolveConflict, old(table))
           == Drive(investigation.reportName, investigation.content, others, PcAfter(r), table)
    {
      ghost var winner :| winner in table.rows && winner.name == investigation.reportName;
      OthersAct(3);
      ActAllValid(old(table), others(3));
      DriveOn(investigation.reportName, investigation.content, others, ResolveConflict, old(table));
      var matches := FindByName(table.rows, investigation.reportName);
      if matches == [] {
        assert winner !in table.rows;
        return SaveFailed(ConflictVanished);
      }
      assert matches[0] in matches;
      investigation.investigationId := Some(matches[0].id);
      return Saved(matches[0].id, false);
    }

    /** Access 1: the search for a record that the check found. */
    method FindDuplicate(name: string, content: string) returns (r: Analysis)
      requires ValidTable(table) && Exists(table, name)
      modifies this`table
      ensures ValidTable(table)
      ensures Drive(name, content, others, FindExisting, old(table)) == (PcOf(r), table)
      ensures r.Analyzed? ==> r.investigation.name == name && r.investigation in table.rows && r.existing
      ensures r.Failed? <==> !Exists(table, name)
      ensures InsertsOnly(others(1)) ==> r.Analyzed?
    {
      ghost var row :| row in table.rows && row.name == name;
      OthersAct(1);
      ActAllValid(old(table), others(1));
      DriveOn(name, content, others, FindExisting, old(table));
      var matches := FindByName(table.rows, name);
      if matches == [] {
        assert row !in table.rows;
        return Failed(DuplicateVanished);
      }
      assert matches[0] in matches;
      return Analyzed(matches[0], true);
    }

    /** Access 4: the record just saved or resolved to is loaded. */
    method LoadSaved(id: nat, created: bool, name: string, content: string, ghost stored: Row) returns (r: Analysis)
      requires ValidTable(table) && stored in table.rows && stored.id == id
      modifies this`table
      ensures ValidTable(table)
      ensures Drive(name, content, others, Load(id, created), old(table)) == (PcOf(r), table)
      ensures r.Analyzed? ==> r.investigation == stored && stored in table.rows && r.existing == !created
      ensures r.Failed? <==> stored !in table.rows
      ensures InsertsOnly(others(4)) ==> r.Analyzed?
    {
      OthersAct(4);
      LoadDrives(name, content, others, created, old(table), stored);
      var loaded := GetById(table.rows, id);
      if loaded.None? {
        return Failed(SavedVanished);
      }
      return Analyzed(loaded.value, !created);
    }

    /** The database side of an analysis: check, (long work), save, load. It is the accesses one after
        the other, others acting in between, and nothing else. */
    method AnalyzeReport(name: string, content: string) returns (r: Analysis)
      requires ValidTable(table)
      modifies this`table
      ensures ValidTable(table)
      ensures Drive(name, content, others, Check, old(table))
           == (PcOf(r), table)
      ensures r.Analyzed? ==> r.investigation.name == name && r.investigation in table.rows
      ensures r.Analyzed? && !r.existing ==>
        r.investigation.content == content && r.investigation.id >= old(table.nextId)
      ensures (forall k :: 0 <= k <= 4 ==> InsertsOnly(others(k))) ==> r.Analyzed?
      ensures (forall k :: 0 <= k <= 4 ==> InsertsOnly(others(k))) && old(Exists(table, name)) ==> r.existing
    {
      OthersAct(0);
      ActAllValid(old(table), others(0));
      DriveOn(name, content, others, Check, old(table));
      if Exists(table, name) {
        r := FindDuplicate(name, content);
        return;
      }
      var investigation := new Investigation(name, content);
      var saved := SaveResolvingConflict(investigation);
      if saved.SaveFailed? {
        return Failed(saved.error);
      }
      ghost var stored :| stored in table.rows && stored.id == saved.id && stored.name == name;
      r := LoadSaved(saved.id, saved.created, name, content, stored);
    }
  }
}
