/** Every interleaving of analysis calls and deletes on one investigation table
    (app/analyzer.py, app/database/repository.py). */
module ReportRace {
  import opened InvestigationRepository

  datatype Call = Call(name: string, content: string, pc: Pc)

  /** `author` records, for every row inserted in this run, the call that inserted it. */
  datatype System = System(table: Table, calls: seq<Call>, author: map<nat, nat>)

  datatype Move = Advance(call: nat) | Delete(id: nat)

  function Goto(s: System, c: nat, pc: Pc): System
    requires c < |s.calls|
  {
    s.(calls := s.calls[c := s.calls[c].(pc := pc)])
  }

  function AdvanceCall(s: System, c: nat): System
    requires c < |s.calls|
  {
    var x := s.calls[c];
    var (pc, table) := Access(x.name, x.content, x.pc, s.table);
    Goto(s, c, pc).(table := table, author := if Inserts(s, c) then s.author[s.table.nextId := c] else s.author)
  }

  /** The next access of call `c` is an insert that is accepted. */
  predicate Inserts(s: System, c: nat)
    requires c < |s.calls|
  {
    s.calls[c].pc.TryInsert? && !Exists(s.table, s.calls[c].name)
  }

  function Step(s: System, m: Move): System
  {
    match m
    case Advance(c) => if c < |s.calls| then AdvanceCall(s, c) else s
    case Delete(id) => s.(table := Deleted(s.table, id))
  }

  function Run(s: System, moves: seq<Move>): (t: System)
    ensures |t.calls| == |s.calls|
    decreases |moves|
  {
    if moves == [] then s else Step(Run(s, moves[..|moves| - 1]), moves[|moves| - 1])
  }

  ghost predicate Initial(s: System)
  {
    ValidTable(s.table) && s.author == map[] && forall c :: 0 <= c < |s.calls| ==> s.calls[c].pc.Check?
  }

  /** The row a call believes it created. */
  predicate CreatedRow(x: Call, id: nat)
  {
    x.pc == Load(id, true) || (x.pc.Done? && !x.pc.existing && x.pc.row == Row(id, x.name, x.content))
  }

  ghost predicate CallInv(s: System, c: nat)
    requires c < |s.calls|
  {
    var x := s.calls[c];
    && (x.pc.Load? ==> x.pc.id < s.table.nextId)
    && (x.pc.Load? ==> forall r :: r in s.table.rows && r.id == x.pc.id ==>
         r.name == x.name && (x.pc.created ==> r.content == x.content))
    && (x.pc.Load? && x.pc.created ==> x.pc.id in s.author && s.author[x.pc.id] == c)
    && (x.pc.Done? ==> x.pc.row.name == x.name)
    && (x.pc.Done? && !x.pc.existing ==>
         CreatedRow(x, x.pc.row.id) && x.pc.row.id in s.author && s.author[x.pc.row.id] == c)
  }

  /** The rows inserted in this run are those with ids from `first` on, and their authors know it. */
  ghost predicate AuthorInv(s: System, first: nat)
  {
    && (forall id :: id in s.author <==> first <= id < s.table.nextId)
    && (forall id :: id in s.author ==>
         && s.author[id] < |s.calls|
         && (CreatedRow(s.calls[s.author[id]], id) || s.calls[s.author[id]].pc == Raised(SavedVanished)))
  }

  ghost predicate Inv(s: System, first: nat)
  {
    && first <= s.table.nextId
    && ValidTable(s.table)
    && AuthorInv(s, first)
    && (forall c :: 0 <= c < |s.calls| ==> CallInv(s, c))
  }

  /** What an advancing call does to the shared table. */
  lemma TableAfter(s: System, c: nat)
    requires c < |s.calls| && ValidTable(s.table)
    ensures var t := AdvanceCall(s, c);
            && ValidTable(t.table)
            && (if Inserts(s, c) then
                  && t.table.nextId == s.table.nextId + 1
                  && t.author == s.author[s.table.nextId := c]
                  && forall r :: r in t.table.rows <==>
                       r in s.table.rows || r == Row(s.table.nextId, s.calls[c].name, s.calls[c].content)
                else t.table == s.table && t.author == s.author)
  {
    var x := s.calls[c];
    if x.pc.TryInsert? && !Exists(s.table, x.name) {
      InsertValid(s.table, x.name, x.content);
    }
  }

  lemma MoverInv(s: System, c: nat, first: nat)
    requires c < |s.calls| && ValidTable(s.table) && CallInv(s, c)
    ensures CallInv(AdvanceCall(s, c), c)
  {
    TableAfter(s, c);
    var x := s.calls[c];
    if x.pc.ResolveConflict? || x.pc.FindExisting? {
      var found := FindByName(s.table.rows, x.name);
      if found != [] { assert found[0] in found; }
    }
  }

  lemma OtherInv(s: System, c: nat, d: nat, first: nat)
    requires c < |s.calls| && d < |s.calls| && c != d && ValidTable(s.table) && CallInv(s, d)
    requires AuthorInv(s, first)
    ensures CallInv(AdvanceCall(s, c), d)
  {
    TableAfter(s, c);
    assert AdvanceCall(s, c).calls[d] == s.calls[d];
  }

  lemma AuthorAfter(s: System, c: nat, first: nat)
    requires c < |s.calls| && ValidTable(s.table) && AuthorInv(s, first) && CallInv(s, c) && first <= s.table.nextId
    ensures AuthorInv(AdvanceCall(s, c), first)
  {
    TableAfter(s, c);
    var t := AdvanceCall(s, c);
    forall id | id in t.author
      ensures CreatedRow(t.calls[t.author[id]], id) || t.calls[t.author[id]].pc == Raised(SavedVanished)
    {
      if id in s.author {
        assert CreatedRow(s.calls[s.author[id]], id) || s.calls[s.author[id]].pc == Raised(SavedVanished);
      }
    }
  }

  lemma AdvanceInv(s: System, c: nat, first: nat)
    requires Inv(s, first) && c < |s.calls|
    ensures Inv(AdvanceCall(s, c), first)
  {
    assert CallInv(s, c);
    TableAfter(s, c);
    AuthorAfter(s, c, first);
    MoverInv(s, c, first);
    forall d | 0 <= d < |s.calls| ensures CallInv(AdvanceCall(s, c), d) {
      assert CallInv(s, d);
      if d != c { OtherInv(s, c, d, first); }
    }
  }

  lemma DeleteInv(s: System, id: nat, first: nat)
    requires Inv(s, first)
    ensures Inv(Step(s, Delete(id)), first)
  {
    var t := Step(s, Delete(id));
    DeleteValid(s.table, id);
    forall d | 0 <= d < |t.calls| ensures CallInv(t, d) {
      assert CallInv(s, d);
    }
  }

  lemma {:induction false} RunInv(s: System, moves: seq<Move>)
    requires Initial(s)
    ensures Inv(Run(s, moves), s.table.nextId)
    ensures s.table.nextId <= Run(s, moves).table.nextId
    decreases |moves|
  {
    if moves == [] {
      forall c | 0 <= c < |s.calls| ensures CallInv(s, c) {}
    } else {
      var before := Run(s, moves[..|moves| - 1]);
      RunInv(s, moves[..|moves| - 1]);
      match moves[|moves| - 1]
      case Advance(c) => if c < |before.calls| { AdvanceInv(before, c, s.table.nextId); }
      case Delete(id) => DeleteInv(before, id, s.table.nextId);
    }
  }

  /** In every state of every interleaving there is at most one row per report name, and no row
      is reported as new by two calls; a call that reports one as new gets its own content. */
  lemma OneRowOneCreator(s: System, moves: seq<Move>, c: nat, d: nat)
    requires Initial(s) && c < |s.calls| && d < |s.calls|
    ensures ValidTable(Run(s, moves).table)
    ensures var x, y := Run(s, moves).calls[c], Run(s, moves).calls[d];
            && (x.pc.Done? ==> x.pc.row.name == x.name)
            && (x.pc.Done? && !x.pc.existing ==>
                 x.pc.row == Row(x.pc.row.id, x.name, x.content) && x.pc.row.id >= s.table.nextId)
            && (x.pc.Done? && !x.pc.existing ==>
                 x.pc.row.id in Run(s, moves).author && Run(s, moves).author[x.pc.row.id] == c)
            && (x.pc.Done? && y.pc.Done? && !x.pc.existing && !y.pc.existing && x.pc.row.id == y.pc.row.id ==> c == d)
  {
    RunInv(s, moves);
    assert CallInv(Run(s, moves), c) && CallInv(Run(s, moves), d);
  }

  // ------------------------------------------------- runs without deletes

  predicate NoDeletes(moves: seq<Move>)
  {
    forall i :: 0 <= i < |moves| ==> moves[i].Advance?
  }

  /** What every call can rely on while nothing is deleted. */
  ghost predicate CallSafe(s: System, c: nat)
    requires c < |s.calls|
  {
    var x := s.calls[c];
    && !x.pc.Raised?
    && (x.pc.FindExisting? || x.pc.ResolveConflict? ==> Exists(s.table, x.name))
    && (x.pc.Load? ==> exists r :: r in s.table.rows && r.id == x.pc.id)
    && (x.pc.Done? ==> x.pc.row in s.table.rows)
    && (x.pc.Finished() || x.pc.Load? ==> Exists(s.table, x.name))
  }

  ghost predicate Safe(s: System, start: System)
  {
    && |s.calls| == |start.calls|
    && (forall c :: 0 <= c < |s.calls| ==> CallSafe(s, c) && s.calls[c].name == start.calls[c].name)
    && (forall r :: r in start.table.rows ==> r in s.table.rows)
    && (forall r :: r in s.table.rows ==> r in start.table.rows || r.id in s.author)
  }

  lemma SafeStep(s: System, c: nat, start: System)
    requires Inv(s, start.table.nextId) && Safe(s, start) && c < |s.calls|
    ensures Safe(AdvanceCall(s, c), start)
  {
    var t := AdvanceCall(s, c);
    TableAfter(s, c);
    assert CallInv(s, c) && CallSafe(s, c);
    assert forall name :: Exists(s.table, name) ==> Exists(t.table, name) by {
      forall name | Exists(s.table, name) ensures Exists(t.table, name) {
        var i :| 0 <= i < |s.table.rows| && s.table.rows[i].name == name;
        assert s.table.rows[i] in t.table.rows;
      }
    }
    MoverSafe(s, c);
    forall d | 0 <= d < |t.calls| ensures CallSafe(t, d) && t.calls[d].name == start.calls[d].name {
      assert CallSafe(s, d);
      if d != c {
        assert t.calls[d] == s.calls[d];
      }
    }
  }

  lemma MoverSafe(s: System, c: nat)
    requires c < |s.calls| && ValidTable(s.table) && CallInv(s, c) && CallSafe(s, c)
    ensures CallSafe(AdvanceCall(s, c), c)
  {
    TableAfter(s, c);
    var x, t := s.calls[c], AdvanceCall(s, c);
    match x.pc
    case TryInsert =>
      if !Exists(s.table, x.name) {
        assert Row(s.table.nextId, x.name, x.content) in t.table.rows;
        RowIsFound(t.table, Row(s.table.nextId, x.name, x.content));
      }
    case FindExisting =>
      var r :| r in s.table.rows && r.name == x.name;
      RowIsFound(s.table, r);
    case ResolveConflict =>
      var r :| r in s.table.rows && r.name == x.name;
      RowIsFound(s.table, r);
    case Load(id, created) =>
      var r :| r in s.table.rows && r.id == id;
      RowIsFound(s.table, r);
    case _ =>
  }

  lemma {:induction false} SafeRun(s: System, moves: seq<Move>)
    requires Initial(s) && NoDeletes(moves)
    ensures Safe(Run(s, moves), s) && Inv(Run(s, moves), s.table.nextId)
    decreases |moves|
  {
    RunInv(s, moves);
    if moves == [] {
      forall c | 0 <= c < |s.calls| ensures CallSafe(s, c) {}
    } else {
      var init := moves[..|moves| - 1];
      SafeRun(s, init);
      assert moves[|moves| - 1].Advance?;
      var c := moves[|moves| - 1].call;
      if c < |s.calls| {
        SafeStep(Run(s, init), c, s);
      }
    }
  }

  /** Without deletes no RuntimeError fires, and all calls for one name end with the same row. */
  lemma WithoutDeletesAllAgree(s: System, moves: seq<Move>, c: nat, d: nat)
    requires Initial(s) && NoDeletes(moves) && c < |s.calls| && d < |s.calls|
    ensures var x, y := Run(s, moves).calls[c], Run(s, moves).calls[d];
            && !x.pc.Raised?
            && (x.pc.Done? && y.pc.Done? && s.calls[c].name == s.calls[d].name ==> x.pc.row == y.pc.row)
            && (x.pc.Done? && Exists(s.table, s.calls[c].name) ==> x.pc.existing)
  {
    SafeRun(s, moves);
    var t := Run(s, moves);
    assert CallSafe(t, c) && CallSafe(t, d) && CallInv(t, c) && CallInv(t, d);
    if t.calls[c].pc.Done? && Exists(s.table, s.calls[c].name) {
      var i :| 0 <= i < |s.table.rows| && s.table.rows[i].name == s.calls[c].name;
      assert s.table.rows[i] in t.table.rows;
    }
  }

  /** Without deletes a call for a name stored before never tries an insert: it checks, searches and is done. */
  lemma {:induction false} StoredNameNeverInserts(s: System, moves: seq<Move>, c: nat)
    requires Initial(s) && NoDeletes(moves) && c < |s.calls| && Exists(s.table, s.calls[c].name)
    ensures var pc := Run(s, moves).calls[c].pc; pc.Check? || pc.FindExisting? || (pc.Done? && pc.existing)
    decreases |moves|
  {
    if moves != [] {
      var init, m := moves[..|moves| - 1], moves[|moves| - 1];
      StoredNameNeverInserts(s, init, c);
      assert m.Advance?;
      SafeRun(s, init);
      var t := Run(s, init);
      StillStored(s, t, s.calls[c].name);
      if m.call == c {
        assert CallSafe(t, c);
        StoredStep(t, c);
      } else if m.call < |s.calls| {
        assert AdvanceCall(t, m.call).calls[c] == t.calls[c];
      }
    }
  }

  lemma StillStored(s: System, t: System, name: string)
    requires Safe(t, s) && Exists(s.table, name)
    ensures Exists(t.table, name)
  {
    var i :| 0 <= i < |s.table.rows| && s.table.rows[i].name == name;
    assert s.table.rows[i] in t.table.rows;
  }

  lemma StoredStep(s: System, c: nat)
    requires c < |s.calls| && ValidTable(s.table) && Exists(s.table, s.calls[c].name)
    requires var pc := s.calls[c].pc; pc.Check? || pc.FindExisting? || (pc.Done? && pc.existing)
    ensures var pc := AdvanceCall(s, c).calls[c].pc; pc.FindExisting? || (pc.Done? && pc.existing)
  {
    var i :| 0 <= i < |s.table.rows| && s.table.rows[i].name == s.calls[c].name;
    RowIsFound(s.table, s.table.rows[i]);
  }

  /** Without deletes, when every call for a name that was not stored before has finished,
      exactly one of them reports it as new. */
  lemma WithoutDeletesOneCreates(s: System, moves: seq<Move>, name: string, some: nat) returns (creator: nat)
    requires Initial(s) && NoDeletes(moves) && !Exists(s.table, name)
    requires some < |s.calls| && s.calls[some].name == name
    requires forall c :: 0 <= c < |s.calls| && s.calls[c].name == name ==> Run(s, moves).calls[c].pc.Finished()
    ensures creator < |s.calls| && s.calls[creator].name == name
    ensures forall c :: 0 <= c < |s.calls| && s.calls[c].name == name ==>
              Run(s, moves).calls[c].pc.Done? && (Run(s, moves).calls[c].pc.existing <==> c != creator)
  {
    SafeRun(s, moves);
    var t := Run(s, moves);
    assert CallSafe(t, some) && CallInv(t, some);
    var row := t.calls[some].pc.row;
    creator := t.author[row.id];
    assert row !in s.table.rows;
    assert CallSafe(t, creator) && CallInv(t, creator);
    assert CreatedRow(t.calls[creator], row.id);
    CreatorHasName(s, t, creator, row);
    forall c | 0 <= c < |s.calls| && s.calls[c].name == name
      ensures t.calls[c].pc.Done? && (t.calls[c].pc.existing <==> c != creator)
    {
      assert CallSafe(t, c) && CallInv(t, c);
      assert t.calls[c].pc.row == row;
    }
  }

  lemma CreatorHasName(s: System, t: System, creator: nat, row: Row)
    requires Inv(t, s.table.nextId) && Safe(t, s) && creator < |t.calls| && row in t.table.rows
    requires CreatedRow(t.calls[creator], row.id)
    ensures s.calls[creator].name == row.name
  {
    assert CallInv(t, creator) && CallSafe(t, creator);
  }

  lemma {:induction false} FindsNone(rows: seq<Row>, name: string)
    requires forall r :: r in rows ==> r.name != name
    ensures FindByName(rows, name) == []
  {
    if rows != [] {
      FindsNone(rows[..|rows| - 1], name);
    }
  }

  /** After the only row of its name is deleted, no search finds that name or id. */
  lemma DeletedIsGone(t: Table, r: Row)
    requires ValidTable(t) && r in t.rows
    ensures FindByName(Deleted(t, r.id).rows, r.name) == [] && GetById(Deleted(t, r.id).rows, r.id).None?
  {
    FindsNone(Deleted(t, r.id).rows, r.name);
  }

  lemma ThenAdvance(s: System, before: seq<Move>, c: nat, x: Call, next: (Pc, Table))
    requires c < |s.calls| && x == Run(s, before).calls[c]
    requires next == Access(x.name, x.content, x.pc, Run(s, before).table)
    ensures var t := Run(s, before + [Advance(c)]);
            t.calls == Run(s, before).calls[c := x.(pc := next.0)] && t.table == next.1
  {
    assert (before + [Advance(c)])[..|before|] == before;
  }

  lemma ThenDelete(s: System, before: seq<Move>, id: nat)
    ensures var t := Run(s, before + [Delete(id)]);
            t.calls == Run(s, before).calls && t.table == Deleted(Run(s, before).table, id)
  {
    assert (before + [Delete(id)])[..|before|] == before;
  }

  /** The RuntimeErrors need a delete to fire, and one is enough for any call among any others: for a
      name already stored, between check and search. */
  lemma DeleteCanRaise(s: System, c: nat, row: Row) returns (moves: seq<Move>)
    requires Initial(s) && c < |s.calls| && row in s.table.rows && row.name == s.calls[c].name
    ensures moves == [Advance(c), Delete(row.id), Advance(c)]
    ensures Run(s, moves).calls[c].pc == Raised(DuplicateVanished)
  {
    var x := s.calls[c];
    RowIsFound(s.table, row);
    moves := [];
    ThenAdvance(s, moves, c, x, (FindExisting, s.table));
    moves := moves + [Advance(c)];
    VanishesAfterCheck(s, moves, c, x.(pc := FindExisting), s.table, row);
    moves := moves + [Delete(row.id)] + [Advance(c)];
  }

  /** The delete of the row a call is about to search, and the search. */
  lemma VanishesAfterCheck(s: System, before: seq<Move>, c: nat, x: Call, t: Table, row: Row)
    requires c < |s.calls| && x == Run(s, before).calls[c] && t == Run(s, before).table
    requires ValidTable(t) && row in t.rows && row.name == x.name && x.pc == FindExisting
    ensures Run(s, before + [Delete(row.id)] + [Advance(c)]).calls[c].pc == Raised(DuplicateVanished)
  {
    DeletedIsGone(t, row);
    ThenDelete(s, before, row.id);
    ThenAdvance(s, before + [Delete(row.id)], c, x, (Raised(DuplicateVanished), Deleted(t, row.id)));
  }

  /** For a new name, between insert and load. */
  lemma DeleteCanRaiseSaved(s: System, c: nat) returns (moves: seq<Move>)
    requires Initial(s) && c < |s.calls| && !Exists(s.table, s.calls[c].name)
    ensures moves == [Advance(c), Advance(c), Delete(s.table.nextId), Advance(c)]
    ensures Run(s, moves).calls[c].pc == Raised(SavedVanished)
  {
    var x, id := s.calls[c], s.table.nextId;
    var t := Inserted(s.table, x.name, x.content);
    InsertValid(s.table, x.name, x.content);
    moves := [];
    ThenAdvance(s, moves, c, x, (TryInsert, s.table));
    moves := moves + [Advance(c)];
    ThenAdvance(s, moves, c, x.(pc := TryInsert), (Load(id, true), t));
    moves := moves + [Advance(c)];
    VanishesAfterInsert(s, moves, c, x.(pc := Load(id, true)), t, Row(id, x.name, x.content));
    moves := moves + [Delete(id)] + [Advance(c)];
  }

  /** The delete of the row a call is about to load, and the load. */
  lemma VanishesAfterInsert(s: System, before: seq<Move>, c: nat, x: Call, t: Table, row: Row)
    requires c < |s.calls| && x == Run(s, before).calls[c] && t == Run(s, before).table
    requires ValidTable(t) && row in t.rows && x.pc == Load(row.id, true)
    ensures Run(s, before + [Delete(row.id)] + [Advance(c)]).calls[c].pc == Raised(SavedVanished)
  {
    DeletedIsGone(t, row);
    ThenDelete(s, before, row.id);
    ThenAdvance(s, before + [Delete(row.id)], c, x, (Raised(SavedVanished), Deleted(t, row.id)));
  }

  /** Two calls pass the check for a new name, and `winner` inserts its row first. */
  lemma LosesInsert(s: System, c: nat, winner: nat) returns (moves: seq<Move>)
    requires c < |s.calls| && winner < |s.calls| && c != winner && s.calls[c].pc.Check? && s.calls[winner].pc.Check?
    requires s.calls[winner].name == s.calls[c].name && !Exists(s.table, s.calls[c].name)
    ensures moves == [Advance(c), Advance(winner), Advance(winner)]
    ensures var t := Run(s, moves);
            && t.calls[c] == s.calls[c].(pc := TryInsert)
            && t.table == Inserted(s.table, s.calls[winner].name, s.calls[winner].content)
  {
    var x, w := s.calls[c], s.calls[winner];
    moves := [];
    ThenAdvance(s, moves, c, x, (TryInsert, s.table));
    moves := moves + [Advance(c)];
    ThenAdvance(s, moves, winner, w, (TryInsert, s.table));
    moves := moves + [Advance(winner)];
    ThenAdvance(s, moves, winner, w.(pc := TryInsert), (Load(s.table.nextId, true), Inserted(s.table, w.name, w.content)));
    moves := moves + [Advance(winner)];
  }

  /** And for an insert that lost the race to any other call for the same new name, before the search. */
  lemma DeleteCanRaiseConflict(s: System, c: nat, winner: nat) returns (moves: seq<Move>)
    requires Initial(s) && c < |s.calls| && winner < |s.calls| && c != winner
    requires s.calls[winner].name == s.calls[c].name && !Exists(s.table, s.calls[c].name)
    ensures moves == [Advance(c), Advance(winner), Advance(winner), Advance(c), Delete(s.table.nextId), Advance(c)]
    ensures Run(s, moves).calls[c].pc == Raised(ConflictVanished)
  {
    var x, w := s.calls[c], s.calls[winner];
    moves := LosesInsert(s, c, winner);
    var t := Run(s, moves).table;
    InsertValid(s.table, w.name, w.content);
    VanishesAfterConflict(s, moves, c, x.(pc := TryInsert), t, Row(s.table.nextId, w.name, w.content));
    moves := moves + [Advance(c)] + [Delete(s.table.nextId)] + [Advance(c)];
  }

  /** A refused insert, the delete of the row in its way, and the search. */
  lemma VanishesAfterConflict(s: System, before: seq<Move>, c: nat, x: Call, t: Table, row: Row)
    requires c < |s.calls| && x == Run(s, before).calls[c] && t == Run(s, before).table
    requires ValidTable(t) && row in t.rows && row.name == x.name && x.pc == TryInsert
    ensures Run(s, before + [Advance(c)] + [Delete(row.id)] + [Advance(c)]).calls[c].pc == Raised(ConflictVanished)
  {
    RowIsFound(t, row);
    DeletedIsGone(t, row);
    ThenAdvance(s, before, c, x, (ResolveConflict, t));
    ThenDelete(s, before + [Advance(c)], row.id);
    var y, u := x.(pc := ResolveConflict), Deleted(t, row.id);
    ThenAdvance(s, before + [Advance(c)] + [Delete(row.id)], c, y, (Raised(ConflictVanished), u));
  }

  // ------------------------------------------------- one call among the others

  /** What a move does to the table, as an action of another caller. */
  function ActionOf(s: System, m: Move): seq<Action>
  {
    match m
    case Advance(c) => if c < |s.calls| && Inserts(s, c) then [InsertRow(s.calls[c].name, s.calls[c].content)] else []
    case Delete(id) => [DeleteRow(id)]
  }

  function ActionsOf(s: System, moves: seq<Move>): seq<Action>
    decreases |moves|
  {
    if moves == [] then []
    else
      var init := moves[..|moves| - 1];
      ActionsOf(s, init) + ActionOf(Run(s, init), moves[|moves| - 1])
  }

  predicate Leaves(moves: seq<Move>, c: nat)
  {
    forall k :: 0 <= k < |moves| ==> moves[k] != Advance(c)
  }

  lemma {:induction false} OthersAreActions(s: System, moves: seq<Move>, c: nat)
    requires c < |s.calls| && Leaves(moves, c)
    ensures Run(s, moves).calls[c] == s.calls[c]
    ensures Run(s, moves).table == ActAll(s.table, ActionsOf(s, moves))
    decreases |moves|
  {
    if moves != [] {
      var init, last := moves[..|moves| - 1], moves[|moves| - 1];
      OthersAreActions(s, init, c);
      var u := Run(s, init);
      OneAction(u, last);
      ActAllAdd(s.table, ActionsOf(s, init), ActionOf(u, last));
    }
  }

  lemma OneAction(s: System, m: Move)
    ensures Step(s, m).table == ActAll(s.table, ActionOf(s, m))
  {
    if m.Advance? && m.call < |s.calls| && Inserts(s, m.call) {
      var acts := [InsertRow(s.calls[m.call].name, s.calls[m.call].content)];
      assert acts[..0] == [] && ActAll(s.table, acts) == Perform(ActAll(s.table, acts[..0]), acts[0]);
    } else if m.Delete? {
      var acts := [DeleteRow(m.id)];
      assert acts[..0] == [] && ActAll(s.table, acts) == Perform(ActAll(s.table, acts[..0]), acts[0]);
    }
  }

  lemma {:induction false} ActAllAdd(t: Table, a: seq<Action>, b: seq<Action>)
    ensures ActAll(t, a + b) == ActAll(ActAll(t, a), b)
  {
    if b == [] {
      assert a + b == a;
    } else {
      assert (a + b)[..|a + b| - 1] == a + b[..|b| - 1];
      ActAllAdd(t, a, b[..|b| - 1]);
    }
  }

  lemma OneMoreAdvance(s: System, moves: seq<Move>, c: nat)
    requires c < |s.calls|
    ensures Run(s, moves + [Advance(c)]) == AdvanceCall(Run(s, moves), c)
  {
    assert (moves + [Advance(c)])[..|moves|] == moves;
  }

  lemma AdvanceIsAccess(s: System, c: nat)
    requires c < |s.calls| && !s.calls[c].pc.Finished()
    ensures var x, t := s.calls[c], AdvanceCall(s, c);
      && (t.calls[c].pc, t.table) == Access(x.name, x.content, x.pc, s.table)
      && t.calls[c].name == x.name && t.calls[c].content == x.content && t.calls[c].pc.Left() < x.pc.Left()
  {
  }

  /** A call among all the others is a call of `analyze_report` as written: its next access, with what
      the others do before it, is the next step of `Drive`. */
  lemma CallIsDriven(s: System, moves: seq<Move>, c: nat, others: nat -> seq<Action>)
    requires c < |s.calls| && Leaves(moves, c) && !s.calls[c].pc.Finished()
    requires others(s.calls[c].pc.Number()) == ActionsOf(s, moves)
    ensures var x, u := s.calls[c], Run(s, moves + [Advance(c)]);
      && u.calls[c].name == x.name && u.calls[c].content == x.content && u.calls[c].pc.Left() < x.pc.Left()
      && Drive(x.name, x.content, others, x.pc, s.table) == Drive(x.name, x.content, others, u.calls[c].pc, u.table)
  {
    OthersAreActions(s, moves, c);
    OneMoreAdvance(s, moves, c);
    AdvanceIsAccess(Run(s, moves), c);
    DriveOn(s.calls[c].name, s.calls[c].content, others, s.calls[c].pc, s.table);
  }
}
