/** The timeline repository (app/timeline/repository.py): rows appended under the table's
    constraints and listed by timestamp text and row number. */
module Timeline {
  import opened Basics
  import opened Ordering
  import opened CivilCalendar
  import opened IsoTimestamp
  import opened Sequences

  /** The controlled vocabulary of event types. */
  datatype EventType = InvestigationCreated | ReportImported | AnalysisStarted | AnalysisCompleted
                     | IocExtractionCompleted | TiEnrichmentCompleted | RiskCalculated
                     | CorrelationCompleted | ReportExported

  function TypeName(t: EventType): string
  {
    match t
    case InvestigationCreated => "investigation.created"
    case ReportImported => "report.imported"
    case AnalysisStarted => "analysis.started"
    case AnalysisCompleted => "analysis.completed"
    case IocExtractionCompleted => "ioc_extraction.completed"
    case TiEnrichmentCompleted => "ti.enrichment.completed"
    case RiskCalculated => "risk.calculated"
    case CorrelationCompleted => "correlation.completed"
    case ReportExported => "report.exported"
  }

  const TYPES: seq<EventType> :=
    [InvestigationCreated, ReportImported, AnalysisStarted, AnalysisCompleted, IocExtractionCompleted,
     TiEnrichmentCompleted, RiskCalculated, CorrelationCompleted, ReportExported]

  function TypeNamed(name: string, types: seq<EventType>): Option<EventType>
  {
    if types == [] then None
    else if TypeName(types[0]) == name then Some(types[0])
    else TypeNamed(name, types[1..])
  }

  /** Metadata is a JSON object; its text is not modelled. */
  type Metadata = map<string, string>

  datatype Event = Event(id: string, investigation: int, kind: EventType, timestamp: DateTime,
                         source: string, summary: string, metadata: Metadata)

  /** A row of `timeline_events`; `rowid` is the database's own. */
  datatype Row = Row(rowid: nat, id: string, investigation: int, kind: string, timestamp: string,
                     source: string, summary: string, metadata: Option<Metadata>)

  function Encode(rowid: nat, e: Event): Row
  {
    Row(rowid, e.id, e.investigation, TypeName(e.kind), IsoFormat(e.timestamp), e.source, e.summary,
        if e.metadata == map[] then None else Some(e.metadata))
  }

  function Decode(r: Row): Option<Event>
  {
    match (TypeNamed(r.kind, TYPES), FromIsoFormat(r.timestamp))
    case (Some(kind), Some(timestamp)) =>
      Some(Event(r.id, r.investigation, kind, timestamp, r.source, r.summary,
                 if r.metadata.Some? then r.metadata.value else map[]))
    case _ => None
  }

  /** No two types share a name. */
  lemma TypeNameInjective(t: EventType, u: EventType)
    requires TypeName(t) == TypeName(u)
    ensures t == u
  {
    assert |TypeName(t)| == |TypeName(u)|;
    assert TypeName(t)[0] == TypeName(u)[0];
    assert TypeName(t)[9] == TypeName(u)[9];
  }

  lemma {:induction false} TypeIsNamed(t: EventType, types: seq<EventType>)
    requires t in types
    ensures TypeNamed(TypeName(t), types) == Some(t)
  {
    if TypeName(types[0]) == TypeName(t) {
      TypeNameInjective(types[0], t);
    } else {
      TypeIsNamed(t, types[1..]);
    }
  }

  lemma EveryType(t: EventType)
    ensures t in TYPES
  {
    assert t in [InvestigationCreated, ReportImported, AnalysisStarted, AnalysisCompleted, IocExtractionCompleted,
                 TiEnrichmentCompleted, RiskCalculated, CorrelationCompleted, ReportExported];
  }

  /** A stored row gives back the event it was written from. */
  lemma RowRoundTrip(rowid: nat, e: Event)
    requires e.timestamp.Valid()
    ensures Decode(Encode(rowid, e)) == Some(e)
  {
    EveryType(e.kind);
    TypeIsNamed(e.kind, TYPES);
    IsoParses(e.timestamp);
  }

  /** The columns of a stored row. */
  lemma RowColumns(rowid: nat, e: Event)
    ensures var r := Encode(rowid, e);
      && r.rowid == rowid && r.id == e.id && r.investigation == e.investigation && r.source == e.source
      && r.summary == e.summary && r.timestamp == IsoFormat(e.timestamp) && (r.metadata.None? <==> e.metadata == map[])
  {
  }

  // ------------------------------------------------------------------ the query

  /** The row was written from an event. */
  ghost predicate Written(r: Row)
  {
    Decode(r).Some? && EventOf(r).timestamp.Valid() && r == Encode(r.rowid, EventOf(r))
  }

  const NOTHING: Event := Event("", 0, InvestigationCreated, DateTime(Date(1, 1, 1), 0, 0, 0), "", "", map[])

  function EventOf(r: Row): Event
  {
    if Decode(r).Some? then Decode(r).value else NOTHING
  }

  /** `ORDER BY timestamp ASC, rowid ASC` */
  predicate RowLeq(a: Row, b: Row)
  {
    if a.timestamp == b.timestamp then a.rowid <= b.rowid else TextLeq(a.timestamp, b.timestamp)
  }

  /** Chronological order of events. */
  predicate EventLeq(a: Event, b: Event)
  {
    Time(a) <= Time(b)
  }

  function Time(e: Event): int
  {
    if e.timestamp.Valid() then e.timestamp.Instant() else 0
  }

  function Of(rows: seq<Row>, investigation: int): seq<Row>
  {
    Filter((r: Row) => r.investigation == investigation, rows)
  }

  /** The events of an investigation, oldest first, those of one instant in the order they were
      appended. */
  function Chronological(events: seq<Event>, investigation: int): seq<Event>
  {
    Sort(EventLeq, Filter((e: Event) => e.investigation == investigation, events))
  }

  /** Oldest first, and events of one instant in the order they were appended. */
  lemma ChronologicalOrder(events: seq<Event>, investigation: int, e: Event)
    ensures var r := Chronological(events, investigation);
      && (forall i, j :: 0 <= i < j < |r| ==> Time(r[i]) <= Time(r[j]))
      && Filter(Ties(EventLeq, e), r)
      == Filter(Ties(EventLeq, e), Filter((x: Event) => x.investigation == investigation, events))
  {
    var own := Filter((x: Event) => x.investigation == investigation, events);
    SortSorted(EventLeq, own);
    SortStable(EventLeq, own, e);
    var r := Chronological(events, investigation);
    assert forall i, j :: 0 <= i < j < |r| ==> EventLeq(r[i], r[j]);
  }

  /** Row numbers grow in the order of insertion. */
  predicate Increasing(rows: seq<Row>)
  {
    forall i, j :: 0 <= i < j < |rows| ==> rows[i].rowid < rows[j].rowid
  }

  ghost predicate AllWritten(rows: seq<Row>)
  {
    forall r :: r in rows ==> Written(r)
  }

  /** Every event of the investigation has the offset `offset`. */
  ghost predicate OneOffset(rows: seq<Row>, investigation: int, offset: int)
  {
    forall r :: r in rows && r.investigation == investigation ==> EventOf(r).timestamp.offset == offset
  }

  /** An earlier row is before a later one in the query exactly if its event is not the younger. */
  lemma RowsAgree(a: Row, b: Row)
    requires Written(a) && Written(b) && a.rowid < b.rowid
    requires EventOf(a).timestamp.offset == EventOf(b).timestamp.offset
    ensures RowLeq(a, b) <==> EventLeq(EventOf(a), EventOf(b))
  {
    SameOffsetOrder(EventOf(a).timestamp, EventOf(b).timestamp);
    TextLeqReflexive(a.timestamp);
  }

  lemma InvestigationOf(r: Row)
    requires Written(r)
    ensures EventOf(r).investigation == r.investigation
  {
  }

  /** The order of the query for rows of any offsets: by the local clock, then by the printed offset, then by row
      number. */
  lemma QueryOrder(a: Row, b: Row)
    requires Written(a) && Written(b)
    ensures var x := EventOf(a).timestamp; var y := EventOf(b).timestamp;
      RowLeq(a, b) <==>
        || x.Local() < y.Local()
        || (x.Local() == y.Local()
            && if x.offset == y.offset then a.rowid <= b.rowid else TextLeq(OffsetText(x.offset), OffsetText(y.offset)))
  {
    StampsOf(a);
    StampsOf(b);
    TextsOrder(EventOf(a).timestamp, EventOf(b).timestamp, a.rowid, b.rowid);
  }

  lemma StampsOf(r: Row)
    requires Written(r)
    ensures r.timestamp == IsoFormat(EventOf(r).timestamp)
  {
  }

  lemma TextsOrder(x: DateTime, y: DateTime, i: nat, j: nat)
    requires x.Valid() && y.Valid()
    ensures (if IsoFormat(x) == IsoFormat(y) then i <= j else TextLeq(IsoFormat(x), IsoFormat(y))) <==>
      || x.Local() < y.Local()
      || (x.Local() == y.Local()
          && if x.offset == y.offset then i <= j else TextLeq(OffsetText(x.offset), OffsetText(y.offset)))
  {
    IsoOrder(x, y);
    SameText(x, y);
    if x.Local() == y.Local() && x.offset == y.offset {
      SameClock(x, y);
    }
  }

  lemma SameText(x: DateTime, y: DateTime)
    requires x.Valid() && y.Valid()
    ensures IsoFormat(x) == IsoFormat(y) <==> x == y
  {
    IsoParses(x);
    IsoParses(y);
  }

  /** The local clock and the offset make up the whole timestamp. */
  lemma SameClock(x: DateTime, y: DateTime)
    requires x.Valid() && y.Valid() && x.Local() == y.Local() && x.offset == y.offset
    ensures x == y
  {
    LocalOrder(Ordinal(x.date), x.second, x.micros, Ordinal(y.date), y.second, y.micros);
    OrdinalOrder(x.date, y.date);
  }

  /** The text-ordered query gives the chronological list when all timestamps share an offset. */
  lemma QueryIsChronological(rows: seq<Row>, investigations: set<int>, investigation: int, offset: int)
    requires ValidRows(rows, investigations) && OneOffset(rows, investigation, offset)
    ensures Map(EventOf, Sort(RowLeq, Of(rows, investigation))) == Chronological(Map(EventOf, rows), investigation)
  {
    var found := Of(rows, investigation);
    KeptInOrder((r: Row) => r.investigation == investigation, rows);
    forall i, j | 0 <= i < j < |found| ensures RowLeq(found[i], found[j]) <==> EventLeq(EventOf(found[i]), EventOf(found[j])) {
      FilterHas((r: Row) => r.investigation == investigation, rows, found[i]);
      FilterHas((r: Row) => r.investigation == investigation, rows, found[j]);
      RowsAgree(found[i], found[j]);
    }
    SortMap(RowLeq, EventLeq, EventOf, found);
    forall r | r in rows ensures (r.investigation == investigation) == (EventOf(r).investigation == investigation) {
      InvestigationOf(r);
    }
    FilterMap(EventOf, (r: Row) => r.investigation == investigation, (e: Event) => e.investigation == investigation, rows);
  }

  // ------------------------------------------------------------------ the repository

  datatype Appended = Stored | DatabaseError

  ghost predicate ValidRows(rows: seq<Row>, investigations: set<int>)
  {
    && Increasing(rows) && AllWritten(rows)
    && (forall i, j :: 0 <= i < j < |rows| ==> rows[i].id != rows[j].id)
    && (forall r :: r in rows ==> r.investigation in investigations)
  }

  /** The database numbers a new row one above the largest number in use. */
  function NextRowId(rows: seq<Row>): nat
  {
    if rows == [] then 1 else rows[|rows| - 1].rowid + 1
  }

  class TimelineRepository {
    var rows: seq<Row>
    var investigations: set<int>

    ghost predicate Valid()
      reads this
    {
      ValidRows(rows, investigations)
    }

    /** The events stored, in the order they were appended. */
    ghost function Events(): seq<Event>
      reads this
    {
      Map(EventOf, rows)
    }

    constructor ()
      ensures Valid() && rows == [] && investigations == {}
    {
      rows, investigations := [], {};
    }

    /** Fails on an unknown investigation and on an event id in use, and changes nothing then. */
    method Append(e: Event) returns (r: Appended)
      requires Valid() && e.timestamp.Valid()
      modifies this
      ensures Valid() && investigations == old(investigations)
      ensures r == Stored <==> e.investigation in investigations && forall i :: 0 <= i < |old(rows)| ==> old(rows)[i].id != e.id
      ensures r == Stored ==> Events() == old(Events()) + [e]
      ensures r == DatabaseError ==> rows == old(rows)
    {
      for i := 0 to |rows|
        invariant forall k :: 0 <= k < i ==> rows[k].id != e.id
      {
        if rows[i].id == e.id {
          return DatabaseError;
        }
      }
      if e.investigation !in investigations {
        return DatabaseError;
      }
      AppendKeeps(rows, investigations, e);
      rows := rows + [Encode(NextRowId(rows), e)];
      r := Stored;
    }

    /** Deleting an investigation deletes its rows with it and no others. */
    method DeleteInvestigation(investigation: int)
      requires Valid()
      modifies this
      ensures Valid() && investigations == old(investigations) - {investigation}
      ensures rows == Filter((r: Row) => r.investigation != investigation, old(rows))
      ensures Events() == Filter((e: Event) => e.investigation != investigation, old(Events()))
    {
      OthersStay(rows, investigations, investigation);
      rows, investigations := Filter((r: Row) => r.investigation != investigation, rows), investigations - {investigation};
    }

    /** The query and the decoding of its rows, which never fails. With one common offset among the
        timestamps the result is chronological. */
    method ListForInvestigation(investigation: int) returns (r: seq<Event>)
      requires Valid()
      ensures r == Map(EventOf, Sort(RowLeq, Of(rows, investigation)))
      ensures forall offset :: OneOffset(rows, investigation, offset) ==> r == Chronological(Events(), investigation)
    {
      var found := Sort(RowLeq, Of(rows, investigation));
      FoundAreWritten(rows, investigation);
      r := DecodeAll(found);
      forall offset | OneOffset(rows, investigation, offset) ensures r == Chronological(Events(), investigation) {
        QueryIsChronological(rows, investigations, investigation, offset);
      }
    }
  }

  lemma NewRow(row: Row, rowid: nat, e: Event)
    requires e.timestamp.Valid() && row == Encode(rowid, e)
    ensures Written(row) && EventOf(row) == e && row.rowid == rowid && row.id == e.id && row.investigation == e.investigation
  {
    RowRoundTrip(rowid, e);
  }

  lemma AppendKeeps(rows: seq<Row>, investigations: set<int>, e: Event)
    requires ValidRows(rows, investigations) && e.timestamp.Valid() && e.investigation in investigations
    requires forall k :: 0 <= k < |rows| ==> rows[k].id != e.id
    ensures var all := rows + [Encode(NextRowId(rows), e)];
      ValidRows(all, investigations) && Map(EventOf, all) == Map(EventOf, rows) + [e]
  {
    var row := Encode(NextRowId(rows), e);
    NewRow(row, NextRowId(rows), e);
    MapAppend(EventOf, rows, row);
    RowAppended(rows, investigations, row);
  }

  lemma RowAppended(rows: seq<Row>, investigations: set<int>, row: Row)
    requires ValidRows(rows, investigations) && Written(row) && row.investigation in investigations
    requires row.rowid == NextRowId(rows) && forall k :: 0 <= k < |rows| ==> rows[k].id != row.id
    ensures ValidRows(rows + [row], investigations)
  {
    LastRowId(rows, row);
    forall r | r in rows + [row] ensures Written(r) && r.investigation in investigations {
      assert r in rows || r == row;
    }
  }

  lemma LastRowId(rows: seq<Row>, row: Row)
    requires Increasing(rows) && row.rowid == NextRowId(rows)
    ensures Increasing(rows + [row])
  {
  }

  lemma FoundAreWritten(rows: seq<Row>, investigation: int)
    requires AllWritten(rows)
    ensures AllWritten(Sort(RowLeq, Of(rows, investigation)))
  {
    var found := Sort(RowLeq, Of(rows, investigation));
    forall r | r in found ensures Written(r) {
      assert r in multiset(found);
      FilterHas((r: Row) => r.investigation == investigation, rows, r);
    }
  }

  method DecodeAll(rows: seq<Row>) returns (r: seq<Event>)
    requires AllWritten(rows)
    ensures r == Map(EventOf, rows)
  {
    r := [];
    for i := 0 to |rows|
      invariant r == Map(EventOf, rows[..i])
    {
      OneMoreRow(rows, i);
      r := r + [Decode(rows[i]).value];
    }
    assert rows[..|rows|] == rows;
  }

  lemma OneMoreRow(rows: seq<Row>, i: nat)
    requires AllWritten(rows) && i < |rows|
    ensures Decode(rows[i]).Some? && Map(EventOf, rows[..i + 1]) == Map(EventOf, rows[..i]) + [Decode(rows[i]).value]
  {
    assert Written(rows[i]);
    MapAppend(EventOf, rows[..i], rows[i]);
    assert rows[..i + 1] == rows[..i] + [rows[i]];
  }

  lemma OthersStay(rows: seq<Row>, investigations: set<int>, investigation: int)
    requires ValidRows(rows, investigations)
    ensures var kept := Filter((r: Row) => r.investigation != investigation, rows);
      && ValidRows(kept, investigations - {investigation})
      && Map(EventOf, kept) == Filter((e: Event) => e.investigation != investigation, Map(EventOf, rows))
  {
    var p := (r: Row) => r.investigation != investigation;
    var kept := Filter(p, rows);
    KeptInOrder(p, rows);
    forall r | r in kept ensures r in rows && r.investigation != investigation {
      FilterHas(p, rows, r);
    }
    forall r | r in rows ensures p(r) == (EventOf(r).investigation != investigation) {
      InvestigationOf(r);
    }
    FilterMap(EventOf, p, (e: Event) => e.investigation != investigation, rows);
  }

  lemma {:induction false} KeptInOrder(p: Row -> bool, rows: seq<Row>)
    requires Increasing(rows) && forall i, j :: 0 <= i < j < |rows| ==> rows[i].id != rows[j].id
    ensures var kept := Filter(p, rows);
      Increasing(kept) && forall i, j :: 0 <= i < j < |kept| ==> kept[i].id != kept[j].id
  {
    if rows != [] {
      KeptInOrder(p, rows[1..]);
      forall r | r in Filter(p, rows[1..]) ensures r.rowid > rows[0].rowid && r.id != rows[0].id {
        FilterHas(p, rows[1..], r);
      }
    }
  }
}
