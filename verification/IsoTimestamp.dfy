/** The stored timestamps (app/timeline/repository.py): `isoformat` text of aware datetimes, reading
    it back, and when comparing the text compares the instants. */
module IsoTimestamp {
  import opened Basics
  import opened Ordering
  import opened Decimal
  import opened CivilCalendar
  import opened Rfc3339

  /** An aware datetime: local date and second of the day, microseconds, and the offset from UTC in
      minutes. */
  datatype DateTime = DateTime(date: Date, second: nat, micros: nat, offset: int)
  {
    predicate Valid()
    {
      ValidDate(date) && 1 <= date.year <= 9999 && second < 86400 && micros < 1000000 && -1440 < offset < 1440
    }

    /** Microseconds on the local clock. */
    function Local(): int
      requires Valid()
    {
      (Ordinal(date) * 86400 + second) * 1000000 + micros
    }

    /** Microseconds on one clock for all. */
    function Instant(): int
      requires Valid()
    {
      Local() - offset * 60000000
    }
  }

  function Magnitude(n: int): nat { if n < 0 then -n else n }

  function OffsetText(offset: int): string
  {
    (if offset < 0 then "-" else "+") + Render(OffsetFields(offset))
  }

  function OffsetFields(offset: int): seq<Field>
  {
    [Field(Magnitude(offset) / 60, 2, ":"), Field(Magnitude(offset) % 60, 2, "")]
  }

  /** The fraction is left out at zero microseconds. */
  function Fraction(micros: nat): string
  {
    if micros == 0 then "" else "." + Padded(micros, 6)
  }

  function Tail(micros: nat, offset: int): string { Fraction(micros) + OffsetText(offset) }

  function IsoFormat(d: DateTime): string
  {
    Render(DateFields(d.date)) + (Render(TimeFields(d.second, "")) + Tail(d.micros, d.offset))
  }

  /** The stored text, piece by piece. */
  lemma IsoText(d: DateTime)
    ensures IsoFormat(d) ==
      (Padded(d.date.year, 4) + "-" + Padded(d.date.month, 2) + "-" + Padded(d.date.day, 2) + "T")
      + ((Padded(d.second / 3600, 2) + ":" + Padded(d.second % 3600 / 60, 2) + ":" + Padded(d.second % 60, 2))
         + ((if d.micros > 0 then "." + Padded(d.micros, 6) else "") + OffsetText(d.offset)))
  {
    DateText(d.date);
    ClockText(d.second);
    TailText(d.micros, d.offset);
  }

  lemma ClockText(t: nat)
    ensures Render(TimeFields(t, "")) == Padded(t / 3600, 2) + ":" + Padded(t % 3600 / 60, 2) + ":" + Padded(t % 60, 2)
  {
    TimeText(t, "");
    NothingAdded(Padded(t / 3600, 2) + ":" + Padded(t % 3600 / 60, 2) + ":" + Padded(t % 60, 2));
  }

  lemma NothingAdded(s: string)
    ensures s + "" == s
  {
  }

  lemma TailText(micros: nat, offset: int)
    ensures Tail(micros, offset) == (if micros > 0 then "." + Padded(micros, 6) else "") + OffsetText(offset)
  {
  }

  lemma OffsetIs(offset: int)
    ensures OffsetText(offset) ==
      if offset >= 0 then "+" + (Padded(offset / 60, 2) + ":" + Padded(offset % 60, 2))
      else "-" + (Padded((-offset) / 60, 2) + ":" + Padded((-offset) % 60, 2))
  {
    RenderTwo(Field(Magnitude(offset) / 60, 2, ":"), Field(Magnitude(offset) % 60, 2, ""));
  }

  lemma RenderTwo(a: Field, b: Field)
    ensures Render([a, b]) == Padded(a.value, a.width) + a.sep + (Padded(b.value, b.width) + b.sep)
  {
    assert [a, b][1..] == [b] && [b][1..] == [];
    assert Render([b]) == Padded(b.value, b.width) + b.sep;
  }

  // ------------------------------------------------------------------ order

  lemma FractionWidth(micros: nat)
    requires micros < 1000000
    ensures |Padded(micros, 6)| == 6
  {
    assert Pow10(2) == 100;
    assert Pow10(4) == 100 * Pow10(2);
    assert Pow10(6) == 100 * Pow10(4);
    PaddedWidth(micros, 6);
  }

  /** What follows the seconds is ordered by microseconds: a sign sorts before the point. */
  lemma TailOrder(m: nat, n: nat, o: int, p: int)
    requires m < 1000000 && n < 1000000
    ensures TextLeq(Tail(m, o), Tail(n, p)) <==> m < n || (m == n && TextLeq(OffsetText(o), OffsetText(p)))
  {
    var x, y := OffsetText(o), OffsetText(p);
    TailIs(m, o);
    TailIs(n, p);
    if m > 0 && n > 0 {
      FractionOrder(m, n, x, y);
    } else if m > 0 {
      FirstCharDecides(y, "." + (Padded(m, 6) + ([] + x)));
      TextLessNotLeq(y, "." + (Padded(m, 6) + ([] + x)));
    } else if n > 0 {
      FirstCharDecides(x, "." + (Padded(n, 6) + ([] + y)));
    }
  }

  lemma TailIs(m: nat, o: int)
    ensures Tail(m, o) == if m == 0 then OffsetText(o) else "." + (Padded(m, 6) + ([] + OffsetText(o)))
    ensures OffsetText(o) != [] && OffsetText(o)[0] < '.'
  {
  }

  lemma TextLessNotLeq(x: string, y: string)
    requires TextLess(x, y)
    ensures !TextLeq(y, x)
  {
    if TextLeq(y, x) {
      TextLeqAntisymmetric(x, y);
    }
  }

  lemma FractionOrder(m: nat, n: nat, x: string, y: string)
    requires m < 1000000 && n < 1000000
    ensures TextLeq("." + (Padded(m, 6) + ([] + x)), "." + (Padded(n, 6) + ([] + y))) <==> m < n || (m == n && TextLeq(x, y))
  {
    FractionWidth(m);
    FractionWidth(n);
    PaddedOrderOf(m, n);
    TextLeqSamePrefix(".", Padded(m, 6) + ([] + x), Padded(n, 6) + ([] + y));
    FirstFieldOrder(Padded(m, 6), Padded(n, 6), [], x, y);
  }

  lemma PaddedOrderOf(m: nat, n: nat)
    requires m < 1000000 && n < 1000000
    ensures TextLeq(Padded(m, 6), Padded(n, 6)) <==> m <= n
    ensures Padded(m, 6) == Padded(n, 6) <==> m == n
  {
    assert Pow10(2) == 100;
    assert Pow10(4) == 100 * Pow10(2);
    assert Pow10(6) == 100 * Pow10(4);
    PaddedOrder(m, n, 6);
  }

  /** Text order is the order of the local clocks, then that of the printed offsets. */
  lemma IsoOrder(a: DateTime, b: DateTime)
    requires a.Valid() && b.Valid()
    ensures TextLeq(IsoFormat(a), IsoFormat(b)) <==>
            a.Local() < b.Local() || (a.Local() == b.Local() && TextLeq(OffsetText(a.offset), OffsetText(b.offset)))
  {
    StampOrder(a.date, b.date, a.second, b.second, "", Tail(a.micros, a.offset), Tail(b.micros, b.offset));
    TailOrder(a.micros, b.micros, a.offset, b.offset);
    OrdinalOrder(a.date, b.date);
    OrdinalOrder(b.date, a.date);
    LocalOrder(Ordinal(a.date), a.second, a.micros, Ordinal(b.date), b.second, b.micros);
  }

  lemma LocalOrder(d: int, s: nat, m: nat, e: int, t: nat, n: nat)
    requires s < 86400 && t < 86400 && m < 1000000 && n < 1000000
    ensures (d * 86400 + s) * 1000000 + m < (e * 86400 + t) * 1000000 + n <==>
            d < e || (d == e && (s < t || (s == t && m < n)))
    ensures (d * 86400 + s) * 1000000 + m == (e * 86400 + t) * 1000000 + n <==> d == e && s == t && m == n
  {
  }

  /** For timestamps of one common offset, UTC among them, text order is time order. */
  lemma SameOffsetOrder(a: DateTime, b: DateTime)
    requires a.Valid() && b.Valid() && a.offset == b.offset
    ensures TextLeq(IsoFormat(a), IsoFormat(b)) <==> a.Instant() <= b.Instant()
  {
    IsoOrder(a, b);
    TextLeqReflexive(OffsetText(a.offset));
  }

  /** A common offset is also needed: for any two different offsets some timestamps are stored in
      the wrong order. */
  lemma TextOrderNeedsOneOffset(o: int, p: int)
    requires -1440 < o < 1440 && -1440 < p < 1440
    ensures (forall a: DateTime, b: DateTime :: a.Valid() && b.Valid() && a.offset == o && b.offset == p ==>
               (TextLeq(IsoFormat(a), IsoFormat(b)) <==> a.Instant() <= b.Instant()))
       <==> o == p
  {
    if o == p {
      forall a: DateTime, b: DateTime | a.Valid() && b.Valid() && a.offset == o && b.offset == p
        ensures TextLeq(IsoFormat(a), IsoFormat(b)) <==> a.Instant() <= b.Instant()
      {
        SameOffsetOrder(a, b);
      }
    } else {
      var a, b := Misordered(o, p);
    }
  }

  lemma Misordered(o: int, p: int) returns (a: DateTime, b: DateTime)
    requires -1440 < o < 1440 && -1440 < p < 1440 && o != p
    ensures a.Valid() && b.Valid() && a.offset == o && b.offset == p
    ensures TextLeq(IsoFormat(a), IsoFormat(b)) <==> a.Instant() > b.Instant()
  {
    var noon: nat := 43200;
    var day := Date(2026, 1, 1);
    a := DateTime(day, if o < p then noon else noon + 1, 0, o);
    b := DateTime(day, if o < p then noon + 1 else noon, 0, p);
    IsoOrder(a, b);
  }

  // ------------------------------------------------------------------ reading back

  function ParseOffset(s: string): Option<int>
  {
    if s == [] || (s[0] != '+' && s[0] != '-') then None else
    var (ok, parts, rest) := ParseFields(OffsetFields(0), s[1..]);
    if !ok || rest != "" then None else
    var minutes: int := parts[0] * 60 + parts[1];
    Some(if s[0] == '-' then -minutes else minutes)
  }

  function ParseTail(s: string): Option<(nat, int)>
  {
    if s != [] && s[0] == '.' then
      if |s| < 7 || !AllDigits(s[1..7]) then None
      else match ParseOffset(s[7..]) { case None => None case Some(o) => Some((Value(s[1..7]), o)) }
    else match ParseOffset(s) { case None => None case Some(o) => Some((0, o)) }
  }

  /** A reader of the layouts `isoformat` writes. */
  function FromIsoFormat(text: string): Option<DateTime>
  {
    var (dok, date, rest) := ParseFields(DateFields(Date(0, 0, 0)), text);
    if !dok then None else
    var (tok, time, tail) := ParseFields(TimeFields(0, ""), rest);
    if !tok then None else
    Assembled(date, time, ParseTail(tail))
  }

  function Assembled(date: seq<nat>, time: seq<nat>, tail: Option<(nat, int)>): Option<DateTime>
    requires |date| == |time| == 3
  {
    match tail
    case None => None
    case Some(t) =>
      var d := DateTime(Date(date[0], date[1], date[2]), time[0] * 3600 + time[1] * 60 + time[2], t.0, t.1);
      if d.Valid() && time[1] < 60 && time[2] < 60 then Some(d) else None
  }

  lemma AssembledAgain(d: DateTime)
    requires d.Valid()
    ensures Assembled([d.date.year, d.date.month, d.date.day], [d.second / 3600, d.second % 3600 / 60, d.second % 60],
                      Some((d.micros, d.offset))) == Some(d)
  {
  }

  lemma OffsetParses(o: int)
    requires -1440 < o < 1440
    ensures ParseOffset(OffsetText(o)) == Some(o)
  {
    var fields := OffsetFields(o);
    assert Pow10(2) == 100;
    assert Fits(fields);
    assert OffsetText(o)[1..] == Render(fields) + "";
    RenderParses(fields, "");
    ParseIgnoresValues(fields, OffsetFields(0), Render(fields) + "");
    var parsed := ParseFields(fields, Render(fields) + "");
    assert parsed.1 == [fields[0].value, fields[1].value];
  }

  lemma TailParses(m: nat, o: int)
    requires m < 1000000 && -1440 < o < 1440
    ensures ParseTail(Tail(m, o)) == Some((m, o))
  {
    OffsetParses(o);
    if m == 0 {
      assert Tail(m, o) == OffsetText(o);
    } else {
      FractionWidth(m);
      ValueOfPadded(m, 6);
      var s := Tail(m, o);
      assert s[1..7] == Padded(m, 6) && s[7..] == OffsetText(o);
    }
  }

  /** Stored text reads back as the datetime it was written from. */
  lemma IsoParses(d: DateTime)
    requires d.Valid()
    ensures FromIsoFormat(IsoFormat(d)) == Some(d)
  {
    ParsesDate(d.date, Render(TimeFields(d.second, "")) + Tail(d.micros, d.offset));
    ParsesTime(d.second, "", Tail(d.micros, d.offset));
    TailParses(d.micros, d.offset);
    AssembledAgain(d);
  }
}
