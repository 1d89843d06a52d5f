/** The printed timestamp (src-tauri/src/events.rs): reading it back, and the exact range in
    which comparing the text compares the times. */
module Rfc3339 {
  import opened Basics
  import opened Ordering
  import opened Decimal
  import opened CivilCalendar

  /** Seconds since the epoch, in the source's unsigned 64-bit width. */
  type Seconds = s: nat | s < U64

  /** 10000-01-01T00:00:00Z: the first second whose year needs a fifth digit. */
  const YEAR_10000: nat := 253402300800

  function DateFields(d: Date): seq<Field>
  {
    [Field(d.year, 4, "-"), Field(d.month, 2, "-"), Field(d.day, 2, "T")]
  }

  /** Hour, minute and second of the second-of-day `t`, the last followed by `sep`. */
  function TimeFields(t: nat, sep: string): seq<Field>
  {
    [Field(t / 3600, 2, ":"), Field(t % 3600 / 60, 2, ":"), Field(t % 60, 2, sep)]
  }

  function FormatRfc3339(secs: Seconds): string
  {
    Stamp(CivilFromDays(secs / 86400), secs % 86400)
  }

  function Stamp(d: Date, t: nat): string
  {
    Render(DateFields(d)) + Render(TimeFields(t, "Z"))
  }

  /** A reader of `YYYY-MM-DDThh:mm:ssZ` that accepts real instants from the epoch on only. */
  function ParseRfc3339(text: string): Option<nat>
  {
    var (dok, date, rest) := ParseFields(DateFields(Date(0, 0, 0)), text);
    if !dok then None else
    var (tok, time, tail) := ParseFields(TimeFields(0, "Z"), rest);
    if !tok || tail != "" then None else
    Instant(Date(date[0], date[1], date[2]), time[0], time[1], time[2])
  }

  function Instant(d: Date, hour: nat, minute: nat, second: nat): Option<nat>
  {
    if !ValidDate(d) || Ordinal(d) < EPOCH_ORDINAL || hour > 23 || minute > 59 || second > 59 then None
    else Some((Ordinal(d) - EPOCH_ORDINAL) * 86400 + hour * 3600 + minute * 60 + second)
  }

  lemma DateFieldsFit(d: Date)
    requires ValidDate(d) && d.year <= 9999
    ensures Fits(DateFields(d))
  {
    assert Pow10(2) == 100;
    assert Pow10(4) == 100 * Pow10(2);
  }

  lemma TimeFieldsFit(t: nat, sep: string)
    requires t < 86400
    ensures Fits(TimeFields(t, sep))
  {
    assert Pow10(2) == 100;
  }

  lemma FieldsLessThree(a: seq<Field>, b: seq<Field>)
    requires |a| == |b| == 3
    ensures FieldsLess(a, b) <==>
            (a[0].value < b[0].value || (a[0].value == b[0].value &&
              (a[1].value < b[1].value || (a[1].value == b[1].value && a[2].value < b[2].value))))
  {
    assert a[1..][1..] == [a[2]] && b[1..][1..] == [b[2]];
    assert FieldsLess([a[2]], [b[2]]) <==> a[2].value < b[2].value;
  }

  lemma DateFieldsOrder(a: Date, b: Date)
    ensures SameLayout(DateFields(a), DateFields(b))
    ensures FieldsLess(DateFields(a), DateFields(b)) <==> DateLess(a, b)
    ensures DateFields(a) == DateFields(b) <==> a == b
  {
    FieldsLessThree(DateFields(a), DateFields(b));
    var f, g := DateFields(a), DateFields(b);
    assert f == g ==> f[0] == g[0] && f[1] == g[1] && f[2] == g[2];
  }

  lemma TimeFieldsOrder(t: nat, u: nat, sep: string)
    ensures SameLayout(TimeFields(t, sep), TimeFields(u, sep))
    ensures FieldsLess(TimeFields(t, sep), TimeFields(u, sep)) <==> t < u
    ensures TimeFields(t, sep) == TimeFields(u, sep) <==> t == u
  {
    var f, g := TimeFields(t, sep), TimeFields(u, sep);
    FieldsLessThree(f, g);
    ClockParts(t);
    ClockParts(u);
    ClockOrder(t / 3600, t % 3600 / 60, t % 60, u / 3600, u % 3600 / 60, u % 60);
    assert f == g ==> f[0] == g[0] && f[1] == g[1] && f[2] == g[2];
  }

  lemma ClockParts(t: nat)
    ensures t == t / 3600 * 3600 + t % 3600 / 60 * 60 + t % 60
    ensures t % 3600 / 60 < 60 && t % 60 < 60
  {
    assert t % 60 == t % 3600 % 60;
  }

  lemma ClockOrder(h: nat, m: nat, s: nat, i: nat, n: nat, r: nat)
    requires m < 60 && s < 60 && n < 60 && r < 60
    ensures h * 3600 + m * 60 + s < i * 3600 + n * 60 + r <==> h < i || (h == i && (m < n || (m == n && s < r)))
  {
  }

  /** Text with the same layout is ordered by date, then time of day, then what follows. */
  lemma StampOrder(a: Date, b: Date, t: nat, u: nat, sep: string, x: string, y: string)
    requires ValidDate(a) && ValidDate(b) && a.year <= 9999 && b.year <= 9999 && t < 86400 && u < 86400
    ensures TextLeq(Render(DateFields(a)) + (Render(TimeFields(t, sep)) + x),
                    Render(DateFields(b)) + (Render(TimeFields(u, sep)) + y))
       <==> DateLess(a, b) || (a == b && (t < u || (t == u && TextLeq(x, y))))
  {
    DateFieldsFit(a);
    DateFieldsFit(b);
    TimeFieldsFit(t, sep);
    TimeFieldsFit(u, sep);
    DateFieldsOrder(a, b);
    TimeFieldsOrder(t, u, sep);
    RenderOrder(DateFields(a), DateFields(b), Render(TimeFields(t, sep)) + x, Render(TimeFields(u, sep)) + y);
    RenderOrder(TimeFields(t, sep), TimeFields(u, sep), x, y);
  }

  /** The four-digit years end exactly where they should. */
  lemma YearFitsFourDigits(days: nat)
    ensures ValidDate(CivilFromDays(days))
    ensures CivilFromDays(days).year <= 9999 <==> days < 2932897
  {
    CivilOrdinal(days);
    var last := Date(9999, 12, 31);
    MonthStarts(9999);
    assert Ordinal(last) == 2932896 + EPOCH_ORDINAL;
    OrdinalOrder(last, CivilFromDays(days));
    OrdinalOrder(CivilFromDays(days), last);
  }

  lemma ParsesDate(d: Date, rest: string)
    requires ValidDate(d) && d.year <= 9999
    ensures ParseFields(DateFields(Date(0, 0, 0)), Render(DateFields(d)) + rest)
         == (true, [d.year, d.month, d.day], rest)
  {
    DateFieldsFit(d);
    ParseIgnoresValues(DateFields(d), DateFields(Date(0, 0, 0)), Render(DateFields(d)) + rest);
    RenderParses(DateFields(d), rest);
    var f, r := DateFields(d), ParseFields(DateFields(d), Render(DateFields(d)) + rest);
    assert r.1 == [f[0].value, f[1].value, f[2].value];
  }

  lemma ParsesTime(t: nat, sep: string, rest: string)
    requires t < 86400
    ensures ParseFields(TimeFields(0, sep), Render(TimeFields(t, sep)) + rest)
         == (true, [t / 3600, t % 3600 / 60, t % 60], rest)
  {
    TimeFieldsFit(t, sep);
    ParseIgnoresValues(TimeFields(t, sep), TimeFields(0, sep), Render(TimeFields(t, sep)) + rest);
    RenderParses(TimeFields(t, sep), rest);
    var f, r := TimeFields(t, sep), ParseFields(TimeFields(t, sep), Render(TimeFields(t, sep)) + rest);
    assert r.1 == [f[0].value, f[1].value, f[2].value];
  }

  lemma StampParses(d: Date, t: nat)
    requires ValidDate(d) && d.year <= 9999 && Ordinal(d) >= EPOCH_ORDINAL && t < 86400
    ensures ParseRfc3339(Stamp(d, t)) == Some((Ordinal(d) - EPOCH_ORDINAL) * 86400 + t)
  {
    ParsesDate(d, Render(TimeFields(t, "Z")));
    assert Render(TimeFields(t, "Z")) + "" == Render(TimeFields(t, "Z"));
    ParsesTime(t, "Z", "");
    InstantOfParts(d, t);
  }

  lemma InstantOfParts(d: Date, t: nat)
    requires ValidDate(d) && Ordinal(d) >= EPOCH_ORDINAL && t < 86400
    ensures Instant(Date(d.year, d.month, d.day), t / 3600, t % 3600 / 60, t % 60)
         == Some((Ordinal(d) - EPOCH_ORDINAL) * 86400 + t)
  {
  }

  lemma {:induction false} ParseIgnoresValues(a: seq<Field>, b: seq<Field>, s: string)
    requires SameLayout(a, b)
    ensures ParseFields(a, s) == ParseFields(b, s)
  {
    if a != [] {
      SameLayoutTail(a, b);
      var e := a[0].width + |a[0].sep|;
      if |s| >= e {
        ParseIgnoresValues(a[1..], b[1..], s[e..]);
      }
    }
  }

  /** Up to the year 9999 the text reads back as the second it was printed from. */
  lemma FormatParses(secs: Seconds)
    requires secs < YEAR_10000
    ensures ParseRfc3339(FormatRfc3339(secs)) == Some(secs as nat)
  {
    YearFitsFourDigits(secs / 86400);
    CivilOrdinal(secs / 86400);
    StampParses(CivilFromDays(secs / 86400), secs % 86400);
  }

  /** Up to the year 9999 comparing the texts compares the times. */
  lemma FormatOrder(s: Seconds, t: Seconds)
    requires s < YEAR_10000 && t < YEAR_10000
    ensures TextLeq(FormatRfc3339(s), FormatRfc3339(t)) <==> s <= t
  {
    var d, e := CivilFromDays(s / 86400), CivilFromDays(t / 86400);
    YearFitsFourDigits(s / 86400);
    YearFitsFourDigits(t / 86400);
    CivilOrdinal(s / 86400);
    CivilOrdinal(t / 86400);
    OrdinalOrder(d, e);
    StampOrder(d, e, s % 86400, t % 86400, "Z", "", "");
    assert Render(TimeFields(s % 86400, "Z")) + "" == Render(TimeFields(s % 86400, "Z"));
    assert Render(TimeFields(t % 86400, "Z")) + "" == Render(TimeFields(t % 86400, "Z"));
  }

  /** The first digit printed for a number of `digits + 1` digits. */
  lemma {:induction false} LeadingDigit(n: nat, digits: nat, width: nat, k: nat)
    requires 1 <= k <= 9 && k * Pow10(digits) <= n < (k + 1) * Pow10(digits) && width <= digits + 1
    ensures Padded(n, width) != [] && Padded(n, width)[0] == (k + '0' as int) as char
  {
    var w := if width == 0 then 0 else width - 1;
    if digits == 0 {
      assert Padded(n, width) == Padded(0, w) + [(n + '0' as int) as char];
    } else {
      DropLastDigit(n, k, Pow10(digits - 1));
      LeadingDigit(n / 10, digits - 1, w, k);
    }
  }

  lemma DropLastDigit(n: nat, k: nat, p: nat)
    requires p >= 1 && k >= 1 && k * (10 * p) <= n < (k + 1) * (10 * p)
    ensures k * p <= n / 10 < (k + 1) * p && n > 0
  {
    assert k * (10 * p) == 10 * (k * p) && (k + 1) * (10 * p) == 10 * ((k + 1) * p);
    assert k * p >= 1;
  }

  /** At the year 10000 it stops: the first such text sorts before the last of 9999. */
  lemma FormatOrderFails() returns (last: Seconds, first: Seconds)
    ensures last == YEAR_10000 - 1 && first == YEAR_10000
    ensures TextLess(FormatRfc3339(first), FormatRfc3339(last))
  {
    last, first := YEAR_10000 - 1, YEAR_10000;
    var a, b := last / 86400, first / 86400;
    DaysAround10000(a);
    DaysAround10000(b);
    StampsOutOfOrder(CivilFromDays(a), CivilFromDays(b), last % 86400, first % 86400);
  }

  lemma DaysAround10000(days: nat)
    requires 2932896 <= days <= 2932897
    ensures CivilFromDays(days).year == if days == 2932896 then 9999 else 10000
  {
    MonthStarts(9999);
    var d := if days == 2932896 then Date(9999, 12, 31) else Date(10000, 1, 1);
    CivilInverse(d);
  }

  lemma StampsOutOfOrder(d: Date, e: Date, t: nat, u: nat)
    requires 9000 <= d.year < 10000 <= e.year < 20000
    ensures TextLess(Stamp(e, u), Stamp(d, t))
  {
    assert Pow10(3) == 10 * Pow10(2) && Pow10(4) == 10 * Pow10(3) && Pow10(2) == 100;
    StampDigits(d, t, 3, 9);
    StampDigits(e, u, 4, 1);
    FirstCharDecides(Stamp(e, u), Stamp(d, t));
  }

  lemma StampDigits(d: Date, t: nat, digits: nat, k: nat)
    requires 3 <= digits && 1 <= k <= 9 && k * Pow10(digits) <= d.year < (k + 1) * Pow10(digits)
    ensures Stamp(d, t) != [] && Stamp(d, t)[0] == (k + '0' as int) as char
  {
    LeadingDigit(d.year, digits, 4, k);
  }

  lemma FirstCharDecides(a: string, b: string)
    requires a != [] && b != [] && a[0] < b[0]
    ensures TextLess(a, b)
  {
  }

  /** The exact range: text order is time order for all seconds up to `n` if and only if
      `n` lies before the year 10000. */
  lemma TextOrderRange(n: Seconds)
    ensures (forall s: Seconds, t: Seconds :: s <= n && t <= n ==>
               (TextLeq(FormatRfc3339(s), FormatRfc3339(t)) <==> s <= t))
       <==> n < YEAR_10000
  {
    if n < YEAR_10000 {
      forall s: Seconds, t: Seconds | s <= n && t <= n
        ensures TextLeq(FormatRfc3339(s), FormatRfc3339(t)) <==> s <= t
      {
        FormatOrder(s, t);
      }
    } else {
      var last, first := FormatOrderFails();
    }
  }

  // ------------------------------------------------- the layout

  lemma RenderThree(a: Field, b: Field, c: Field)
    ensures Render([a, b, c]) == Padded(a.value, a.width) + a.sep + Padded(b.value, b.width) + b.sep
                               + Padded(c.value, c.width) + c.sep
  {
    assert [a, b, c][1..] == [b, c] && [b, c][1..] == [c] && [c][1..] == [];
    assert Render([c]) == Padded(c.value, c.width) + c.sep;
  }

  lemma DateText(d: Date)
    ensures Render(DateFields(d)) == Padded(d.year, 4) + "-" + Padded(d.month, 2) + "-" + Padded(d.day, 2) + "T"
  {
    RenderThree(Field(d.year, 4, "-"), Field(d.month, 2, "-"), Field(d.day, 2, "T"));
  }

  lemma TimeText(t: nat, sep: string)
    ensures Render(TimeFields(t, sep))
         == Padded(t / 3600, 2) + ":" + Padded(t % 3600 / 60, 2) + ":" + Padded(t % 60, 2) + sep
  {
    RenderThree(Field(t / 3600, 2, ":"), Field(t % 3600 / 60, 2, ":"), Field(t % 60, 2, sep));
  }

  lemma Regroup(x: string, a: string, b: string, c: string, d: string, e: string, f: string)
    ensures x + (a + b + c + d + e + f) == x + a + b + c + d + e + f
  {
  }

  /** The printed text, piece by piece. */
  lemma FormatText(secs: Seconds)
    ensures var d := CivilFromDays(secs / 86400); var t := secs % 86400;
      FormatRfc3339(secs) == Padded(d.year, 4) + "-" + Padded(d.month, 2) + "-" + Padded(d.day, 2) + "T"
                           + Padded(t / 3600, 2) + ":" + Padded(t % 3600 / 60, 2) + ":" + Padded(t % 60, 2) + "Z"
  {
    StampText(CivilFromDays(secs / 86400), secs % 86400);
  }

  lemma StampText(d: Date, t: nat)
    ensures Stamp(d, t) == Padded(d.year, 4) + "-" + Padded(d.month, 2) + "-" + Padded(d.day, 2) + "T"
                         + Padded(t / 3600, 2) + ":" + Padded(t % 3600 / 60, 2) + ":" + Padded(t % 60, 2) + "Z"
  {
    DateText(d);
    TimeText(t, "Z");
    Regroup(Render(DateFields(d)), Padded(t / 3600, 2), ":", Padded(t % 3600 / 60, 2), ":", Padded(t % 60, 2), "Z");
  }

  /** Up to the year 9999 it is `YYYY-MM-DDThh:mm:ssZ`: twenty characters with the separators of RFC 3339
      in their places and digits in all others. */
  lemma FormatLayout(secs: Seconds)
    requires secs < YEAR_10000
    ensures var text := FormatRfc3339(secs);
      && |text| == 20 && text[4] == text[7] == '-' && text[10] == 'T' && text[13] == text[16] == ':' && text[19] == 'Z'
      && forall i :: 0 <= i < 19 && i !in {4, 7, 10, 13, 16} ==> IsDigit(text[i])
  {
    FormatText(secs);
    var d, t := CivilFromDays(secs / 86400), secs % 86400;
    YearFitsFourDigits(secs / 86400);
    assert Pow10(2) == 100 && Pow10(4) == 100 * Pow10(2);
    PaddedWidth(d.year, 4);
    PaddedWidth(d.month, 2);
    PaddedWidth(d.day, 2);
    PaddedWidth(t / 3600, 2);
    PaddedWidth(t % 3600 / 60, 2);
    PaddedWidth(t % 60, 2);
    PiecesInPlace(Padded(d.year, 4), Padded(d.month, 2), Padded(d.day, 2),
                  Padded(t / 3600, 2), Padded(t % 3600 / 60, 2), Padded(t % 60, 2), FormatRfc3339(secs));
  }

  lemma PiecesInPlace(y: string, m: string, d: string, h: string, n: string, s: string, text: string)
    requires |y| == 4 && |m| == |d| == |h| == |n| == |s| == 2
    requires AllDigits(y) && AllDigits(m) && AllDigits(d) && AllDigits(h) && AllDigits(n) && AllDigits(s)
    requires text == y + "-" + m + "-" + d + "T" + h + ":" + n + ":" + s + "Z"
    ensures |text| == 20 && text[4] == text[7] == '-' && text[10] == 'T' && text[13] == text[16] == ':' && text[19] == 'Z'
    ensures forall i :: 0 <= i < 19 && i !in {4, 7, 10, 13, 16} ==> IsDigit(text[i])
  {
    assert text[0..4] == y && text[5..7] == m && text[8..10] == d;
    assert text[11..13] == h && text[14..16] == n && text[17..19] == s;
    forall i | 0 <= i < 19 && i !in {4, 7, 10, 13, 16} ensures IsDigit(text[i]) {
      if i < 4 { assert text[i] == y[i]; }
      else if i < 7 { assert text[i] == m[i - 5]; }
      else if i < 10 { assert text[i] == d[i - 8]; }
      else if i < 13 { assert text[i] == h[i - 11]; }
      else if i < 16 { assert text[i] == n[i - 14]; }
      else { assert text[i] == s[i - 17]; }
    }
  }
}
