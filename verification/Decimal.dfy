/** Decimal text: zero-padded printing, reading back, and the agreement of text order
    with numeric order on fixed-width fields. */
module Decimal {
  import opened Ordering

  predicate IsDigit(c: char)
  {
    '0' <= c <= '9'
  }

  function DigitValue(c: char): (v: nat)
    requires IsDigit(c)
  {
    c as int - '0' as int
  }

  predicate AllDigits(s: string)
  {
    forall i :: 0 <= i < |s| ==> IsDigit(s[i])
  }

  /** `n` in decimal with at least `width` digits, zero-padded on the left. */
  function Padded(n: nat, width: nat): (s: string)
    ensures AllDigits(s)
    ensures |s| >= width
    decreases n + width
  {
    if n == 0 && width == 0 then []
    else Padded(n / 10, if width == 0 then 0 else width - 1) + [(n % 10 + '0' as int) as char]
  }

  /** The number a digit string denotes. */
  function Value(s: string): (n: nat)
    requires AllDigits(s)
  {
    if s == [] then 0 else 10 * Value(s[..|s| - 1]) + DigitValue(s[|s| - 1])
  }

  function Pow10(w: nat): (p: nat)
    ensures p >= 1
  {
    if w == 0 then 1 else 10 * Pow10(w - 1)
  }

  lemma {:induction false} ValueOfPadded(n: nat, width: nat)
    ensures Value(Padded(n, width)) == n
    decreases n + width
  {
    if n != 0 || width != 0 {
      var w := if width == 0 then 0 else width - 1;
      ValueOfPadded(n / 10, w);
      assert Padded(n, width)[..|Padded(n, width)| - 1] == Padded(n / 10, w);
    }
  }

  /** A value that fits prints in exactly `width` digits. */
  lemma {:induction false} PaddedWidth(n: nat, width: nat)
    requires n < Pow10(width)
    ensures |Padded(n, width)| == width
  {
    if width != 0 {
      assert n / 10 < Pow10(width - 1);
      PaddedWidth(n / 10, width - 1);
    }
  }

  /** On digit strings of one length, text order is numeric order. */
  lemma {:induction false} DigitOrder(a: string, b: string)
    requires AllDigits(a) && AllDigits(b) && |a| == |b|
    ensures TextLeq(a, b) <==> Value(a) <= Value(b)
    decreases |a|
  {
    if a != [] {
      var p, q := a[..|a| - 1], b[..|b| - 1];
      var x, y := a[|a| - 1], b[|b| - 1];
      assert a == p + [x] && b == q + [y];
      DigitOrder(p, q);
      DigitOrder(q, p);
      if p == q {
        TextLeqSamePrefix(p, [x], [y]);
      } else {
        TextLeqBlock(p, q, [x], [y]);
        if Value(p) == Value(q) {
          TextLeqAntisymmetric(p, q);
        }
      }
    }
  }

  /** Text order of two zero-padded numbers of one width. */
  lemma PaddedOrder(m: nat, n: nat, width: nat)
    requires m < Pow10(width) && n < Pow10(width)
    ensures |Padded(m, width)| == |Padded(n, width)| == width
    ensures TextLeq(Padded(m, width), Padded(n, width)) <==> m <= n
    ensures Padded(m, width) == Padded(n, width) <==> m == n
  {
    PaddedWidth(m, width);
    PaddedWidth(n, width);
    ValueOfPadded(m, width);
    ValueOfPadded(n, width);
    DigitOrder(Padded(m, width), Padded(n, width));
  }

  // ------------------------------------------------- records of padded fields

  /** A number printed in `width` digits and followed by the text `sep`. */
  datatype Field = Field(value: nat, width: nat, sep: string)

  predicate Fits(fs: seq<Field>)
  {
    forall i :: 0 <= i < |fs| ==> fs[i].value < Pow10(fs[i].width)
  }

  /** The two records differ in their values only. */
  predicate SameLayout(a: seq<Field>, b: seq<Field>)
  {
    && |a| == |b|
    && forall i :: 0 <= i < |a| ==> a[i].width == b[i].width && a[i].sep == b[i].sep
  }

  function Render(fs: seq<Field>): (s: string)
  {
    if fs == [] then [] else Padded(fs[0].value, fs[0].width) + fs[0].sep + Render(fs[1..])
  }

  /** Reads a record of layout `fs` (values ignored) and returns its values and the rest. */
  function ParseFields(fs: seq<Field>, s: string): (r: (bool, seq<nat>, string))
    ensures r.0 ==> |r.1| == |fs|
  {
    if fs == [] then (true, [], s)
    else
      var w, e := fs[0].width, fs[0].width + |fs[0].sep|;
      if |s| < e || !AllDigits(s[..w]) || s[w..e] != fs[0].sep then (false, [], s)
      else
        var r := ParseFields(fs[1..], s[e..]);
        (r.0, [Value(s[..w])] + r.1, r.2)
  }

  /** The values of `a` come before those of `b`, the first difference deciding. */
  predicate FieldsLess(a: seq<Field>, b: seq<Field>)
    requires |a| == |b|
  {
    a != [] && (a[0].value < b[0].value || (a[0].value == b[0].value && FieldsLess(a[1..], b[1..])))
  }

  lemma {:induction false} RenderParses(fs: seq<Field>, tail: string)
    requires Fits(fs)
    ensures var r := ParseFields(fs, Render(fs) + tail);
            r.0 && r.2 == tail && |r.1| == |fs| && forall i :: 0 <= i < |fs| ==> r.1[i] == fs[i].value
  {
    if fs == [] {
      assert Render(fs) + tail == tail;
    } else {
      PaddedWidth(fs[0].value, fs[0].width);
      RenderSplit(fs, tail);
      RenderParses(fs[1..], tail);
      FirstFieldParses(fs, Padded(fs[0].value, fs[0].width), Render(fs[1..]) + tail, Render(fs) + tail);
      ValueOfPadded(fs[0].value, fs[0].width);
    }
  }

  /** A field's digits and separator come off the front. */
  lemma FirstFieldParses(fs: seq<Field>, digits: string, rest: string, s: string)
    requires fs != [] && |digits| == fs[0].width && AllDigits(digits) && s == digits + (fs[0].sep + rest)
    ensures var r := ParseFields(fs[1..], rest); ParseFields(fs, s) == (r.0, [Value(digits)] + r.1, r.2)
  {
    ThreeParts(digits, fs[0].sep, rest, s);
    OneField(fs, s, |digits|, |digits| + |fs[0].sep|);
  }

  lemma OneField(fs: seq<Field>, s: string, w: nat, e: nat)
    requires fs != [] && w == fs[0].width && e == w + |fs[0].sep| <= |s|
    requires AllDigits(s[..w]) && s[w..e] == fs[0].sep
    ensures var r := ParseFields(fs[1..], s[e..]); ParseFields(fs, s) == (r.0, [Value(s[..w])] + r.1, r.2)
  {
  }

  lemma ThreeParts(a: string, b: string, c: string, s: string)
    requires s == a + (b + c)
    ensures |s| >= |a| + |b| && s[..|a|] == a && s[|a|..|a| + |b|] == b && s[|a| + |b|..] == c
  {
  }

  /** Two records of one layout are ordered by their values, then by what follows them. */
  lemma {:induction false} RenderOrder(a: seq<Field>, b: seq<Field>, s: string, t: string)
    requires SameLayout(a, b) && Fits(a) && Fits(b)
    ensures TextLeq(Render(a) + s, Render(b) + t) <==> FieldsLess(a, b) || (a == b && TextLeq(s, t))
  {
    if a == [] {
      assert Render(a) + s == s && Render(b) + t == t;
    } else {
      var p, q := Padded(a[0].value, a[0].width), Padded(b[0].value, b[0].width);
      var ra, rb := Render(a[1..]) + s, Render(b[1..]) + t;
      PaddedOrder(a[0].value, b[0].value, a[0].width);
      RenderSplit(a, s);
      RenderSplit(b, t);
      FirstFieldOrder(p, q, a[0].sep, ra, rb);
      if p == q {
        SameLayoutTail(a, b);
        RenderOrder(a[1..], b[1..], s, t);
      }
    }
  }

  lemma RenderSplit(a: seq<Field>, s: string)
    requires a != []
    ensures Render(a) + s == Padded(a[0].value, a[0].width) + (a[0].sep + (Render(a[1..]) + s))
  {
  }

  lemma FirstFieldOrder(p: string, q: string, sep: string, x: string, y: string)
    requires |p| == |q|
    ensures TextLeq(p + (sep + x), q + (sep + y)) <==> if p == q then TextLeq(x, y) else TextLeq(p, q)
  {
    if p != q {
      TextLeqBlock(p, q, sep + x, sep + y);
    } else {
      TextLeqSamePrefix(p, sep + x, sep + y);
      TextLeqSamePrefix(sep, x, y);
    }
  }

  lemma SameLayoutTail(a: seq<Field>, b: seq<Field>)
    requires SameLayout(a, b) && a != []
    ensures SameLayout(a[1..], b[1..])
    ensures a[0].value == b[0].value ==> (a == b <==> a[1..] == b[1..])
  {
    forall i | 0 <= i < |a[1..]|
      ensures a[1..][i].width == b[1..][i].width && a[1..][i].sep == b[1..][i].sep
    {
      assert a[i + 1].width == b[i + 1].width;
    }
    assert a == [a[0]] + a[1..] && b == [b[0]] + b[1..];
  }
}
