/** Orders and sorting shared by the components: Python's ordering of text, and the
    stable sort behind `sorted` and `list.sort`. */
module Ordering {

  /** Text order: code points compared left to right, a proper prefix first. */
  predicate TextLeq(a: string, b: string)
  {
    if a == [] then true
    else if b == [] then false
    else if a[0] == b[0] then TextLeq(a[1..], b[1..])
    else a[0] < b[0]
  }

  predicate TextLess(a: string, b: string)
  {
    TextLeq(a, b) && a != b
  }

  lemma {:induction false} TextLeqTotal(a: string, b: string)
    ensures TextLeq(a, b) || TextLeq(b, a)
  {
    if a != [] && b != [] && a[0] == b[0] {
      TextLeqTotal(a[1..], b[1..]);
    }
  }

  lemma {:induction false} TextLeqTransitive(a: string, b: string, c: string)
    requires TextLeq(a, b) && TextLeq(b, c)
    ensures TextLeq(a, c)
  {
    if a != [] && b != [] && c != [] && a[0] == b[0] == c[0] {
      TextLeqTransitive(a[1..], b[1..], c[1..]);
    }
  }

  lemma {:induction false} TextLeqAntisymmetric(a: string, b: string)
    requires TextLeq(a, b) && TextLeq(b, a)
    ensures a == b
  {
    if a != [] {
      TextLeqAntisymmetric(a[1..], b[1..]);
      assert a == [a[0]] + a[1..] && b == [b[0]] + b[1..];
    }
  }

  lemma TextLeqReflexive(a: string)
    ensures TextLeq(a, a)
  {
    TextLeqTotal(a, a);
  }

  /** A common prefix does not change the order. */
  lemma {:induction false} TextLeqSamePrefix(p: string, a: string, b: string)
    ensures TextLeq(p + a, p + b) == TextLeq(a, b)
  {
    if p == [] {
      assert p + a == a && p + b == b;
    } else {
      assert (p + a)[1..] == p[1..] + a && (p + b)[1..] == p[1..] + b;
      TextLeqSamePrefix(p[1..], a, b);
    }
  }

  /** Two different blocks of one length decide the order, whatever follows them. */
  lemma {:induction false} TextLeqBlock(a: string, b: string, x: string, y: string)
    requires |a| == |b| && a != b
    ensures TextLeq(a + x, b + y) == TextLeq(a, b)
  {
    assert a == [a[0]] + a[1..] && b == [b[0]] + b[1..];
    assert (a + x)[1..] == a[1..] + x && (b + y)[1..] == b[1..] + y;
    if a[0] == b[0] {
      TextLeqBlock(a[1..], b[1..], x, y);
    }
  }

  // ------------------------------------------------------------------ sorting

  ghost predicate TotalPreorder<T(!new)>(leq: (T, T) -> bool)
  {
    && (forall x, y :: leq(x, y) || leq(y, x))
    && (forall x, y, z :: leq(x, y) && leq(y, z) ==> leq(x, z))
  }

  /** Inserts before the first element that is not smaller, so earlier elements stay first. */
  function Insert<T>(leq: (T, T) -> bool, x: T, s: seq<T>): (r: seq<T>)
    ensures multiset(r) == multiset{x} + multiset(s)
  {
    if s == [] || leq(x, s[0]) then
      assert multiset([x] + s) == multiset{x} + multiset(s);
      [x] + s
    else
      assert s == [s[0]] + s[1..];
      [s[0]] + Insert(leq, x, s[1..])
  }

  /** The stable sort of `s` under `leq`. */
  function Sort<T>(leq: (T, T) -> bool, s: seq<T>): (r: seq<T>)
    ensures multiset(r) == multiset(s)
    ensures |r| == |s|
  {
    if s == [] then []
    else
      assert s == [s[0]] + s[1..];
      var r := Insert(leq, s[0], Sort(leq, s[1..]));
      assert |multiset(r)| == |r| && |multiset(s)| == |s|;
      r
  }

  predicate SortedBy<T>(leq: (T, T) -> bool, s: seq<T>)
  {
    forall i, j :: 0 <= i < j < |s| ==> leq(s[i], s[j])
  }

  lemma {:induction false} InsertSorted<T(!new)>(leq: (T, T) -> bool, x: T, s: seq<T>)
    requires TotalPreorder(leq) && SortedBy(leq, s)
    ensures SortedBy(leq, Insert(leq, x, s))
  {
    if s != [] && !leq(x, s[0]) {
      InsertSorted(leq, x, s[1..]);
      var t := Insert(leq, x, s[1..]);
      forall k | 0 <= k < |t| ensures leq(s[0], t[k]) {
        assert t[k] in multiset(t);
        assert t[k] == x || t[k] in s[1..];
      }
    }
  }

  lemma {:induction false} SortSorted<T(!new)>(leq: (T, T) -> bool, s: seq<T>)
    requires TotalPreorder(leq)
    ensures SortedBy(leq, Sort(leq, s))
  {
    if s != [] {
      SortSorted(leq, s[1..]);
      InsertSorted(leq, s[0], Sort(leq, s[1..]));
    }
  }

  /** Elements that tie under `leq` are the same element. */
  ghost predicate TiesAreEqual<T(!new)>(leq: (T, T) -> bool, s: seq<T>)
  {
    forall x, y :: x in s && y in s && leq(x, y) && leq(y, x) ==> x == y
  }

  /** The first element of a sorted sequence is below every element it holds. */
  lemma FirstIsLeast<T(!new)>(leq: (T, T) -> bool, s: seq<T>, x: T)
    requires TotalPreorder(leq) && SortedBy(leq, s) && x in s
    ensures leq(s[0], x)
  {
    var i :| 0 <= i < |s| && s[i] == x;
    if i == 0 {
      assert leq(s[0], s[0]);
    }
  }

  /** A sorted sequence whose ties are equal is determined by its elements. */
  lemma {:induction false} SortedUnique<T(!new)>(leq: (T, T) -> bool, a: seq<T>, b: seq<T>)
    requires TotalPreorder(leq) && multiset(a) == multiset(b)
    requires SortedBy(leq, a) && SortedBy(leq, b) && TiesAreEqual(leq, a)
    ensures a == b
  {
    assert |multiset(a)| == |a| && |multiset(b)| == |b|;
    if a != [] {
      assert a[0] in multiset(b) && b[0] in multiset(a);
      FirstIsLeast(leq, a, b[0]);
      FirstIsLeast(leq, b, a[0]);
      assert a[0] == b[0];
      assert a == [a[0]] + a[1..] && b == [b[0]] + b[1..];
      assert multiset(a[1..]) == multiset(a) - multiset{a[0]};
      assert multiset(b[1..]) == multiset(b) - multiset{b[0]};
      SortedTail(leq, a);
      SortedTail(leq, b);
      SortedUnique(leq, a[1..], b[1..]);
    }
  }

  lemma SortedTail<T(!new)>(leq: (T, T) -> bool, s: seq<T>)
    requires SortedBy(leq, s) && s != []
    ensures SortedBy(leq, s[1..])
  {
    forall i, j | 0 <= i < j < |s[1..]| ensures leq(s[1..][i], s[1..][j]) {
      assert leq(s[i + 1], s[j + 1]);
    }
  }

  /** Sorting forgets the order its input came in. */
  lemma SortCanonical<T(!new)>(leq: (T, T) -> bool, a: seq<T>, b: seq<T>)
    requires TotalPreorder(leq) && multiset(a) == multiset(b) && TiesAreEqual(leq, a)
    ensures Sort(leq, a) == Sort(leq, b)
  {
    SortSorted(leq, a);
    SortSorted(leq, b);
    forall x | x in Sort(leq, a) ensures x in a {
      assert x in multiset(Sort(leq, a));
    }
    SortedUnique(leq, Sort(leq, a), Sort(leq, b));
  }

  lemma TextLeqPreorder()
    ensures TotalPreorder(TextLeq)
  {
    forall x: string, y: string ensures TextLeq(x, y) || TextLeq(y, x) { TextLeqTotal(x, y); }
    forall x: string, y: string, z: string | TextLeq(x, y) && TextLeq(y, z) ensures TextLeq(x, z) {
      TextLeqTransitive(x, y, z);
    }
  }

  /** Sorted text depends only on which strings it holds, and how often. */
  lemma SortTextCanonical(a: seq<string>, b: seq<string>)
    requires multiset(a) == multiset(b)
    ensures Sort(TextLeq, a) == Sort(TextLeq, b)
  {
    TextLeqPreorder();
    forall x, y | x in a && y in a && TextLeq(x, y) && TextLeq(y, x) ensures x == y {
      TextLeqAntisymmetric(x, y);
    }
    SortCanonical(TextLeq, a, b);
  }
}
