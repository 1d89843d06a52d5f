/** Mapping, filtering and summing of sequences, and how they go with sorting. */
module Sequences {
  import opened Ordering

  function Map<S, T>(f: S -> T, s: seq<S>): (r: seq<T>)
    ensures |r| == |s|
  {
    if s == [] then [] else [f(s[0])] + Map(f, s[1..])
  }

  function Filter<S>(p: S -> bool, s: seq<S>): seq<S>
  {
    if s == [] then [] else (if p(s[0]) then [s[0]] else []) + Filter(p, s[1..])
  }

  lemma {:induction false} MapAppend<S, T>(f: S -> T, s: seq<S>, x: S)
    ensures Map(f, s + [x]) == Map(f, s) + [f(x)]
  {
    if s == [] {
      assert s + [x] == [x];
    } else {
      assert (s + [x])[1..] == s[1..] + [x];
      MapAppend(f, s[1..], x);
    }
  }

  lemma {:induction false} FilterHas<S>(p: S -> bool, s: seq<S>, x: S)
    ensures x in Filter(p, s) <==> x in s && p(x)
  {
    if s != [] {
      FilterHas(p, s[1..], x);
    }
  }

  /** Filtering before or after mapping. */
  lemma {:induction false} FilterMap<S, T>(f: S -> T, p: S -> bool, q: T -> bool, s: seq<S>)
    requires forall x :: x in s ==> p(x) == q(f(x))
    ensures Map(f, Filter(p, s)) == Filter(q, Map(f, s))
  {
    if s != [] {
      FilterMap(f, p, q, s[1..]);
      var rest := Filter(p, s[1..]);
      assert Map(f, s)[0] == f(s[0]) && Map(f, s)[1..] == Map(f, s[1..]);
      if p(s[0]) {
        assert Filter(p, s) == [s[0]] + rest && ([s[0]] + rest)[1..] == rest;
      } else {
        assert Filter(p, s) == rest;
      }
    }
  }

  lemma {:induction false} InsertMap<S(!new), T>(leq: (S, S) -> bool, order: (T, T) -> bool, f: S -> T, x: S, s: seq<S>)
    requires forall y :: y in s ==> leq(x, y) == order(f(x), f(y))
    ensures Map(f, Insert(leq, x, s)) == Insert(order, f(x), Map(f, s))
  {
    if s != [] && !leq(x, s[0]) {
      InsertMap(leq, order, f, x, s[1..]);
    }
  }

  /** Sorting before or after mapping: an earlier element has to come first under one order exactly
      when its image does under the other. */
  lemma {:induction false} SortMap<S(!new), T>(leq: (S, S) -> bool, order: (T, T) -> bool, f: S -> T, s: seq<S>)
    requires forall i, j :: 0 <= i < j < |s| ==> leq(s[i], s[j]) == order(f(s[i]), f(s[j]))
    ensures Map(f, Sort(leq, s)) == Sort(order, Map(f, s))
  {
    if s != [] {
      SortMap(leq, order, f, s[1..]);
      var sorted := Sort(leq, s[1..]);
      forall y | y in sorted ensures leq(s[0], y) == order(f(s[0]), f(y)) {
        assert y in multiset(sorted);
        var k :| 0 <= k < |s[1..]| && s[1..][k] == y;
        assert s[k + 1] == y;
      }
      InsertMap(leq, order, f, s[0], sorted);
    }
  }

  /** The elements that tie with `x`. */
  function Ties<S>(leq: (S, S) -> bool, x: S): S -> bool
  {
    y => leq(x, y) && leq(y, x)
  }

  /** Sorting is stable: the elements that tie with `x` keep their order. */
  lemma {:induction false} SortStable<S(!new)>(leq: (S, S) -> bool, s: seq<S>, x: S)
    requires TotalPreorder(leq)
    ensures Filter(Ties(leq, x), Sort(leq, s)) == Filter(Ties(leq, x), s)
  {
    if s != [] {
      SortStable(leq, s[1..], x);
      InsertStable(leq, Ties(leq, x), s[0], Sort(leq, s[1..]), x);
    }
  }

  lemma {:induction false} InsertStable<S(!new)>(leq: (S, S) -> bool, ties: S -> bool, e: S, s: seq<S>, x: S)
    requires TotalPreorder(leq) && forall y :: ties(y) <==> leq(x, y) && leq(y, x)
    ensures Filter(ties, Insert(leq, e, s)) == (if ties(e) then [e] else []) + Filter(ties, s)
  {
    if s == [] || leq(e, s[0]) {
      FilterFirst(ties, e, s);
    } else {
      var head, rest := s[0], s[1..];
      InsertStable(leq, ties, e, rest, x);
      TieWithBoth(leq, ties, e, head, x);
      SwapFirst(ties, e, head, rest, Insert(leq, e, rest));
      assert s == [head] + rest && Insert(leq, e, s) == [head] + Insert(leq, e, rest);
    }
  }

  lemma SwapFirst<S>(p: S -> bool, e: S, head: S, rest: seq<S>, more: seq<S>)
    requires !(p(e) && p(head)) && Filter(p, more) == (if p(e) then [e] else []) + Filter(p, rest)
    ensures Filter(p, [head] + more) == (if p(e) then [e] else []) + Filter(p, [head] + rest)
  {
    FilterFirst(p, head, rest);
    FilterFirst(p, head, more);
  }

  lemma FilterFirst<S>(p: S -> bool, x: S, s: seq<S>)
    ensures Filter(p, [x] + s) == (if p(x) then [x] else []) + Filter(p, s)
  {
    assert ([x] + s)[1..] == s;
  }

  lemma TieWithBoth<S(!new)>(leq: (S, S) -> bool, ties: S -> bool, a: S, b: S, x: S)
    requires TotalPreorder(leq) && (forall y :: ties(y) <==> leq(x, y) && leq(y, x)) && !leq(a, b)
    ensures !(ties(a) && ties(b))
  {
  }

  /** What `g` gives for the first `n` elements, one after the other. */
  function FlatMap<S, T>(g: S -> seq<T>, s: seq<S>, n: nat): seq<T>
    requires n <= |s|
  {
    if n == 0 then [] else FlatMap(g, s, n - 1) + g(s[n - 1])
  }

  lemma {:induction false} FlatMapNothing<S, T>(g: S -> seq<T>, s: seq<S>, n: nat)
    requires n <= |s| && forall i :: 0 <= i < n ==> g(s[i]) == []
    ensures FlatMap(g, s, n) == []
  {
    if n > 0 {
      FlatMapNothing(g, s, n - 1);
    }
  }

  lemma {:induction false} FlatMapHas<S, T>(g: S -> seq<T>, s: seq<S>, n: nat, x: T)
    requires n <= |s|
    ensures x in FlatMap(g, s, n) <==> exists i :: 0 <= i < n && x in g(s[i])
  {
    if n > 0 {
      FlatMapHas(g, s, n - 1, x);
    }
  }

  lemma {:induction false} FlatMapSame<S, T>(g: S -> seq<T>, s: seq<S>, h: S -> seq<T>, t: seq<S>, n: nat)
    requires |s| == |t| && n <= |s|
    requires forall i :: 0 <= i < n ==> g(s[i]) == h(t[i])
    ensures FlatMap(g, s, n) == FlatMap(h, t, n)
  {
    if n > 0 {
      FlatMapSame(g, s, h, t, n - 1);
    }
  }

  // ------------------------------------------------------------------ sums

  function Sum<S>(f: S -> int, s: seq<S>): int
  {
    if s == [] then 0 else f(s[0]) + Sum(f, s[1..])
  }

  lemma {:induction false} SumAdd<S>(f: S -> int, s: seq<S>, t: seq<S>)
    ensures Sum(f, s + t) == Sum(f, s) + Sum(f, t)
  {
    if s == [] {
      assert s + t == t;
    } else {
      assert (s + t)[1..] == s[1..] + t;
      SumAdd(f, s[1..], t);
    }
  }

  lemma SumAppend<S>(f: S -> int, s: seq<S>, i: nat)
    requires i < |s|
    ensures Sum(f, s[..i + 1]) == Sum(f, s[..i]) + f(s[i])
  {
    assert s[..i + 1] == s[..i] + [s[i]];
    SumAdd(f, s[..i], [s[i]]);
  }

  lemma {:induction false} SumSame<S>(f: S -> int, g: S -> int, s: seq<S>)
    requires forall x :: x in s ==> f(x) == g(x)
    ensures Sum(f, s) == Sum(g, s)
  {
    if s != [] {
      SumSame(f, g, s[1..]);
    }
  }

  /** Terms that are zero may be left out. */
  lemma {:induction false} SumFilter<S>(f: S -> int, p: S -> bool, s: seq<S>)
    requires forall x :: x in s && !p(x) ==> f(x) == 0
    ensures Sum(f, Filter(p, s)) == Sum(f, s)
  {
    if s != [] {
      SumFilter(f, p, s[1..]);
      SumAdd(f, if p(s[0]) then [s[0]] else [], Filter(p, s[1..]));
    }
  }

  lemma {:induction false} SumMap<S, T>(f: T -> int, g: S -> T, h: S -> int, s: seq<S>)
    requires forall x :: x in s ==> h(x) == f(g(x))
    ensures Sum(f, Map(g, s)) == Sum(h, s)
  {
    if s != [] {
      SumMap(f, g, h, s[1..]);
    }
  }

  /** A sum over part of the elements, the others contributing nothing negative. */
  lemma {:induction false} SumPart<S>(f: S -> int, part: seq<S>, whole: seq<S>)
    requires multiset(part) <= multiset(whole) && forall x :: x in whole ==> f(x) >= 0
    ensures Sum(f, part) <= Sum(f, whole)
  {
    if part == [] {
      SumNonNegative(f, whole);
    } else {
      MembersWithout(part, 0);
      assert part[0] in multiset(whole);
      var i :| 0 <= i < |whole| && whole[i] == part[0];
      MembersWithout(whole, i);
      SumWithout(f, whole, i);
      SumWithout(f, part, 0);
      SumPart(f, Without(part, 0), Without(whole, i));
    }
  }

  function Without<S>(s: seq<S>, i: nat): (r: seq<S>)
    requires i < |s|
    ensures |r| == |s| - 1
    ensures forall x :: x in r ==> x in s
  {
    s[..i] + s[i + 1..]
  }

  lemma MembersWithout<S>(s: seq<S>, i: nat)
    requires i < |s|
    ensures multiset(s) == multiset{s[i]} + multiset(Without(s, i))
    ensures multiset(Without(s, i)) == multiset(s) - multiset{s[i]}
  {
    assert s == s[..i] + [s[i]] + s[i + 1..];
  }

  lemma {:induction false} SumWithout<S>(f: S -> int, s: seq<S>, i: nat)
    requires i < |s|
    ensures Sum(f, s) == f(s[i]) + Sum(f, Without(s, i))
  {
    if i == 0 {
      assert Without(s, i) == s[1..];
    } else {
      SumWithout(f, s[1..], i - 1);
      assert Without(s, i)[0] == s[0] && Without(s, i)[1..] == Without(s[1..], i - 1);
    }
  }

  lemma {:induction false} SumNonNegative<S>(f: S -> int, s: seq<S>)
    requires forall x :: x in s ==> f(x) >= 0
    ensures Sum(f, s) >= 0
  {
    if s != [] {
      SumNonNegative(f, s[1..]);
    }
  }

  /** Rearranging does not change a sum. */
  lemma {:induction false} SumRearranged<S>(f: S -> int, s: seq<S>, t: seq<S>)
    requires multiset(s) == multiset(t)
    ensures Sum(f, s) == Sum(f, t)
  {
    if s == [] {
      assert |multiset(t)| == |t|;
    } else {
      MembersWithout(s, 0);
      assert s[0] in multiset(t);
      var i :| 0 <= i < |t| && t[i] == s[0];
      MembersWithout(t, i);
      SumWithout(f, t, i);
      SumWithout(f, s, 0);
      SumRearranged(f, Without(s, 0), Without(t, i));
    }
  }
}
