/** What the duplicate relations mean: over the values of a category they form a star forest whose
    trees are the normal forms. */
module CorrelationLaws {
  import opened Ordering
  import opened Sequences
  import opened Correlation

  // ------------------------------------------------------------------ groups

  lemma {:induction false} HavingCount(f: Forms, c: Category, form: string, n: nat, x: string)
    requires n <= |c.values|
    ensures multiset(Having(f, c, form, n))[x] == if Normalize(f, c.name, x) == form then multiset(c.values[..n])[x] else 0
  {
    if n > 0 {
      HavingCount(f, c, form, n - 1, x);
      HavingMore(f, c, form, n, x);
      PrefixMore(c.values, n, x);
    }
  }

  lemma HavingMore(f: Forms, c: Category, form: string, n: nat, x: string)
    requires 0 < n <= |c.values|
    ensures multiset(Having(f, c, form, n))[x] == multiset(Having(f, c, form, n - 1))[x]
         + (if c.values[n - 1] == x && Normalize(f, c.name, x) == form then 1 else 0)
  {
    CountMore(Having(f, c, form, n - 1), c.values[n - 1], x);
  }

  lemma PrefixMore(s: seq<string>, n: nat, x: string)
    requires 0 < n <= |s|
    ensures multiset(s[..n])[x] == multiset(s[..n - 1])[x] + (if s[n - 1] == x then 1 else 0)
  {
    assert s[..n] == s[..n - 1] + [s[n - 1]];
    CountMore(s[..n - 1], s[n - 1], x);
  }

  lemma CountMore(s: seq<string>, y: string, x: string)
    ensures multiset(s + [y])[x] == multiset(s)[x] + (if y == x then 1 else 0)
  {
  }

  /** A group holds the values of its form, each as often as the category does. */
  lemma GroupCount(f: Forms, c: Category, form: string, x: string)
    ensures multiset(Group(f, c, form))[x] == if Normalize(f, c.name, x) == form then multiset(c.values)[x] else 0
  {
    HavingCount(f, c, form, |c.values|, x);
    assert c.values[..|c.values|] == c.values;
  }

  lemma GroupHas(f: Forms, c: Category, form: string, x: string)
    ensures x in Group(f, c, form) <==> x in c.values && Normalize(f, c.name, x) == form
  {
    GroupCount(f, c, form, x);
    assert x in Group(f, c, form) <==> x in multiset(Group(f, c, form));
    assert x in c.values <==> x in multiset(c.values);
  }

  lemma FormsHave(f: Forms, c: Category, form: string)
    ensures form in SortedForms(f, c) <==> Occurs(f, c, form)
  {
    var normals := Normals(f, c);
    DistinctHas(normals, |normals|);
    SortHas(Distinct(normals, |normals|), form);
    assert normals[..|normals|] == normals;
    if form in normals {
      var i :| 0 <= i < |normals| && normals[i] == form;
      assert c.values[i] in c.values && Normalize(f, c.name, c.values[i]) == form;
    }
    forall x | x in c.values && Normalize(f, c.name, x) == form ensures form in normals {
      var i :| 0 <= i < |c.values| && c.values[i] == x;
      assert normals[i] == form;
    }
  }

  lemma FormsDistinct(f: Forms, c: Category)
    ensures forall i, j :: 0 <= i < j < |SortedForms(f, c)| ==> SortedForms(f, c)[i] != SortedForms(f, c)[j]
  {
    var d := Distinct(Normals(f, c), |c.values|);
    DistinctHas(Normals(f, c), |c.values|);
    SameCounts(d, SortedForms(f, c));
  }

  /** A rearrangement of different strings is a sequence of different strings. */
  lemma SameCounts(a: seq<string>, b: seq<string>)
    requires multiset(a) == multiset(b)
    requires forall i, j :: 0 <= i < j < |a| ==> a[i] != a[j]
    ensures forall i, j :: 0 <= i < j < |b| ==> b[i] != b[j]
  {
    forall x ensures multiset(b)[x] <= 1 {
      AtMostOnce(a, x);
    }
    forall i, j | 0 <= i < j < |b| ensures b[i] != b[j] {
      if b[i] == b[j] {
        TwiceCounted(b, i, j);
      }
    }
  }

  lemma TwiceCounted(b: seq<string>, i: nat, j: nat)
    requires i < j < |b| && b[i] == b[j]
    ensures multiset(b)[b[i]] >= 2
  {
    assert b == b[..i] + [b[i]] + b[i + 1..j] + [b[j]] + b[j + 1..];
  }

  lemma {:induction false} AtMostOnce(a: seq<string>, x: string)
    requires forall i, j :: 0 <= i < j < |a| ==> a[i] != a[j]
    ensures multiset(a)[x] <= 1
  {
    if a != [] {
      assert a == [a[0]] + a[1..];
      AtMostOnce(a[1..], x);
    }
  }

  // ------------------------------------------------------------------ star forest

  lemma {:induction false} StarHas(c: Category, form: string, group: seq<string>, n: nat, r: Relation)
    requires n <= |group|
    ensures r in Star(c, form, group, n) <==> exists k :: 1 <= k < n && r == DuplicateOf(c, form, group, k)
  {
    if n > 1 {
      StarHas(c, form, group, n - 1, r);
    }
  }

  lemma StarsHave(f: Forms, c: Category, forms: seq<string>, n: nat, r: Relation)
    requires n <= |forms|
    ensures r in Stars(f, c, forms, n) <==> exists i :: 0 <= i < n && r in StarOf(f, c, forms[i])
  {
    FlatMapHas((form: string) => StarOf(f, c, form), forms, n, r);
  }

  /** The least value of a group is its canonical form. */
  predicate IsCanonical(f: Forms, c: Category, x: string)
  {
    x in c.values && forall y :: y in c.values && Normalize(f, c.name, y) == Normalize(f, c.name, x) ==> TextLeq(x, y)
  }

  lemma GroupFirst(f: Forms, c: Category, form: string)
    requires Group(f, c, form) != []
    ensures IsCanonical(f, c, Group(f, c, form)[0]) && Normalize(f, c.name, Group(f, c, form)[0]) == form
  {
    var g := Group(f, c, form);
    TextLeqPreorder();
    SortSorted(TextLeq, Having(f, c, form, |c.values|));
    GroupHas(f, c, form, g[0]);
    forall y | y in c.values && Normalize(f, c.name, y) == form ensures TextLeq(g[0], y) {
      GroupHas(f, c, form, y);
      FirstIsLeast(TextLeq, g, y);
    }
  }

  /** Every duplicate relation has the canonical value of one normal form on the left and a value
      of the same normal form on the right. */
  lemma DuplicateJoinsOneForm(f: Forms, c: Category, r: Relation)
    requires r in CategoryDuplicates(f, c)
    ensures r.kind == Duplicate && r.primary.name == r.related.name == c.name
    ensures IsCanonical(f, c, r.primary.value) && r.related.value in c.values
    ensures r.primary.normalized == r.related.normalized == Normalize(f, c.name, r.primary.value)
    ensures Normalize(f, c.name, r.related.value) == Normalize(f, c.name, r.primary.value)
  {
    var forms := SortedForms(f, c);
    StarsHave(f, c, forms, |forms|, r);
    var i :| 0 <= i < |forms| && r in StarOf(f, c, forms[i]);
    var g := Group(f, c, forms[i]);
    StarHas(c, forms[i], g, |g|, r);
    GroupFirst(f, c, forms[i]);
    GroupHas(f, c, forms[i], r.related.value);
  }

  /** A value that is not the canonical one of its form is paired with it. */
  lemma DuplicateReaches(f: Forms, c: Category, x: string) returns (r: Relation)
    requires x in c.values && !IsCanonical(f, c, x)
    ensures r in CategoryDuplicates(f, c) && r.related.value == x
  {
    var form := Normalize(f, c.name, x);
    var g := Group(f, c, form);
    GroupHas(f, c, form, x);
    GroupFirst(f, c, form);
    var k :| 0 <= k < |g| && g[k] == x;
    r := DuplicateOf(c, form, g, k);
    PairIsFound(f, c, form, k);
  }

  lemma PairIsFound(f: Forms, c: Category, form: string, k: nat)
    requires Occurs(f, c, form) && 1 <= k < |Group(f, c, form)|
    ensures DuplicateOf(c, form, Group(f, c, form), k) in CategoryDuplicates(f, c)
  {
    var g := Group(f, c, form);
    var r := DuplicateOf(c, form, g, k);
    StarHas(c, form, g, |g|, r);
    FormsHave(f, c, form);
    var forms := SortedForms(f, c);
    var i :| 0 <= i < |forms| && forms[i] == form;
    StarsHave(f, c, forms, |forms|, r);
  }

  ghost predicate Joined(rs: seq<Relation>, a: string, b: string)
  {
    exists r :: r in rs && ((r.primary.value == a && r.related.value == b) || (r.primary.value == b && r.related.value == a))
  }

  ghost predicate IsPath(rs: seq<Relation>, p: seq<string>)
  {
    p != [] && forall i :: 0 <= i < |p| - 1 ==> Joined(rs, p[i], p[i + 1])
  }

  ghost predicate Connected(rs: seq<Relation>, a: string, b: string)
  {
    exists p :: IsPath(rs, p) && p[0] == a && p[|p| - 1] == b
  }

  /** Two values of a category are connected exactly when their normal forms are equal. */
  lemma ConnectedIffSameForm(f: Forms, c: Category, a: string, b: string)
    requires a in c.values && b in c.values
    ensures Connected(CategoryDuplicates(f, c), a, b) <==> Normalize(f, c.name, a) == Normalize(f, c.name, b)
  {
    if Connected(CategoryDuplicates(f, c), a, b) {
      ConnectedShareForm(f, c, a, b);
    }
    if Normalize(f, c.name, a) == Normalize(f, c.name, b) {
      SameFormConnects(f, c, a, b);
    }
  }

  lemma ConnectedShareForm(f: Forms, c: Category, a: string, b: string)
    requires Connected(CategoryDuplicates(f, c), a, b)
    ensures Normalize(f, c.name, a) == Normalize(f, c.name, b)
  {
    var p :| IsPath(CategoryDuplicates(f, c), p) && p[0] == a && p[|p| - 1] == b;
    PathKeepsForm(f, c, p, |p| - 1);
  }

  lemma SameFormConnects(f: Forms, c: Category, a: string, b: string)
    requires a in c.values && b in c.values && Normalize(f, c.name, a) == Normalize(f, c.name, b)
    ensures Connected(CategoryDuplicates(f, c), a, b)
  {
    var ca := ToCanonical(f, c, a);
    var cb := ToCanonical(f, c, b);
    TextLeqAntisymmetric(ca, cb);
    PathOverCanonical(CategoryDuplicates(f, c), a, ca, b);
  }

  lemma PathOverCanonical(rs: seq<Relation>, a: string, k: string, b: string)
    requires k == a || Joined(rs, a, k)
    requires k == b || Joined(rs, k, b)
    ensures Connected(rs, a, b)
  {
    assert IsPath(rs, if a == k then (if b == k then [a] else [a, b]) else if b == k then [a, b] else [a, k, b]);
  }

  lemma ToCanonical(f: Forms, c: Category, x: string) returns (k: string)
    requires x in c.values
    ensures IsCanonical(f, c, k) && Normalize(f, c.name, k) == Normalize(f, c.name, x)
    ensures k == x || (Joined(CategoryDuplicates(f, c), k, x) && Joined(CategoryDuplicates(f, c), x, k))
  {
    k := x;
    if !IsCanonical(f, c, x) {
      var r := DuplicateReaches(f, c, x);
      DuplicateJoinsOneForm(f, c, r);
      k := r.primary.value;
    }
  }

  lemma {:induction false} PathKeepsForm(f: Forms, c: Category, p: seq<string>, n: nat)
    requires IsPath(CategoryDuplicates(f, c), p) && n < |p|
    ensures Normalize(f, c.name, p[n]) == Normalize(f, c.name, p[0])
  {
    if n > 0 {
      PathKeepsForm(f, c, p, n - 1);
      assert Joined(CategoryDuplicates(f, c), p[n - 1], p[n - 1 + 1]);
      var r :| r in CategoryDuplicates(f, c) &&
               ((r.primary.value == p[n - 1] && r.related.value == p[n]) ||
                (r.primary.value == p[n] && r.related.value == p[n - 1]));
      DuplicateJoinsOneForm(f, c, r);
    }
  }

  function RelatedValues(rs: seq<Relation>): (r: seq<string>)
    ensures |r| == |rs|
  {
    if rs == [] then [] else RelatedValues(rs[..|rs| - 1]) + [rs[|rs| - 1].related.value]
  }

  lemma {:induction false} RelatedValuesAdd(a: seq<Relation>, b: seq<Relation>)
    ensures RelatedValues(a + b) == RelatedValues(a) + RelatedValues(b)
  {
    if b == [] {
      assert a + b == a;
    } else {
      RelatedValuesAdd(a, b[..|b| - 1]);
      assert (a + b)[..|a + b| - 1] == a + b[..|b| - 1];
    }
  }

  /** The canonical values of the first `n` forms. */
  function Canonicals(f: Forms, c: Category, forms: seq<string>, n: nat): (r: seq<string>)
    requires n <= |forms|
    ensures |r| == n
  {
    if n == 0 then [] else Canonicals(f, c, forms, n - 1) + [Canonical(f, c, forms[n - 1])]
  }

  function Canonical(f: Forms, c: Category, form: string): string
  {
    var group := Group(f, c, form);
    if group == [] then "" else group[0]
  }

  /** Some value of the category has the form. */
  ghost predicate Occurs(f: Forms, c: Category, form: string)
  {
    exists x :: x in c.values && Normalize(f, c.name, x) == form
  }

  lemma StarRelatedMore(c: Category, form: string, group: seq<string>, n: nat)
    requires 1 < n <= |group|
    ensures RelatedValues(Star(c, form, group, n)) == RelatedValues(Star(c, form, group, n - 1)) + [group[n - 1]]
  {
    var last := DuplicateOf(c, form, group, n - 1);
    RelatedValuesAdd(Star(c, form, group, n - 1), [last]);
    assert RelatedValues([last]) == [group[n - 1]];
  }

  lemma {:induction false} StarRelated(c: Category, form: string, group: seq<string>, n: nat)
    requires 1 <= n <= |group|
    ensures RelatedValues(Star(c, form, group, n)) == group[1..n]
  {
    if n > 1 {
      StarRelated(c, form, group, n - 1);
      StarRelatedMore(c, form, group, n);
      assert group[1..n] == group[1..n - 1] + [group[n - 1]];
    }
  }

  lemma StarCovers(c: Category, form: string, group: seq<string>, n: nat)
    requires 1 <= n <= |group|
    ensures multiset(RelatedValues(Star(c, form, group, n))) + multiset{group[0]} == multiset(group[..n])
  {
    StarRelated(c, form, group, n);
    assert group[..n] == [group[0]] + group[1..n];
  }

  /** How often a value is on the right-hand side in, or canonical for, the first `n` stars. */
  ghost function Covered(f: Forms, c: Category, forms: seq<string>, n: nat, x: string): nat
    requires n <= |forms|
  {
    multiset(RelatedValues(Stars(f, c, forms, n)))[x] + multiset(Canonicals(f, c, forms, n))[x]
  }

  lemma OneMoreStar(f: Forms, c: Category, forms: seq<string>, n: nat, x: string, form: string)
    requires 0 < n <= |forms| && Occurs(f, c, forms[n - 1]) && form == Normalize(f, c.name, x)
    ensures Covered(f, c, forms, n, x)
         == Covered(f, c, forms, n - 1, x) + (if form == forms[n - 1] then multiset(c.values)[x] else 0)
  {
    RelatedValuesAdd(Stars(f, c, forms, n - 1), StarOf(f, c, forms[n - 1]));
    StarOfCovers(f, c, forms[n - 1], x);
  }

  lemma {:induction false} StarsCover(f: Forms, c: Category, forms: seq<string>, n: nat, x: string, form: string)
    requires n <= |forms| && AllOccur(f, c, forms) && form == Normalize(f, c.name, x)
    requires forall i, j :: 0 <= i < j < |forms| ==> forms[i] != forms[j]
    ensures Covered(f, c, forms, n, x) == if form in forms[..n] then multiset(c.values)[x] else 0
  {
    if n > 0 {
      StarsCover(f, c, forms, n - 1, x, form);
      assert Occurs(f, c, forms[n - 1]);
      OneMoreStar(f, c, forms, n, x, form);
      NewForm(forms, n, form);
    } else {
      NothingCovered(f, c, forms, n, x);
    }
  }

  ghost predicate AllOccur(f: Forms, c: Category, forms: seq<string>)
  {
    forall i :: 0 <= i < |forms| ==> Occurs(f, c, forms[i])
  }

  lemma NothingCovered(f: Forms, c: Category, forms: seq<string>, n: nat, x: string)
    requires n == 0
    ensures Covered(f, c, forms, n, x) == 0 && forms[..n] == []
  {
  }

  lemma NewForm(forms: seq<string>, n: nat, form: string)
    requires 0 < n <= |forms| && forall i, j :: 0 <= i < j < |forms| ==> forms[i] != forms[j]
    ensures form in forms[..n] <==> form in forms[..n - 1] || form == forms[n - 1]
    ensures forms[n - 1] !in forms[..n - 1]
  {
    assert forms[..n] == forms[..n - 1] + [forms[n - 1]];
  }

  lemma StarOfCovers(f: Forms, c: Category, form: string, x: string)
    requires Occurs(f, c, form)
    ensures multiset(RelatedValues(StarOf(f, c, form)))[x] + multiset([Canonical(f, c, form)])[x]
         == if Normalize(f, c.name, x) == form then multiset(c.values)[x] else 0
  {
    var g := Group(f, c, form);
    var y :| y in c.values && Normalize(f, c.name, y) == form;
    GroupHas(f, c, form, y);
    StarCovers(c, form, g, |g|);
    assert g[..|g|] == g;
    GroupCount(f, c, form, x);
  }

  /** The stars partition the category: each value is, as often as it occurs, the right-hand side
      of one relation or the canonical value of its form. So there are as many relations as
      values, less one for each normal form: connected components without a spare relation. */
  lemma StarsPartition(f: Forms, c: Category)
    ensures multiset(RelatedValues(CategoryDuplicates(f, c))) +
            multiset(Canonicals(f, c, SortedForms(f, c), |SortedForms(f, c)|)) == multiset(c.values)
    ensures |CategoryDuplicates(f, c)| == |c.values| - |SortedForms(f, c)|
  {
    var forms := SortedForms(f, c);
    forall i | 0 <= i < |forms| ensures Occurs(f, c, forms[i]) {
      FormsHave(f, c, forms[i]);
    }
    FormsDistinct(f, c);
    var related := RelatedValues(CategoryDuplicates(f, c));
    var canonicals := Canonicals(f, c, forms, |forms|);
    forall x ensures multiset(related)[x] + multiset(canonicals)[x] == multiset(c.values)[x] {
      StarsCover(f, c, forms, |forms|, x, Normalize(f, c.name, x));
      assert forms[..|forms|] == forms;
      FormsHave(f, c, Normalize(f, c.name, x));
      assert x in c.values <==> x in multiset(c.values);
    }
    assert multiset(related) + multiset(canonicals) == multiset(c.values);
    assert |multiset(related)| == |related| && |multiset(canonicals)| == |canonicals|;
    assert |multiset(c.values)| == |c.values|;
  }
}
