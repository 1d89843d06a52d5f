/** The order of the report: relations that tie on the five-part sort key are the same relation, so
    the sorted list is canonical, and the report is a function of the evidence as multisets. */
module CorrelationOrder {
  import opened Ordering
  import opened Sequences
  import opened Correlation
  import opened CorrelationLaws
  import opened CorrelationReport

  // ------------------------------------------------------------------ the sort key

  /** How one part of a key compares before the later parts are looked at. */
  lemma PartTransitive(x: string, y: string, z: string)
    requires TextLeq(x, y) && TextLeq(y, z)
    ensures TextLeq(x, z) && (x == z ==> x == y)
  {
    TextLeqTransitive(x, y, z);
    if x == z {
      TextLeqAntisymmetric(x, y);
    }
  }

  predicate KeyLeq(a: seq<string>, b: seq<string>)
    requires |a| == |b|
  {
    if a == [] then true else if a[0] != b[0] then TextLeq(a[0], b[0]) else KeyLeq(a[1..], b[1..])
  }

  function TextKey(x: Relation): seq<string>
  {
    [x.primary.name, x.primary.value, x.related.name, x.related.value]
  }

  lemma {:induction false} KeyTotal(a: seq<string>, b: seq<string>)
    requires |a| == |b|
    ensures KeyLeq(a, b) || KeyLeq(b, a)
  {
    if a != [] {
      TextLeqTotal(a[0], b[0]);
      if a[0] == b[0] {
        KeyTotal(a[1..], b[1..]);
      }
    }
  }

  lemma {:induction false} KeyTransitive(a: seq<string>, b: seq<string>, c: seq<string>)
    requires |a| == |b| == |c| && KeyLeq(a, b) && KeyLeq(b, c)
    ensures KeyLeq(a, c)
  {
    if a != [] {
      if a[0] != b[0] && b[0] != c[0] {
        PartTransitive(a[0], b[0], c[0]);
      } else if a[0] == b[0] == c[0] {
        KeyTransitive(a[1..], b[1..], c[1..]);
      }
    }
  }

  lemma {:induction false} KeyAntisymmetric(a: seq<string>, b: seq<string>)
    requires |a| == |b| && KeyLeq(a, b) && KeyLeq(b, a)
    ensures a == b
  {
    if a != [] {
      if a[0] != b[0] {
        TextLeqAntisymmetric(a[0], b[0]);
      }
      KeyAntisymmetric(a[1..], b[1..]);
      assert a == [a[0]] + a[1..] && b == [b[0]] + b[1..];
    }
  }

  lemma RelationLeqByKey(x: Relation, y: Relation)
    ensures RelationLeq(x, y) <==>
            x.kind.Priority() < y.kind.Priority() || (x.kind == y.kind && KeyLeq(TextKey(x), TextKey(y)))
  {
    var a, b := TextKey(x), TextKey(y);
    var a1, b1 := a[1..], b[1..];
    var a2, b2 := a1[1..], b1[1..];
    var a3, b3 := a2[1..], b2[1..];
    assert a1[0] == a[1] && a2[0] == a[2] && a3[0] == a[3];
    assert b1[0] == b[1] && b2[0] == b[2] && b3[0] == b[3];
    assert KeyLeq(a3, b3) <==> a3[0] == b3[0] || TextLeq(a3[0], b3[0]);
    assert KeyLeq(a2, b2) <==> if a2[0] != b2[0] then TextLeq(a2[0], b2[0]) else KeyLeq(a3, b3);
    assert KeyLeq(a1, b1) <==> if a1[0] != b1[0] then TextLeq(a1[0], b1[0]) else KeyLeq(a2, b2);
    TextLeqReflexive(x.related.value);
  }

  lemma RelationPreorder()
    ensures TotalPreorder(RelationLeq)
  {
    forall x: Relation, y: Relation ensures RelationLeq(x, y) || RelationLeq(y, x) {
      RelationLeqByKey(x, y);
      RelationLeqByKey(y, x);
      KeyTotal(TextKey(x), TextKey(y));
    }
    forall x: Relation, y: Relation, z: Relation | RelationLeq(x, y) && RelationLeq(y, z) ensures RelationLeq(x, z) {
      RelationLeqByKey(x, y);
      RelationLeqByKey(y, z);
      RelationLeqByKey(x, z);
      if x.kind == y.kind == z.kind {
        KeyTransitive(TextKey(x), TextKey(y), TextKey(z));
      }
    }
  }

  lemma TiesShareKey(x: Relation, y: Relation)
    requires RelationLeq(x, y) && RelationLeq(y, x)
    ensures x.kind == y.kind && TextKey(x) == TextKey(y)
    ensures x.primary.name == y.primary.name && x.primary.value == y.primary.value
    ensures x.related.name == y.related.name && x.related.value == y.related.value
  {
    RelationLeqByKey(x, y);
    RelationLeqByKey(y, x);
    KeyAntisymmetric(TextKey(x), TextKey(y));
    var a, b := TextKey(x), TextKey(y);
    assert a[0] == b[0] && a[1] == b[1] && a[2] == b[2] && a[3] == b[3];
  }

  // ------------------------------------------------------------------ ties are equal

  lemma DuplicateTie(f: Forms, iocs: Iocs, x: Relation, y: Relation)
    requires DistinctNames(iocs) && x in Duplicates(f, Sort(NameLeq, iocs)) && y in Duplicates(f, Sort(NameLeq, iocs))
    requires x.primary.name == y.primary.name
    requires x.primary.value == y.primary.value && x.related.value == y.related.value
    ensures x == y
  {
    var c := DuplicateSource(f, iocs, x);
    var d := DuplicateSource(f, iocs, y);
    DuplicateIsDetermined(f, c, x);
    DuplicateIsDetermined(f, c, y);
  }

  lemma HostTie(f: Forms, iocs: Iocs, x: Relation, y: Relation)
    requires x in AllHosts(f, iocs) && y in AllHosts(f, iocs)
    requires x.primary.value == y.primary.value && x.related.value == y.related.value
    ensures x == y
  {
    HostsExactly(f, iocs, x);
    HostsExactly(f, iocs, y);
  }

  lemma DuplicateIsDetermined(f: Forms, c: Category, r: Relation)
    requires r in CategoryDuplicates(f, c)
    ensures var form := Normalize(f, c.name, r.primary.value);
      r == Relation(Duplicate, Evidence(c.name, r.primary.value, form), Evidence(c.name, r.related.value, form),
                    Occurrences(c.name, |Group(f, c, form)|))
  {
    var forms := SortedForms(f, c);
    StarsHave(f, c, forms, |forms|, r);
    var i :| 0 <= i < |forms| && r in StarOf(f, c, forms[i]);
    StarHas(c, forms[i], Group(f, c, forms[i]), |Group(f, c, forms[i])|, r);
    GroupFirst(f, c, forms[i]);
  }

  lemma LinkSource(f: Forms, iocs: Iocs, ti: ThreatIntelligence, es: seq<Enrichable>, r: Relation) returns (e: Enrichable)
    requires r in AllLinks(f, iocs, ti, es)
    ensures e in es && r in LinksOf(f, iocs, ti, e) && r.kind == ThreatIntelLink && r.primary.name == e.name
  {
    AllLinksHave(f, iocs, ti, es, r);
    e :| e in es && r in LinksOf(f, iocs, ti, e);
    LinksExactly(f, iocs, ti, e, r);
  }

  predicate DistinctEnrichables(es: seq<Enrichable>)
  {
    forall d, e :: d in es && e in es && d.name == e.name ==> d == e
  }

  lemma EnrichablesDistinct()
    ensures DistinctEnrichables(ENRICHABLE)
  {
  }

  lemma LinkTie(f: Forms, iocs: Iocs, ti: ThreatIntelligence, es: seq<Enrichable>, x: Relation, y: Relation)
    requires DistinctEnrichables(es) && x in AllLinks(f, iocs, ti, es) && y in AllLinks(f, iocs, ti, es)
    requires x.primary.name == y.primary.name && x.primary.value == y.primary.value
    ensures x == y
  {
    var d := LinkSource(f, iocs, ti, es, x);
    var e := LinkSource(f, iocs, ti, es, y);
    LinksExactly(f, iocs, ti, e, x);
    LinksExactly(f, iocs, ti, e, y);
  }

  lemma FoundKind(f: Forms, iocs: Iocs, ti: ThreatIntelligence, r: Relation)
    requires DistinctNames(iocs) && r in Found(f, iocs, ti)
    ensures r.kind == Duplicate ==> r in Duplicates(f, Sort(NameLeq, iocs))
    ensures r.kind == DomainUrlHost ==> r in AllHosts(f, iocs)
    ensures r.kind == ThreatIntelLink ==> r in AllLinks(f, iocs, ti, ENRICHABLE)
  {
    if r in Duplicates(f, Sort(NameLeq, iocs)) {
      var c := DuplicateSource(f, iocs, r);
      DuplicateJoinsOneForm(f, c, r);
    } else if r in AllHosts(f, iocs) {
      HostsExactly(f, iocs, r);
    } else {
      var e := LinkSource(f, iocs, ti, ENRICHABLE, r);
    }
  }

  /** Relations that tie on the sort key are the same relation. */
  lemma TiesAreTheSame(f: Forms, iocs: Iocs, ti: ThreatIntelligence, x: Relation, y: Relation)
    requires DistinctNames(iocs) && x in Found(f, iocs, ti) && y in Found(f, iocs, ti)
    requires RelationLeq(x, y) && RelationLeq(y, x)
    ensures x == y
  {
    TiesShareKey(x, y);
    FoundKind(f, iocs, ti, x);
    FoundKind(f, iocs, ti, y);
    SameKindTie(f, iocs, ti, x, y);
  }

  lemma SameKindTie(f: Forms, iocs: Iocs, ti: ThreatIntelligence, x: Relation, y: Relation)
    requires DistinctNames(iocs) && x.kind == y.kind
    requires x.kind == Duplicate ==> x in Duplicates(f, Sort(NameLeq, iocs)) && y in Duplicates(f, Sort(NameLeq, iocs))
    requires x.kind == DomainUrlHost ==> x in AllHosts(f, iocs) && y in AllHosts(f, iocs)
    requires x.kind == ThreatIntelLink ==> x in AllLinks(f, iocs, ti, ENRICHABLE) && y in AllLinks(f, iocs, ti, ENRICHABLE)
    requires x.primary.name == y.primary.name && x.primary.value == y.primary.value && x.related.value == y.related.value
    ensures x == y
  {
    match x.kind
    case Duplicate => DuplicateTie(f, iocs, x, y);
    case DomainUrlHost => HostTie(f, iocs, x, y);
    case ThreatIntelLink =>
      EnrichablesDistinct();
      LinkTie(f, iocs, ti, ENRICHABLE, x, y);
  }

  /** However the relations are collected before sorting, the report lists them the same way. */
  lemma ResultsAreCanonical(f: Forms, iocs: Iocs, ti: ThreatIntelligence, collected: seq<Relation>)
    requires DistinctNames(iocs) && multiset(collected) == multiset(Found(f, iocs, ti))
    ensures Sort(RelationLeq, collected) == ReportOf(f, iocs, ti).results
    ensures SortedBy(RelationLeq, ReportOf(f, iocs, ti).results)
  {
    RelationPreorder();
    var found := Found(f, iocs, ti);
    forall x, y | x in found && y in found && RelationLeq(x, y) && RelationLeq(y, x) ensures x == y {
      TiesAreTheSame(f, iocs, ti, x, y);
    }
    SortCanonical(RelationLeq, found, collected);
    SortSorted(RelationLeq, found);
  }

  // ------------------------------------------------------------------ order of the evidence

  /** The same categories with the same values, each as often, in whatever order. */
  ghost predicate SameEvidence(a: Iocs, b: Iocs)
  {
    && DistinctNames(a) && DistinctNames(b)
    && multiset(Names(a)) == multiset(Names(b))
    && forall name :: multiset(Lookup(a, name)) == multiset(Lookup(b, name))
  }

  function Names(iocs: Iocs): (r: seq<string>)
    ensures |r| == |iocs|
    ensures forall i :: 0 <= i < |r| ==> r[i] == iocs[i].name
  {
    if iocs == [] then [] else [iocs[0].name] + Names(iocs[1..])
  }

  lemma {:induction false} InsertNames(c: Category, iocs: Iocs)
    ensures Names(Insert(NameLeq, c, iocs)) == Insert(TextLeq, c.name, Names(iocs))
  {
    if iocs != [] && !NameLeq(c, iocs[0]) {
      InsertNames(c, iocs[1..]);
    }
  }

  lemma {:induction false} SortNames(iocs: Iocs)
    ensures Names(Sort(NameLeq, iocs)) == Sort(TextLeq, Names(iocs))
  {
    if iocs != [] {
      SortNames(iocs[1..]);
      InsertNames(iocs[0], Sort(NameLeq, iocs[1..]));
    }
  }

  lemma SortedEntry(iocs: Iocs, i: nat)
    requires DistinctNames(iocs) && i < |iocs|
    ensures var c := Sort(NameLeq, iocs)[i]; c.values == Lookup(iocs, c.name)
  {
    var c := Sort(NameLeq, iocs)[i];
    assert c in multiset(Sort(NameLeq, iocs));
    LookupEntry(iocs, c);
  }

  lemma SameSorted(a: Iocs, b: Iocs, i: nat)
    requires SameEvidence(a, b) && |a| == |b| && i < |a|
    ensures Sort(NameLeq, a)[i].name == Sort(NameLeq, b)[i].name
    ensures multiset(Sort(NameLeq, a)[i].values) == multiset(Sort(NameLeq, b)[i].values)
  {
    SortNames(a);
    SortNames(b);
    SortTextCanonical(Names(a), Names(b));
    assert Names(Sort(NameLeq, a))[i] == Names(Sort(NameLeq, b))[i];
    SortedEntry(a, i);
    SortedEntry(b, i);
  }

  lemma SameSize(a: Iocs, b: Iocs)
    requires SameEvidence(a, b)
    ensures |a| == |b|
  {
    assert |multiset(Names(a))| == |Names(a)| && |multiset(Names(b))| == |Names(b)|;
  }

  /** Sequences of different strings with the same members are rearrangements. */
  lemma SameMembers(a: seq<string>, b: seq<string>)
    requires forall i, j :: 0 <= i < j < |a| ==> a[i] != a[j]
    requires forall i, j :: 0 <= i < j < |b| ==> b[i] != b[j]
    requires forall x :: x in a <==> x in b
    ensures multiset(a) == multiset(b)
  {
    forall x ensures multiset(a)[x] == multiset(b)[x] {
      AtMostOnce(a, x);
      AtMostOnce(b, x);
      assert x in a <==> x in multiset(a);
      assert x in b <==> x in multiset(b);
    }
  }

  lemma SameSortedSet(a: seq<string>, b: seq<string>)
    requires forall x :: x in a <==> x in b
    ensures SortedSet(a) == SortedSet(b)
  {
    DistinctHas(a, |a|);
    DistinctHas(b, |b|);
    assert a[..|a|] == a && b[..|b|] == b;
    SameMembers(Distinct(a, |a|), Distinct(b, |b|));
    SortTextCanonical(Distinct(a, |a|), Distinct(b, |b|));
  }

  lemma SameHas(a: seq<string>, b: seq<string>, x: string)
    requires multiset(a) == multiset(b)
    ensures x in a <==> x in b
  {
    assert x in a <==> x in multiset(a);
    assert x in b <==> x in multiset(b);
  }

  lemma SameForms(f: Forms, c: Category, d: Category)
    requires c.name == d.name && multiset(c.values) == multiset(d.values)
    ensures SortedForms(f, c) == SortedForms(f, d)
  {
    forall x ensures x in c.values <==> x in d.values {
      SameHas(c.values, d.values, x);
    }
    forall form ensures form in Normals(f, c) <==> form in Normals(f, d) {
      NormalsHave(f, c, form);
      NormalsHave(f, d, form);
    }
    SameSortedSet(Normals(f, c), Normals(f, d));
  }

  lemma NormalsHave(f: Forms, c: Category, form: string)
    ensures form in Normals(f, c) <==> Occurs(f, c, form)
  {
    FormsHave(f, c, form);
    SortedSetHas(Normals(f, c), form);
  }

  lemma SameGroup(f: Forms, c: Category, d: Category, form: string)
    requires c.name == d.name && multiset(c.values) == multiset(d.values)
    ensures Group(f, c, form) == Group(f, d, form)
  {
    var a, b := Having(f, c, form, |c.values|), Having(f, d, form, |d.values|);
    assert c.values[..|c.values|] == c.values && d.values[..|d.values|] == d.values;
    forall x ensures multiset(a)[x] == multiset(b)[x] {
      HavingCount(f, c, form, |c.values|, x);
      HavingCount(f, d, form, |d.values|, x);
    }
    assert multiset(a) == multiset(b);
    SortTextCanonical(a, b);
  }

  lemma {:induction false} SameStar(c: Category, d: Category, form: string, group: seq<string>, n: nat)
    requires c.name == d.name && n <= |group|
    ensures Star(c, form, group, n) == Star(d, form, group, n)
  {
    if n > 1 {
      SameStar(c, d, form, group, n - 1);
    }
  }

  lemma SameStarOf(f: Forms, c: Category, d: Category, form: string)
    requires c.name == d.name && multiset(c.values) == multiset(d.values)
    ensures StarOf(f, c, form) == StarOf(f, d, form)
  {
    SameGroup(f, c, d, form);
    SameStar(c, d, form, Group(f, c, form), |Group(f, c, form)|);
  }

  lemma SameCategoryDuplicates(f: Forms, c: Category, d: Category)
    requires c.name == d.name && multiset(c.values) == multiset(d.values)
    ensures CategoryDuplicates(f, c) == CategoryDuplicates(f, d)
  {
    SameForms(f, c, d);
    var forms := SortedForms(f, c);
    forall form ensures StarOf(f, c, form) == StarOf(f, d, form) {
      SameStarOf(f, c, d, form);
    }
    FlatMapSame((form: string) => StarOf(f, c, form), forms, (form: string) => StarOf(f, d, form), forms, |forms|);
  }

  lemma SameDuplicates(f: Forms, a: Iocs, b: Iocs)
    requires SameEvidence(a, b)
    ensures Duplicates(f, Sort(NameLeq, a)) == Duplicates(f, Sort(NameLeq, b))
  {
    SameSize(a, b);
    var sa, sb := Sort(NameLeq, a), Sort(NameLeq, b);
    forall i | 0 <= i < |sa| ensures CategoryDuplicates(f, sa[i]) == CategoryDuplicates(f, sb[i]) {
      SameSorted(a, b, i);
      SameCategoryDuplicates(f, sa[i], sb[i]);
    }
    var g := (c: Category) => CategoryDuplicates(f, c);
    FlatMapSame(g, sa, g, sb, |sa|);
  }

  lemma SameLookupSet(a: Iocs, b: Iocs, name: string)
    requires SameEvidence(a, b)
    ensures SortedSet(Lookup(a, name)) == SortedSet(Lookup(b, name))
  {
    forall x ensures x in Lookup(a, name) <==> x in Lookup(b, name) {
      SameHas(Lookup(a, name), Lookup(b, name), x);
    }
    SameSortedSet(Lookup(a, name), Lookup(b, name));
  }

  lemma SameLinks(f: Forms, a: Iocs, b: Iocs, ti: ThreatIntelligence, es: seq<Enrichable>)
    requires SameEvidence(a, b)
    ensures AllLinks(f, a, ti, es) == AllLinks(f, b, ti, es)
  {
    forall e: Enrichable ensures LinksOf(f, a, ti, e) == LinksOf(f, b, ti, e) {
      SameLookupSet(a, b, e.name);
    }
    FlatMapSame((e: Enrichable) => LinksOf(f, a, ti, e), es, (e: Enrichable) => LinksOf(f, b, ti, e), es, |es|);
  }

  lemma {:induction false} TotalInsert(c: Category, iocs: Iocs)
    ensures Total(Insert(NameLeq, c, iocs)) == |c.values| + Total(iocs)
  {
    if iocs != [] && !NameLeq(c, iocs[0]) {
      TotalInsert(c, iocs[1..]);
    }
  }

  lemma {:induction false} TotalSort(iocs: Iocs)
    ensures Total(Sort(NameLeq, iocs)) == Total(iocs)
  {
    if iocs != [] {
      TotalSort(iocs[1..]);
      TotalInsert(iocs[0], Sort(NameLeq, iocs[1..]));
    }
  }

  lemma {:induction false} TotalSame(a: Iocs, b: Iocs)
    requires |a| == |b| && forall i :: 0 <= i < |a| ==> |a[i].values| == |b[i].values|
    ensures Total(a) == Total(b)
  {
    if a != [] {
      TotalSame(a[1..], b[1..]);
    }
  }

  lemma SameTotal(a: Iocs, b: Iocs)
    requires SameEvidence(a, b)
    ensures Total(a) == Total(b)
  {
    SameSize(a, b);
    var sa, sb := Sort(NameLeq, a), Sort(NameLeq, b);
    forall i | 0 <= i < |sa| ensures |sa[i].values| == |sb[i].values| {
      SameSorted(a, b, i);
      assert |multiset(sa[i].values)| == |sa[i].values| && |multiset(sb[i].values)| == |sb[i].values|;
    }
    TotalSame(sa, sb);
    TotalSort(a);
    TotalSort(b);
  }

  lemma SameMentioned(results: seq<Relation>, a: Iocs, b: Iocs)
    requires SameEvidence(a, b)
    ensures Mentioned(results, a) == Mentioned(results, b)
  {
    forall name, x ensures x in Lookup(a, name) <==> x in Lookup(b, name) {
      SameHas(Lookup(a, name), Lookup(b, name), x);
    }
    var p := set r | r in results && r.primary.value in Lookup(a, r.primary.name) :: (r.primary.name, r.primary.value);
    var q := set r | r in results && r.related.value in Lookup(a, r.related.name) :: (r.related.name, r.related.value);
    assert p == set r | r in results && r.primary.value in Lookup(b, r.primary.name) :: (r.primary.name, r.primary.value);
    assert q == set r | r in results && r.related.value in Lookup(b, r.related.name) :: (r.related.name, r.related.value);
  }

  /** Neither the order of the categories nor the order of the values in them shows in the report. */
  lemma ReportIgnoresOrder(f: Forms, a: Iocs, b: Iocs, ti: ThreatIntelligence)
    requires SameEvidence(a, b)
    ensures ReportOf(f, a, ti) == ReportOf(f, b, ti)
  {
    SameDuplicates(f, a, b);
    SameHosts(f, a, b);
    SameLinks(f, a, b, ti, ENRICHABLE);
    SameTotal(a, b);
    SameMentioned(Sort(RelationLeq, Found(f, a, ti)), a, b);
  }

  lemma SameHosts(f: Forms, a: Iocs, b: Iocs)
    requires SameEvidence(a, b)
    ensures AllHosts(f, a) == AllHosts(f, b)
  {
    SameLookupSet(a, b, "domains");
    SameLookupSet(a, b, "urls");
  }
}
