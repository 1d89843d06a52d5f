/** The breakdown of the IOC score (app/services/risk_explanation_service.py): filtered, weighted and
    sorted again, it has to add up to the score that was stored. */
module RiskExplanation {
  import opened Ordering
  import opened Sequences
  import opened Correlation
  import opened CorrelationReport
  import opened CorrelationOrder
  import opened Scoring

  datatype Significance = HighSignificance | MediumSignificance | LowSignificance | Informational

  function SignificanceOf(weight: nat): Significance
  {
    if weight >= 6 then HighSignificance else if weight >= 3 then MediumSignificance
    else if weight >= 1 then LowSignificance else Informational
  }

  datatype Contribution = Contribution(name: string, count: nat, weight: nat, significance: Significance, points: int)

  function ContributionOf(iocs: Iocs, name: string): Contribution
  {
    var count, weight := |Lookup(iocs, name)|, Weight(name);
    Contribution(name, count, weight, SignificanceOf(weight), count * weight)
  }

  /** Most points first, then by name. */
  predicate ContributionLeq(a: Contribution, b: Contribution)
  {
    a.points > b.points || (a.points == b.points && TextLeq(a.name, b.name))
  }

  function Points(c: Contribution): int { c.points }

  predicate Present(iocs: Iocs, name: string) { Lookup(iocs, name) != [] }

  /** The breakdown: the categories that hold values, each with its points. */
  function Breakdown(iocs: Iocs): seq<Contribution>
  {
    Sort(ContributionLeq, Map((name: string) => ContributionOf(iocs, name),
                              Filter((name: string) => Present(iocs, name), Sort(TextLeq, Names(iocs)))))
  }

  /** The flag is true exactly if the stored score is the one the engine computes from these IOCs. */
  method BuildIocCategories(iocs: Iocs, stored: int) returns (categories: seq<Contribution>, verified: bool)
    requires DistinctNames(iocs)
    ensures categories == Breakdown(iocs)
    ensures verified <==> stored == IocScore(iocs)
  {
    var names := Sort(TextLeq, Names(iocs));
    ghost var g, p := (name: string) => ContributionOf(iocs, name), (name: string) => Present(iocs, name);
    categories := [];
    for i := 0 to |names|
      invariant categories == Map(g, Filter(p, names[..i]))
    {
      FilterMapAppend(g, p, names, i);
      var values := Lookup(iocs, names[i]);
      var count := |values|;
      if count == 0 {
        continue;
      }
      var weight := Weight(names[i]);
      categories := categories + [Contribution(names[i], count, weight, SignificanceOf(weight), count * weight)];
    }
    assert names[..|names|] == names;
    BreakdownAddsUp(iocs);
    categories := Sort(ContributionLeq, categories);
    var total := AddPoints(categories);
    verified := total == stored;
  }

  method AddPoints(categories: seq<Contribution>) returns (total: int)
    ensures total == Sum(Points, categories)
  {
    total := 0;
    for i := 0 to |categories|
      invariant total == Sum(Points, categories[..i])
    {
      SumAppend(Points, categories, i);
      total := total + categories[i].points;
    }
    assert categories[..|categories|] == categories;
  }

  lemma FilterMapAppend(g: string -> Contribution, p: string -> bool, names: seq<string>, i: nat)
    requires i < |names|
    ensures Map(g, Filter(p, names[..i + 1])) ==
            Map(g, Filter(p, names[..i])) + (if p(names[i]) then [g(names[i])] else [])
  {
    assert names[..i + 1] == names[..i] + [names[i]];
    FilterAppend(p, names[..i], names[i]);
    if p(names[i]) {
      MapAppend(g, Filter(p, names[..i]), names[i]);
    } else {
      assert Filter(p, names[..i]) + [] == Filter(p, names[..i]);
    }
  }

  lemma {:induction false} FilterAppend(p: string -> bool, s: seq<string>, x: string)
    ensures Filter(p, s + [x]) == Filter(p, s) + (if p(x) then [x] else [])
  {
    if s == [] {
      assert s + [x] == [x];
    } else {
      assert (s + [x])[1..] == s[1..] + [x];
      FilterAppend(p, s[1..], x);
    }
  }

  /** However it is filtered and sorted, the breakdown adds up to the engine's IOC score. */
  lemma BreakdownAddsUp(iocs: Iocs)
    requires DistinctNames(iocs)
    ensures Sum(Points, Breakdown(iocs)) == IocScore(iocs)
  {
    var names := Sort(TextLeq, Names(iocs));
    var g, p := (name: string) => ContributionOf(iocs, name), (name: string) => Present(iocs, name);
    var h := (name: string) => |Lookup(iocs, name)| * Weight(name);
    var kept := Filter(p, names);
    SumRearranged(Points, Breakdown(iocs), Map(g, kept));
    SumMap(Points, g, h, kept);
    SumFilter(h, p, names);
    SumRearranged(h, names, Names(iocs));
    NamesAreMapped(iocs);
    forall c | c in iocs ensures CategoryScore(c) == h(c.name) {
      LookupEntry(iocs, c);
    }
    SumMap(h, NameOf, CategoryScore, iocs);
    assert Sum(h, Names(iocs)) == IocScore(iocs);
    assert Sum(Points, Map(g, kept)) == Sum(h, names);
  }

  function NameOf(c: Category): string { c.name }

  lemma {:induction false} NamesAreMapped(iocs: Iocs)
    ensures Names(iocs) == Map(NameOf, iocs)
  {
    if iocs != [] {
      NamesAreMapped(iocs[1..]);
    }
  }

  /** The breakdown lists exactly the categories that hold values, most points first. */
  lemma BreakdownLists(iocs: Iocs, name: string)
    ensures ContributionOf(iocs, name) in Breakdown(iocs) <==> Present(iocs, name)
    ensures SortedBy(ContributionLeq, Breakdown(iocs))
  {
    var p := (n: string) => Present(iocs, n);
    var names := Filter(p, Sort(TextLeq, Names(iocs)));
    if Present(iocs, name) {
      ListedName(iocs, name);
    }
    SortHas(Names(iocs), name);
    FilterHas(p, Sort(TextLeq, Names(iocs)), name);
    MapHas(iocs, names, name);
    SortedContributions(Map((n: string) => ContributionOf(iocs, n), names), ContributionOf(iocs, name));
  }

  /** Of two entries of the breakdown the earlier has more points, or as many and the smaller name. */
  lemma BreakdownOrder(iocs: Iocs, i: nat, j: nat)
    requires i < j < |Breakdown(iocs)|
    ensures var a := Breakdown(iocs)[i]; var b := Breakdown(iocs)[j];
      a.points >= b.points && (a.points == b.points ==> TextLeq(a.name, b.name))
  {
    BreakdownLists(iocs, "");
    assert ContributionLeq(Breakdown(iocs)[i], Breakdown(iocs)[j]);
  }

  /** What an entry says: the number of values, and the points that many values of the category are worth. */
  lemma EntrySpelledOut(iocs: Iocs, name: string)
    ensures var e := ContributionOf(iocs, name);
      && e.name == name && e.count == |Lookup(iocs, name)| && e.points == |Lookup(iocs, name)| * Weight(name)
      && (e.significance.HighSignificance? <==> name in {"sha256", "cves"})
      && (e.significance.MediumSignificance? <==> name in {"urls", "md5", "sha1", "windows_registry_keys"})
      && (e.significance.LowSignificance? <==> name in {"ipv4", "domains", "emails", "windows_file_paths"})
  {
    KnownWeights(name);
  }

  lemma SortedContributions(s: seq<Contribution>, c: Contribution)
    ensures SortedBy(ContributionLeq, Sort(ContributionLeq, s))
    ensures c in Sort(ContributionLeq, s) <==> c in s
  {
    ContributionPreorder();
    SortSorted(ContributionLeq, s);
    assert c in Sort(ContributionLeq, s) <==> c in multiset(Sort(ContributionLeq, s));
    assert c in s <==> c in multiset(s);
  }

  lemma {:induction false} MapHas(iocs: Iocs, names: seq<string>, name: string)
    ensures ContributionOf(iocs, name) in Map((n: string) => ContributionOf(iocs, n), names) <==> name in names
  {
    if names != [] {
      MapHas(iocs, names[1..], name);
    }
  }

  lemma {:induction false} ListedName(iocs: Iocs, name: string)
    requires Present(iocs, name)
    ensures name in Names(iocs)
  {
    if iocs[0].name != name {
      ListedName(iocs[1..], name);
    }
  }

  lemma ContributionPreorder()
    ensures TotalPreorder(ContributionLeq)
  {
    forall x: Contribution, y: Contribution ensures ContributionLeq(x, y) || ContributionLeq(y, x) {
      TextLeqTotal(x.name, y.name);
    }
    forall x: Contribution, y: Contribution, z: Contribution | ContributionLeq(x, y) && ContributionLeq(y, z)
      ensures ContributionLeq(x, z)
    {
      if x.points == y.points == z.points {
        TextLeqTransitive(x.name, y.name, z.name);
      }
    }
  }
}
