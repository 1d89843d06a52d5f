/** Which relations the correlation report holds: host relations and links are exactly the ones the
    data supports, and the correlated evidence is bounded by the evidence there is. */
module CorrelationReport {
  import opened Ordering
  import opened Sequences
  import opened Correlation
  import opened CorrelationLaws

  // ------------------------------------------------------------------ which relations are found

  lemma {:induction false} LookupEntry(iocs: Iocs, c: Category)
    requires DistinctNames(iocs) && c in iocs
    ensures Lookup(iocs, c.name) == c.values
  {
    if iocs[0] != c {
      var i :| 0 <= i < |iocs| && iocs[i] == c;
      assert iocs[0].name != iocs[i].name;
      assert c in iocs[1..];
      LookupEntry(iocs[1..], c);
    }
  }

  /** A duplicate relation comes from the category it names. */
  lemma DuplicateSource(f: Forms, iocs: Iocs, r: Relation) returns (c: Category)
    requires DistinctNames(iocs) && r in Duplicates(f, Sort(NameLeq, iocs))
    ensures c.name == r.primary.name && c.values == Lookup(iocs, c.name) && r in CategoryDuplicates(f, c)
  {
    var cs := Sort(NameLeq, iocs);
    FlatMapHas((c: Category) => CategoryDuplicates(f, c), cs, |cs|, r);
    var i :| 0 <= i < |cs| && r in CategoryDuplicates(f, cs[i]);
    c := cs[i];
    assert c in multiset(cs);
    LookupEntry(iocs, c);
    DuplicateJoinsOneForm(f, c, r);
  }

  lemma {:induction false} HostsOfHave(f: Forms, domain: string, urls: seq<string>, n: nat, r: Relation)
    requires n <= |urls|
    ensures r in HostsOf(f, domain, urls, n) <==>
            exists i :: 0 <= i < n && HostMatches(f, domain, urls[i]) && r == HostRelation(f, domain, urls[i])
  {
    if n > 0 {
      HostsOfHave(f, domain, urls, n - 1, r);
    }
  }

  lemma HostsHave(f: Forms, domains: seq<string>, urls: seq<string>, r: Relation)
    ensures r in Hosts(f, domains, urls) <==> exists i :: 0 <= i < |domains| && r in HostsOf(f, domains[i], urls, |urls|)
  {
    FlatMapHas((domain: string) => HostsOf(f, domain, urls, |urls|), domains, |domains|, r);
  }

  lemma SortedSetHas(values: seq<string>, x: string)
    ensures x in SortedSet(values) <==> x in values
  {
    DistinctHas(values, |values|);
    SortHas(Distinct(values, |values|), x);
    assert values[..|values|] == values;
  }

  /** Host relations are exactly the pairs of an extracted domain and an extracted URL whose host
      is that domain or below it. */
  lemma HostsExactly(f: Forms, iocs: Iocs, r: Relation)
    ensures r in AllHosts(f, iocs) <==>
            && r.primary.value in Lookup(iocs, "domains") && r.related.value in Lookup(iocs, "urls")
            && HostMatches(f, r.primary.value, r.related.value)
            && r == HostRelation(f, r.primary.value, r.related.value)
  {
    var domains, urls := SortedSet(Lookup(iocs, "domains")), SortedSet(Lookup(iocs, "urls"));
    var d, u := r.primary.value, r.related.value;
    HostsHave(f, domains, urls, r);
    SortedSetHas(Lookup(iocs, "domains"), d);
    SortedSetHas(Lookup(iocs, "urls"), u);
    HostsOfHave(f, d, urls, |urls|, r);
    if r in AllHosts(f, iocs) {
      var i :| 0 <= i < |domains| && r in HostsOf(f, domains[i], urls, |urls|);
      HostsOfHave(f, domains[i], urls, |urls|, r);
    }
  }

  /** The record a value is linked to is the last one about it. */
  lemma {:induction false} RecordIsLast(records: seq<TiRecord>, field: string, value: string, n: nat)
    requires n <= |records| && value != ""
    ensures match RecordOf(records, field, value, n)
      case None => forall i :: 0 <= i < n ==> Get(records[i], field, "") != value
      case Some(r) => exists i :: 0 <= i < n && records[i] == r && Get(r, field, "") == value
                                  && forall j :: i < j < n ==> Get(records[j], field, "") != value
  {
    if n > 0 && Get(records[n - 1], field, "") != value {
      RecordIsLast(records, field, value, n - 1);
    }
  }

  lemma {:induction false} LinksHave(f: Forms, name: string, values: seq<string>, records: seq<TiRecord>,
                                     field: string, n: nat, r: Relation)
    requires n <= |values|
    ensures r in Links(f, name, values, records, field, n) <==>
            exists i :: 0 <= i < n && RecordOf(records, field, values[i], |records|).Some?
                        && r == LinkRelation(f, name, values[i], RecordOf(records, field, values[i], |records|).value)
  {
    if n > 0 {
      LinksHave(f, name, values, records, field, n - 1, r);
    }
  }

  /** Links of a category are exactly its extracted values that have a record. */
  lemma LinksExactly(f: Forms, iocs: Iocs, ti: ThreatIntelligence, e: Enrichable, r: Relation)
    ensures r in LinksOf(f, iocs, ti, e) <==>
            var records := RecordsUnder(ti, e.key);
            var record := RecordOf(records, e.field, r.primary.value, |records|);
            && r.primary.value in Lookup(iocs, e.name) && record.Some?
            && r == LinkRelation(f, e.name, r.primary.value, record.value)
  {
    var values := SortedSet(Lookup(iocs, e.name));
    LinksHave(f, e.name, values, RecordsUnder(ti, e.key), e.field, |values|, r);
    SortedSetHas(Lookup(iocs, e.name), r.primary.value);
  }

  lemma AllLinksHave(f: Forms, iocs: Iocs, ti: ThreatIntelligence, es: seq<Enrichable>, r: Relation)
    ensures r in AllLinks(f, iocs, ti, es) <==> exists e :: e in es && r in LinksOf(f, iocs, ti, e)
  {
    FlatMapHas((e: Enrichable) => LinksOf(f, iocs, ti, e), es, |es|, r);
  }

  // ------------------------------------------------------------------ counts

  function Extracted(iocs: Iocs): set<(string, string)>
  {
    if iocs == [] then {} else (set v | v in iocs[0].values :: (iocs[0].name, v)) + Extracted(iocs[1..])
  }

  lemma {:induction false} ExtractedHas(iocs: Iocs, name: string, value: string)
    requires value in Lookup(iocs, name)
    ensures (name, value) in Extracted(iocs)
  {
    if iocs[0].name != name {
      ExtractedHas(iocs[1..], name, value);
    }
  }

  lemma {:induction false} PairsBound(name: string, values: seq<string>)
    ensures |set v | v in values :: (name, v)| <= |values|
  {
    if values != [] {
      PairsBound(name, values[1..]);
      var pairs, rest := set v | v in values :: (name, v), set v | v in values[1..] :: (name, v);
      assert values == [values[0]] + values[1..];
      assert pairs == {(name, values[0])} + rest;
    }
  }

  lemma {:induction false} ExtractedBound(iocs: Iocs)
    ensures |Extracted(iocs)| <= Total(iocs)
  {
    if iocs != [] {
      ExtractedBound(iocs[1..]);
      PairsBound(iocs[0].name, iocs[0].values);
    }
  }

  /** The correlated evidence is never more than the evidence there is. */
  lemma CorrelatedAtMostTotal(f: Forms, iocs: Iocs, ti: ThreatIntelligence)
    ensures ReportOf(f, iocs, ti).correlated <= ReportOf(f, iocs, ti).total
  {
    var results := Sort(RelationLeq, Found(f, iocs, ti));
    var mentioned := Mentioned(results, iocs);
    forall e | e in mentioned ensures e in Extracted(iocs) {
      ExtractedHas(iocs, e.0, e.1);
    }
    ExtractedBound(iocs);
    assert Extracted(iocs) == mentioned + (Extracted(iocs) - mentioned);
  }
}
