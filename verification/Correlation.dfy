/** Evidence correlation (app/services/correlation_service.py, app/services/correlation_models.py):
    the loops that group, pair, link, sort and count, each with the function it computes. */
module Correlation {
  import opened Basics
  import opened Ordering
  import opened Sequences

  /** One entry of an investigation's `iocs` dictionary, whose keys are distinct. */
  datatype Category = Category(name: string, values: seq<string>)

  type Iocs = seq<Category>

  predicate DistinctNames(iocs: Iocs)
  {
    forall i, j :: 0 <= i < j < |iocs| ==> iocs[i].name != iocs[j].name
  }

  /** `iocs.get(name, [])` */
  function Lookup(iocs: Iocs, name: string): seq<string>
  {
    if iocs == [] then [] else if iocs[0].name == name then iocs[0].values else Lookup(iocs[1..], name)
  }

  /** Text processing that is not modelled: trimming with lower-casing, the comparison form of a
      URL, and the host of a URL if it has one. */
  datatype Forms = Forms(clean: string -> string, url: string -> string, host: string -> Option<string>)

  function NormalizeDomain(f: Forms, value: string): string
  {
    var n := f.clean(value);
    if n != [] && n[|n| - 1] == '.' then n[..|n| - 1] else n
  }

  function Normalize(f: Forms, name: string, value: string): string
  {
    if name == "domains" then NormalizeDomain(f, value)
    else if name == "urls" then f.url(value)
    else f.clean(value)
  }

  // ------------------------------------------------------------------ results

  datatype Relationship = Duplicate | DomainUrlHost | ThreatIntelLink
  {
    function Priority(): nat { match this case Duplicate => 1 case DomainUrlHost => 2 case ThreatIntelLink => 4 }
  }

  datatype Evidence = Evidence(name: string, value: string, normalized: string)

  /** What the reason sentence is built from. */
  datatype Reason = Occurrences(name: string, count: nat) | ExactHost(domain: string) | Subdomain(domain: string)
                  | Verdict(verdict: string, ratio: string)

  datatype Relation = Relation(kind: Relationship, primary: Evidence, related: Evidence, reason: Reason)

  /** The five-part sort key. */
  predicate RelationLeq(x: Relation, y: Relation)
  {
    if x.kind.Priority() != y.kind.Priority() then x.kind.Priority() < y.kind.Priority()
    else if x.primary.name != y.primary.name then TextLeq(x.primary.name, y.primary.name)
    else if x.primary.value != y.primary.value then TextLeq(x.primary.value, y.primary.value)
    else if x.related.name != y.related.name then TextLeq(x.related.name, y.related.name)
    else TextLeq(x.related.value, y.related.value)
  }

  // ------------------------------------------------------------------ duplicates

  function Normals(f: Forms, c: Category): (r: seq<string>)
    ensures |r| == |c.values|
  {
    seq(|c.values|, i requires 0 <= i < |c.values| => Normalize(f, c.name, c.values[i]))
  }

  /** The different strings among the first `n`, in order of first appearance. */
  function Distinct(s: seq<string>, n: nat): seq<string>
    requires n <= |s|
  {
    if n == 0 then []
    else if s[n - 1] in Distinct(s, n - 1) then Distinct(s, n - 1)
    else Distinct(s, n - 1) + [s[n - 1]]
  }

  /** Those of the first `n` values whose normal form is `form`, in order. */
  function Having(f: Forms, c: Category, form: string, n: nat): seq<string>
    requires n <= |c.values|
  {
    if n == 0 then []
    else Having(f, c, form, n - 1) + (if Normalize(f, c.name, c.values[n - 1]) == form then [c.values[n - 1]] else [])
  }

  /** The values of one normal form, sorted; the first is the canonical one. */
  function Group(f: Forms, c: Category, form: string): seq<string>
  {
    Sort(TextLeq, Having(f, c, form, |c.values|))
  }

  function DuplicateOf(c: Category, form: string, group: seq<string>, k: nat): Relation
    requires k < |group|
  {
    Relation(Duplicate, Evidence(c.name, group[0], form), Evidence(c.name, group[k], form), Occurrences(c.name, |group|))
  }

  /** Every later value of the group paired with the first. */
  function Star(c: Category, form: string, group: seq<string>, n: nat): (r: seq<Relation>)
    requires n <= |group|
  {
    if n <= 1 then [] else Star(c, form, group, n - 1) + [DuplicateOf(c, form, group, n - 1)]
  }

  function StarOf(f: Forms, c: Category, form: string): seq<Relation>
  {
    Star(c, form, Group(f, c, form), |Group(f, c, form)|)
  }

  function SortedForms(f: Forms, c: Category): seq<string>
  {
    Sort(TextLeq, Distinct(Normals(f, c), |c.values|))
  }

  /** The stars of the first `n` normal forms. */
  function Stars(f: Forms, c: Category, forms: seq<string>, n: nat): seq<Relation>
    requires n <= |forms|
  {
    FlatMap((form: string) => StarOf(f, c, form), forms, n)
  }

  function CategoryDuplicates(f: Forms, c: Category): seq<Relation>
  {
    var forms := SortedForms(f, c);
    Stars(f, c, forms, |forms|)
  }

  predicate NameLeq(a: Category, b: Category) { TextLeq(a.name, b.name) }

  function Duplicates(f: Forms, cs: seq<Category>): seq<Relation>
  {
    FlatMap((c: Category) => CategoryDuplicates(f, c), cs, |cs|)
  }

  /** `groups.get(form, [])` */
  function GroupAt(groups: map<string, seq<string>>, form: string): seq<string>
  {
    if form in groups then groups[form] else []
  }

  /** The groups of the first `n` values. */
  ghost predicate Grouped(f: Forms, c: Category, groups: map<string, seq<string>>, n: nat)
    requires n <= |c.values|
  {
    forall k {:trigger Having(f, c, k, n)} :: GroupAt(groups, k) == Having(f, c, k, n)
  }

  /** The dictionary of the first `n` values: its groups, and its keys in order. */
  ghost predicate Collected(f: Forms, c: Category, keys: seq<string>, groups: map<string, seq<string>>, n: nat)
    requires n <= |c.values|
  {
    keys == Distinct(Normals(f, c), n) && Grouped(f, c, groups, n) && forall k :: k in groups <==> k in keys
  }

  lemma GroupedMore(f: Forms, c: Category, groups: map<string, seq<string>>, n: nat)
    requires n < |c.values| && Grouped(f, c, groups, n)
    ensures var k := Normalize(f, c.name, c.values[n]);
      Grouped(f, c, groups[k := GroupAt(groups, k) + [c.values[n]]], n + 1)
  {
    var k := Normalize(f, c.name, c.values[n]);
    var more := groups[k := GroupAt(groups, k) + [c.values[n]]];
    forall form ensures GroupAt(more, form) == Having(f, c, form, n + 1) {
      assert GroupAt(groups, form) == Having(f, c, form, n);
    }
  }

  lemma DistinctMore(f: Forms, c: Category, n: nat)
    requires n < |c.values|
    ensures Distinct(Normals(f, c), n + 1) == var k := Normalize(f, c.name, c.values[n]);
      if k in Distinct(Normals(f, c), n) then Distinct(Normals(f, c), n) else Distinct(Normals(f, c), n) + [k]
  {
  }

  /** The dictionary of groups, with its keys in the order they were first set. */
  method GroupValues(f: Forms, c: Category) returns (keys: seq<string>, groups: map<string, seq<string>>)
    ensures Collected(f, c, keys, groups, |c.values|)
  {
    keys, groups := [], map[];
    for i := 0 to |c.values|
      invariant Collected(f, c, keys, groups, i)
    {
      // groups.setdefault(normalized, []).append(raw_value)
      var normalized := Normalize(f, c.name, c.values[i]);
      GroupedMore(f, c, groups, i);
      DistinctMore(f, c, i);
      keys := if normalized in groups then keys else keys + [normalized];
      groups := groups[normalized := GroupAt(groups, normalized) + [c.values[i]]];
    }
  }

  method CorrelateCategory(f: Forms, c: Category) returns (results: seq<Relation>)
    ensures results == CategoryDuplicates(f, c)
  {
    var keys, groups := GroupValues(f, c);
    forall form | form in Sort(TextLeq, keys) ensures form in keys {
      SortHas(keys, form);
    }
    results := PairGroups(f, c, Sort(TextLeq, keys), groups);
  }

  method PairGroups(f: Forms, c: Category, forms: seq<string>, groups: map<string, seq<string>>)
    returns (results: seq<Relation>)
    requires Grouped(f, c, groups, |c.values|) && forall form :: form in forms ==> form in groups
    ensures results == Stars(f, c, forms, |forms|)
  {
    results := [];
    ghost var g := (form: string) => StarOf(f, c, form);
    assert Stars(f, c, forms, |forms|) == FlatMap(g, forms, |forms|);
    for i := 0 to |forms|
      invariant results == FlatMap(g, forms, i)
    {
      var more := PairWithFirst(f, c, forms[i], groups);
      assert more == g(forms[i]);
      results := results + more;
    }
  }

  method PairWithFirst(f: Forms, c: Category, form: string, groups: map<string, seq<string>>)
    returns (results: seq<Relation>)
    requires form in groups && Grouped(f, c, groups, |c.values|)
    ensures results == StarOf(f, c, form)
  {
    assert GroupAt(groups, form) == Having(f, c, form, |c.values|);
    var group := Sort(TextLeq, groups[form]);
    results := [];
    if |group| < 2 {
      return;
    }
    for k := 1 to |group|
      invariant results == Star(c, form, group, k)
    {
      results := results + [DuplicateOf(c, form, group, k)];
    }
  }

  lemma {:induction false} DistinctHas(s: seq<string>, n: nat)
    requires n <= |s|
    ensures forall x :: x in Distinct(s, n) <==> x in s[..n]
    ensures forall i, j :: 0 <= i < j < |Distinct(s, n)| ==> Distinct(s, n)[i] != Distinct(s, n)[j]
  {
    if n > 0 {
      DistinctHas(s, n - 1);
      assert s[..n] == s[..n - 1] + [s[n - 1]];
    }
  }

  lemma SortHas(s: seq<string>, x: string)
    ensures x in Sort(TextLeq, s) <==> x in s
  {
    assert x in multiset(Sort(TextLeq, s)) <==> x in multiset(s);
  }

  method CorrelateDuplicates(f: Forms, iocs: Iocs) returns (results: seq<Relation>)
    ensures results == Duplicates(f, Sort(NameLeq, iocs))
  {
    results := [];
    var sorted := Sort(NameLeq, iocs);
    ghost var g := (c: Category) => CategoryDuplicates(f, c);
    assert Duplicates(f, sorted) == FlatMap(g, sorted, |sorted|);
    for i := 0 to |sorted|
      invariant results == FlatMap(g, sorted, i)
    {
      var more := CorrelateCategory(f, sorted[i]);
      assert more == g(sorted[i]);
      results := results + more;
    }
  }

  // ------------------------------------------------------------------ domains and URL hosts

  /** `sorted(set(values))` */
  function SortedSet(values: seq<string>): seq<string>
  {
    Sort(TextLeq, Distinct(values, |values|))
  }

  predicate EndsWith(s: string, suffix: string)
  {
    |suffix| <= |s| && s[|s| - |suffix|..] == suffix
  }

  /** The URL has a host, which is the domain or one of its subdomains. */
  predicate HostMatches(f: Forms, domain: string, url: string)
  {
    match f.host(url)
    case None => false
    case Some(host) => host == NormalizeDomain(f, domain) || EndsWith(host, "." + NormalizeDomain(f, domain))
  }

  function HostRelation(f: Forms, domain: string, url: string): Relation
  {
    Relation(DomainUrlHost, Evidence("domains", domain, NormalizeDomain(f, domain)), Evidence("urls", url, f.url(url)),
             if f.host(url) == Some(NormalizeDomain(f, domain)) then ExactHost(domain) else Subdomain(domain))
  }

  function HostsOf(f: Forms, domain: string, urls: seq<string>, n: nat): seq<Relation>
    requires n <= |urls|
  {
    if n == 0 then []
    else HostsOf(f, domain, urls, n - 1) +
         (if HostMatches(f, domain, urls[n - 1]) then [HostRelation(f, domain, urls[n - 1])] else [])
  }

  function Hosts(f: Forms, domains: seq<string>, urls: seq<string>): seq<Relation>
  {
    FlatMap((domain: string) => HostsOf(f, domain, urls, |urls|), domains, |domains|)
  }

  function AllHosts(f: Forms, iocs: Iocs): seq<Relation>
  {
    Hosts(f, SortedSet(Lookup(iocs, "domains")), SortedSet(Lookup(iocs, "urls")))
  }

  method CorrelateDomainUrlHosts(f: Forms, iocs: Iocs) returns (results: seq<Relation>)
    ensures results == AllHosts(f, iocs)
  {
    var domains, urls := SortedSet(Lookup(iocs, "domains")), SortedSet(Lookup(iocs, "urls"));
    if domains == [] || urls == [] {
      FlatMapNothing((domain: string) => HostsOf(f, domain, urls, |urls|), domains, |domains|);
      return [];
    }
    results := CorrelateDomains(f, domains, urls);
  }

  method CorrelateDomains(f: Forms, domains: seq<string>, urls: seq<string>) returns (results: seq<Relation>)
    ensures results == Hosts(f, domains, urls)
  {
    results := [];
    ghost var g := (domain: string) => HostsOf(f, domain, urls, |urls|);
    assert Hosts(f, domains, urls) == FlatMap(g, domains, |domains|);
    for d := 0 to |domains|
      invariant results == FlatMap(g, domains, d)
    {
      var more := CorrelateDomain(f, domains[d], urls);
      results := results + more;
    }
  }

  method CorrelateDomain(f: Forms, domain: string, urls: seq<string>) returns (results: seq<Relation>)
    ensures results == HostsOf(f, domain, urls, |urls|)
  {
    results := [];
    var normalized := NormalizeDomain(f, domain);
    for u := 0 to |urls|
      invariant results == HostsOf(f, domain, urls, u)
    {
      var host := f.host(urls[u]);
      if host.None? {
        continue;
      }
      var exact := host.value == normalized;
      var subdomain := EndsWith(host.value, "." + normalized);
      if !(exact || subdomain) {
        continue;
      }
      var reason := if exact then ExactHost(domain) else Subdomain(domain);
      results := results + [Relation(DomainUrlHost, Evidence("domains", domain, normalized),
                                     Evidence("urls", urls[u], f.url(urls[u])), reason)];
    }
  }

  // ------------------------------------------------------------------ threat-intelligence links

  /** An enrichment record: its fields by name. */
  type TiRecord = map<string, string>

  function Get(r: TiRecord, field: string, default: string): string
  {
    if field in r then r[field] else default
  }

  /** The last of the first `n` records about `value`; records without a value do not count. */
  function RecordOf(records: seq<TiRecord>, field: string, value: string, n: nat): Option<TiRecord>
    requires n <= |records|
  {
    if n == 0 then None
    else if value != "" && Get(records[n - 1], field, "") == value then Some(records[n - 1])
    else RecordOf(records, field, value, n - 1)
  }

  function LinkRelation(f: Forms, name: string, value: string, r: TiRecord): Relation
  {
    Relation(ThreatIntelLink, Evidence(name, value, Normalize(f, name, value)),
             Evidence("threat_intelligence", value, Normalize(f, name, value)),
             Verdict(Get(r, "verdict", "Unknown"), Get(r, "detection_ratio", "N/A")))
  }

  function Links(f: Forms, name: string, values: seq<string>, records: seq<TiRecord>, field: string, n: nat): seq<Relation>
    requires n <= |values|
  {
    if n == 0 then []
    else Links(f, name, values, records, field, n - 1) +
         (match RecordOf(records, field, values[n - 1], |records|)
          case None => []
          case Some(r) => [LinkRelation(f, name, values[n - 1], r)])
  }

  type ThreatIntelligence = map<string, seq<TiRecord>>

  /** An enrichable category, the key its records are stored under, and the field that holds
      the indicator. */
  datatype Enrichable = Enrichable(name: string, key: string, field: string)

  const ENRICHABLE: seq<Enrichable> :=
    [Enrichable("sha256", "hashes", "sha256"), Enrichable("ipv4", "ips", "ip"),
     Enrichable("domains", "domains", "domain"), Enrichable("urls", "urls", "url")]

  function RecordsUnder(ti: ThreatIntelligence, key: string): seq<TiRecord>
  {
    if key in ti then ti[key] else []
  }

  function LinksOf(f: Forms, iocs: Iocs, ti: ThreatIntelligence, e: Enrichable): seq<Relation>
  {
    var values := SortedSet(Lookup(iocs, e.name));
    Links(f, e.name, values, RecordsUnder(ti, e.key), e.field, |values|)
  }

  function AllLinks(f: Forms, iocs: Iocs, ti: ThreatIntelligence, es: seq<Enrichable>): seq<Relation>
  {
    FlatMap((e: Enrichable) => LinksOf(f, iocs, ti, e), es, |es|)
  }

  method CorrelateLinksForCategory(f: Forms, iocs: Iocs, ti: ThreatIntelligence, e: Enrichable)
    returns (results: seq<Relation>)
    ensures results == LinksOf(f, iocs, ti, e)
  {
    results := [];
    var values := SortedSet(Lookup(iocs, e.name));
    if values == [] {
      return;
    }
    var records := RecordsUnder(ti, e.key);
    var byValue: map<string, TiRecord> := map[];
    for i := 0 to |records|
      invariant forall v :: (if v in byValue then Some(byValue[v]) else None) == RecordOf(records, e.field, v, i)
    {
      var value := Get(records[i], e.field, "");
      if value != "" {
        byValue := byValue[value := records[i]];
      }
    }
    for i := 0 to |values|
      invariant results == Links(f, e.name, values, records, e.field, i)
    {
      ghost var found := RecordOf(records, e.field, values[i], |records|);
      assert (if values[i] in byValue then Some(byValue[values[i]]) else None) == found;
      if values[i] in byValue {
        results := results + [LinkRelation(f, e.name, values[i], byValue[values[i]])];
      }
    }
  }

  method CorrelateThreatIntelLinks(f: Forms, iocs: Iocs, ti: ThreatIntelligence, es: seq<Enrichable>)
    returns (results: seq<Relation>)
    ensures results == AllLinks(f, iocs, ti, es)
  {
    results := [];
    ghost var g := (e: Enrichable) => LinksOf(f, iocs, ti, e);
    assert AllLinks(f, iocs, ti, es) == FlatMap(g, es, |es|);
    for i := 0 to |es|
      invariant results == FlatMap(g, es, i)
    {
      var more := CorrelateLinksForCategory(f, iocs, ti, es[i]);
      results := results + more;
    }
  }

  // ------------------------------------------------------------------ the report

  datatype Report = Report(results: seq<Relation>, total: nat, correlated: nat, relationships: nat, shared: nat)

  /** Everything the three rules find, before sorting. */
  function Found(f: Forms, iocs: Iocs, ti: ThreatIntelligence): seq<Relation>
  {
    Duplicates(f, Sort(NameLeq, iocs)) + AllHosts(f, iocs) + AllLinks(f, iocs, ti, ENRICHABLE)
  }

  function Total(iocs: Iocs): nat
  {
    if iocs == [] then 0 else |iocs[0].values| + Total(iocs[1..])
  }

  /** The extracted values that some relation mentions on either side. */
  ghost function Mentioned(results: seq<Relation>, iocs: Iocs): set<(string, string)>
  {
    (set r | r in results && r.primary.value in Lookup(iocs, r.primary.name) :: (r.primary.name, r.primary.value)) +
    (set r | r in results && r.related.value in Lookup(iocs, r.related.name) :: (r.related.name, r.related.value))
  }

  ghost function ReportOf(f: Forms, iocs: Iocs, ti: ThreatIntelligence): Report
  {
    var results := Sort(RelationLeq, Found(f, iocs, ti));
    Report(results, Total(iocs), |Mentioned(results, iocs)|, |results|, Total(iocs))
  }

  method Correlate(f: Forms, iocs: Iocs, ti: ThreatIntelligence) returns (report: Report)
    ensures report == ReportOf(f, iocs, ti)
  {
    var duplicates := CorrelateDuplicates(f, iocs);
    var hosts := CorrelateDomainUrlHosts(f, iocs);
    var links := CorrelateThreatIntelLinks(f, iocs, ti, ENRICHABLE);
    var results := Sort(RelationLeq, duplicates + hosts + links);
    var total := CountValues(iocs);
    var correlated := CountCorrelated(results, iocs);
    report := Report(results, total, correlated, |results|, total);
  }

  method CountValues(iocs: Iocs) returns (n: nat)
    ensures n == Total(iocs)
  {
    n := 0;
    for i := 0 to |iocs|
      invariant n + Total(iocs[i..]) == Total(iocs)
    {
      n := n + |iocs[i].values|;
    }
  }

  method CountCorrelated(results: seq<Relation>, iocs: Iocs) returns (n: nat)
    ensures n == |Mentioned(results, iocs)|
  {
    var values: set<(string, string)> := {};
    for i := 0 to |results|
      invariant values == Mentioned(results[..i], iocs)
    {
      MentionedMore(results, iocs, i);
      var p, r := results[i].primary, results[i].related;
      if p.value in Lookup(iocs, p.name) {
        values := values + {(p.name, p.value)};
      }
      if r.value in Lookup(iocs, r.name) {
        values := values + {(r.name, r.value)};
      }
    }
    assert results[..|results|] == results;
    n := |values|;
  }

  lemma MentionedMore(results: seq<Relation>, iocs: Iocs, i: nat)
    requires i < |results|
    ensures Mentioned(results[..i + 1], iocs) == Mentioned(results[..i], iocs) + Mentioned([results[i]], iocs)
  {
    assert results[..i + 1] == results[..i] + [results[i]];
  }
}
