/** The correlation report in terms of the data alone: what each relation says, in what order relations come,
    and exactly which extracted values count as correlated. */
module CorrelationEvidence {
  import opened Basics
  import opened Ordering
  import opened Sequences
  import opened Correlation
  import opened CorrelationLaws
  import opened CorrelationReport
  import opened CorrelationOrder

  // ------------------------------------------------------------------ what relations say

  /** A domain is compared without its trailing dot, a URL in its own form, any other value trimmed and in lower
      case. */
  lemma FormsCompared(f: Forms, value: string)
    ensures f.clean(value) == Normalize(f, "domains", value) + (if EndsWith(f.clean(value), ".") then "." else "")
    ensures Normalize(f, "domains", value) == NormalizeDomain(f, value) && Normalize(f, "urls", value) == f.url(value)
    ensures forall name :: name !in {"domains", "urls"} ==> Normalize(f, name, value) == f.clean(value)
  {
  }

  /** The host is a subdomain: at least the dot comes before the domain. */
  ghost predicate Below(host: string, domain: string)
  {
    exists front: string :: host == front + "." + domain
  }

  lemma SuffixIsBelow(host: string, domain: string)
    ensures EndsWith(host, "." + domain) <==> Below(host, domain)
  {
    if EndsWith(host, "." + domain) {
      var front := host[..|host| - |domain| - 1];
      assert host == front + ("." + domain);
      assert host == front + "." + domain;
    }
    if front: string :| host == front + "." + domain {
      assert host == front + ("." + domain);
    }
  }

  /** Exactly what host relations there are and what they say. */
  lemma HostsSpelledOut(f: Forms, iocs: Iocs, r: Relation)
    ensures r in AllHosts(f, iocs) <==>
            && r.kind.DomainUrlHost? && r.primary.name == "domains" && r.related.name == "urls"
            && r.primary.value in Lookup(iocs, "domains") && r.related.value in Lookup(iocs, "urls")
            && r.primary.normalized == NormalizeDomain(f, r.primary.value) && r.related.normalized == f.url(r.related.value)
            && f.host(r.related.value).Some?
            && if f.host(r.related.value).value == r.primary.normalized then r.reason == ExactHost(r.primary.value)
               else Below(f.host(r.related.value).value, r.primary.normalized) && r.reason == Subdomain(r.primary.value)
  {
    HostsExactly(f, iocs, r);
    if f.host(r.related.value).Some? {
      SuffixIsBelow(f.host(r.related.value).value, NormalizeDomain(f, r.primary.value));
    }
  }

  /** Record number `i` is the last one about `value`. */
  predicate LastAbout(records: seq<TiRecord>, field: string, value: string, i: int)
  {
    && 0 <= i < |records| && field in records[i] && records[i][field] == value
    && forall j :: i < j < |records| && field in records[j] ==> records[j][field] != value
  }

  lemma RecordSpelledOut(records: seq<TiRecord>, field: string, value: string)
    ensures RecordOf(records, field, value, |records|).Some? <==>
            value != "" && exists i :: LastAbout(records, field, value, i)
    ensures forall i :: value != "" && LastAbout(records, field, value, i) ==>
              RecordOf(records, field, value, |records|) == Some(records[i])
  {
    if value != "" {
      RecordIsLast(records, field, value, |records|);
      var found := RecordOf(records, field, value, |records|);
      if found.Some? {
        var i :| 0 <= i < |records| && records[i] == found.value && Get(found.value, field, "") == value
                 && forall j :: i < j < |records| ==> Get(records[j], field, "") != value;
        assert LastAbout(records, field, value, i);
        forall k | LastAbout(records, field, value, k) ensures k == i {
          assert Get(records[k], field, "") == value;
        }
      } else {
        forall i | 0 <= i < |records| ensures !LastAbout(records, field, value, i) {
          assert Get(records[i], field, "") != value;
        }
      }
    } else {
      NoRecord(records, field, |records|);
    }
  }

  lemma {:induction false} NoRecord(records: seq<TiRecord>, field: string, n: nat)
    requires n <= |records|
    ensures RecordOf(records, field, "", n).None?
  {
    if n > 0 {
      NoRecord(records, field, n - 1);
    }
  }

  /** Exactly what links there are in a category and what they say: the last record about an extracted value,
      with its verdict and ratio. */
  lemma LinksSpelledOut(f: Forms, iocs: Iocs, ti: ThreatIntelligence, e: Enrichable, r: Relation)
    ensures var records := RecordsUnder(ti, e.key); var value := r.primary.value;
      r in LinksOf(f, iocs, ti, e) <==>
            && r.kind.ThreatIntelLink? && r.primary.name == e.name && r.related.name == "threat_intelligence"
            && r.related.value == value && r.primary.normalized == r.related.normalized == Normalize(f, e.name, value)
            && value in Lookup(iocs, e.name) && value != ""
            && exists i :: LastAbout(records, e.field, value, i)
                 && r.reason == Verdict(if "verdict" in records[i] then records[i]["verdict"] else "Unknown",
                                        if "detection_ratio" in records[i] then records[i]["detection_ratio"] else "N/A")
  {
    var records, value := RecordsUnder(ti, e.key), r.primary.value;
    LinksExactly(f, iocs, ti, e, r);
    RecordSpelledOut(records, e.field, value);
  }

  // ------------------------------------------------------------------ the order of the report

  /** Duplicates come first and links last; within a kind the relations are in the text order of the left
      category, then the left value, then the right category, then the right value. */
  lemma ResultsInOrder(f: Forms, iocs: Iocs, ti: ThreatIntelligence, i: nat, j: nat)
    requires DistinctNames(iocs) && i < j < |ReportOf(f, iocs, ti).results|
    ensures var x := ReportOf(f, iocs, ti).results[i]; var y := ReportOf(f, iocs, ti).results[j];
      && (y.kind.Duplicate? ==> x.kind.Duplicate?) && (x.kind.ThreatIntelLink? ==> y.kind.ThreatIntelLink?)
      && (x.kind == y.kind ==>
           && TextLeq(x.primary.name, y.primary.name)
           && (x.primary.name == y.primary.name ==> TextLeq(x.primary.value, y.primary.value))
           && (x.primary == y.primary ==> TextLeq(x.related.name, y.related.name))
           && (x.primary == y.primary && x.related.name == y.related.name ==> TextLeq(x.related.value, y.related.value)))
  {
    ResultsAreCanonical(f, iocs, ti, Found(f, iocs, ti));
    OrderSpelledOut(ReportOf(f, iocs, ti).results[i], ReportOf(f, iocs, ti).results[j]);
  }

  lemma OrderSpelledOut(x: Relation, y: Relation)
    requires RelationLeq(x, y)
    ensures (y.kind.Duplicate? ==> x.kind.Duplicate?) && (x.kind.ThreatIntelLink? ==> y.kind.ThreatIntelLink?)
    ensures x.kind == y.kind ==>
              && TextLeq(x.primary.name, y.primary.name)
              && (x.primary.name == y.primary.name ==> TextLeq(x.primary.value, y.primary.value))
              && (x.primary == y.primary ==> TextLeq(x.related.name, y.related.name))
              && (x.primary == y.primary && x.related.name == y.related.name ==> TextLeq(x.related.value, y.related.value))
  {
    TextLeqReflexive(x.primary.name);
    TextLeqReflexive(x.primary.value);
    TextLeqReflexive(x.related.name);
  }

  // ------------------------------------------------------------------ which values count

  /** Two of the first `n` values have this form. */
  ghost predicate TwoShare(f: Forms, c: Category, form: string, n: nat)
    requires n <= |c.values|
  {
    exists i, j :: 0 <= i < j < n && Normalize(f, c.name, c.values[i]) == form && Normalize(f, c.name, c.values[j]) == form
  }

  ghost predicate OneHas(f: Forms, c: Category, form: string, n: nat)
    requires n <= |c.values|
  {
    exists i :: 0 <= i < n && Normalize(f, c.name, c.values[i]) == form
  }

  lemma {:induction false} HavingSize(f: Forms, c: Category, form: string, n: nat)
    requires n <= |c.values|
    ensures |Having(f, c, form, n)| >= 1 <==> OneHas(f, c, form, n)
    ensures |Having(f, c, form, n)| >= 2 <==> TwoShare(f, c, form, n)
  {
    if n > 0 {
      HavingSize(f, c, form, n - 1);
      if OneHas(f, c, form, n - 1) && Normalize(f, c.name, c.values[n - 1]) == form {
        var i :| 0 <= i < n - 1 && Normalize(f, c.name, c.values[i]) == form;
        assert TwoShare(f, c, form, n);
      }
      if TwoShare(f, c, form, n - 1) {
        var i, j :| 0 <= i < j < n - 1 && Normalize(f, c.name, c.values[i]) == form
                    && Normalize(f, c.name, c.values[j]) == form;
        assert TwoShare(f, c, form, n);
      }
      if TwoShare(f, c, form, n) && !TwoShare(f, c, form, n - 1) {
        var i, j :| 0 <= i < j < n && Normalize(f, c.name, c.values[i]) == form && Normalize(f, c.name, c.values[j]) == form;
        assert j == n - 1;
      }
    }
  }

  /** The relation mentions this value of this category on one of its sides. */
  predicate Mentions(r: Relation, name: string, value: string)
  {
    (r.primary.name == name && r.primary.value == value) || (r.related.name == name && r.related.value == value)
  }

  ghost predicate SomeMentions(rs: seq<Relation>, name: string, value: string)
  {
    exists r :: r in rs && Mentions(r, name, value)
  }

  /** A value is in a duplicate relation exactly if the category holds two values of its form. */
  lemma DuplicateMentions(f: Forms, c: Category, value: string)
    requires value in c.values
    ensures SomeMentions(CategoryDuplicates(f, c), c.name, value) <==>
            TwoShare(f, c, Normalize(f, c.name, value), |c.values|)
  {
    var form := Normalize(f, c.name, value);
    var g := Group(f, c, form);
    HavingSize(f, c, form, |c.values|);
    if |g| >= 2 {
      GroupHas(f, c, form, value);
      var k :| 0 <= k < |g| && g[k] == value;
      PairIsFound(f, c, form, if k == 0 then 1 else k);
      assert Mentions(DuplicateOf(c, form, g, if k == 0 then 1 else k), c.name, value);
    }
    if SomeMentions(CategoryDuplicates(f, c), c.name, value) {
      var r :| r in CategoryDuplicates(f, c) && Mentions(r, c.name, value);
      MentionNeedsTwo(f, c, value, r);
    }
  }

  lemma MentionNeedsTwo(f: Forms, c: Category, value: string, r: Relation)
    requires r in CategoryDuplicates(f, c) && Mentions(r, c.name, value)
    ensures |Group(f, c, Normalize(f, c.name, value))| >= 2
  {
    var forms := SortedForms(f, c);
    StarsHave(f, c, forms, |forms|, r);
    var i :| 0 <= i < |forms| && r in StarOf(f, c, forms[i]);
    var g := Group(f, c, forms[i]);
    StarHas(c, forms[i], g, |g|, r);
    GroupHas(f, c, forms[i], value);
  }

  lemma {:induction false} EntryOf(iocs: Iocs, name: string) returns (c: Category)
    requires Lookup(iocs, name) != []
    ensures c in iocs && c.name == name && c.values == Lookup(iocs, name)
  {
    if iocs[0].name == name {
      c := iocs[0];
    } else {
      c := EntryOf(iocs[1..], name);
    }
  }

  /** The category holds two values of the form of this one, counting it. */
  ghost predicate HasTwin(f: Forms, iocs: Iocs, name: string, value: string)
  {
    TwoShare(f, Category(name, Lookup(iocs, name)), Normalize(f, name, value), |Lookup(iocs, name)|)
  }

  lemma DuplicatesMention(f: Forms, iocs: Iocs, name: string, value: string)
    requires DistinctNames(iocs) && value in Lookup(iocs, name)
    ensures SomeMentions(Duplicates(f, Sort(NameLeq, iocs)), name, value) <==> HasTwin(f, iocs, name, value)
  {
    var cs := Sort(NameLeq, iocs);
    var c := EntryOf(iocs, name);
    DuplicateMentions(f, c, value);
    if SomeMentions(Duplicates(f, cs), name, value) {
      var r :| r in Duplicates(f, cs) && Mentions(r, name, value);
      FromItsCategory(f, iocs, c, r);
    }
    if SomeMentions(CategoryDuplicates(f, c), name, value) {
      var r :| r in CategoryDuplicates(f, c) && Mentions(r, name, value);
      assert c in multiset(cs);
      var i :| 0 <= i < |cs| && cs[i] == c;
      InDuplicates(f, cs, i, r);
    }
  }

  lemma FromItsCategory(f: Forms, iocs: Iocs, c: Category, r: Relation)
    requires DistinctNames(iocs) && c.values == Lookup(iocs, c.name) && r in Duplicates(f, Sort(NameLeq, iocs))
    requires r.primary.name == c.name || r.related.name == c.name
    ensures r in CategoryDuplicates(f, c)
  {
    var d := DuplicateSource(f, iocs, r);
    DuplicateJoinsOneForm(f, d, r);
    assert d == c;
  }

  lemma InDuplicates(f: Forms, cs: seq<Category>, i: nat, r: Relation)
    requires i < |cs| && r in CategoryDuplicates(f, cs[i])
    ensures r in Duplicates(f, cs)
  {
    FlatMapHas((c: Category) => CategoryDuplicates(f, c), cs, |cs|, r);
  }

  /** The host of the URL is the domain or lies below it. */
  ghost predicate HostFits(f: Forms, domain: string, url: string)
  {
    var d := NormalizeDomain(f, domain);
    f.host(url).Some? && (f.host(url).value == d || Below(f.host(url).value, d))
  }

  ghost predicate HasHost(f: Forms, iocs: Iocs, name: string, value: string)
  {
    || (name == "domains" && exists url :: url in Lookup(iocs, "urls") && HostFits(f, value, url))
    || (name == "urls" && exists domain :: domain in Lookup(iocs, "domains") && HostFits(f, domain, value))
  }

  lemma HostsMention(f: Forms, iocs: Iocs, name: string, value: string)
    requires value in Lookup(iocs, name)
    ensures SomeMentions(AllHosts(f, iocs), name, value) <==> HasHost(f, iocs, name, value)
  {
    if SomeMentions(AllHosts(f, iocs), name, value) {
      var r :| r in AllHosts(f, iocs) && Mentions(r, name, value);
      HostsSpelledOut(f, iocs, r);
      assert HostFits(f, r.primary.value, r.related.value);
    }
    if HasHost(f, iocs, name, value) {
      if name == "domains" {
        var url :| url in Lookup(iocs, "urls") && HostFits(f, value, url);
        HostsSpelledOut(f, iocs, HostRelation(f, value, url));
        assert Mentions(HostRelation(f, value, url), name, value);
      } else {
        var domain :| domain in Lookup(iocs, "domains") && HostFits(f, domain, value);
        HostsSpelledOut(f, iocs, HostRelation(f, domain, value));
        assert Mentions(HostRelation(f, domain, value), name, value);
      }
    }
  }

  /** Some record stored for the category is about the value. */
  ghost predicate RecordAbout(ti: ThreatIntelligence, e: Enrichable, value: string)
  {
    var records := RecordsUnder(ti, e.key);
    value != "" && exists i :: 0 <= i < |records| && e.field in records[i] && records[i][e.field] == value
  }

  lemma RecordFound(ti: ThreatIntelligence, e: Enrichable, value: string)
    ensures RecordOf(RecordsUnder(ti, e.key), e.field, value, |RecordsUnder(ti, e.key)|).Some? <==> RecordAbout(ti, e, value)
  {
    var records := RecordsUnder(ti, e.key);
    if value != "" {
      RecordIsLast(records, e.field, value, |records|);
      forall i | 0 <= i < |records| && e.field in records[i] && records[i][e.field] == value
        ensures Get(records[i], e.field, "") == value {}
    } else {
      NoRecord(records, e.field, |records|);
    }
  }

  ghost predicate HasRecord(iocs: Iocs, ti: ThreatIntelligence, name: string, value: string)
  {
    exists e :: e in ENRICHABLE && RecordAbout(ti, e, value) && value in Lookup(iocs, e.name)
                && (e.name == name || name == "threat_intelligence")
  }

  lemma LinksMention(f: Forms, iocs: Iocs, ti: ThreatIntelligence, name: string, value: string)
    ensures SomeMentions(AllLinks(f, iocs, ti, ENRICHABLE), name, value) <==> HasRecord(iocs, ti, name, value)
  {
    if SomeMentions(AllLinks(f, iocs, ti, ENRICHABLE), name, value) {
      var r :| r in AllLinks(f, iocs, ti, ENRICHABLE) && Mentions(r, name, value);
      AllLinksHave(f, iocs, ti, ENRICHABLE, r);
      var e :| e in ENRICHABLE && r in LinksOf(f, iocs, ti, e);
      LinksExactly(f, iocs, ti, e, r);
      RecordFound(ti, e, value);
    }
    if HasRecord(iocs, ti, name, value) {
      var e :| e in ENRICHABLE && RecordAbout(ti, e, value) && value in Lookup(iocs, e.name)
               && (e.name == name || name == "threat_intelligence");
      RecordFound(ti, e, value);
      var records := RecordsUnder(ti, e.key);
      var r := LinkRelation(f, e.name, value, RecordOf(records, e.field, value, |records|).value);
      LinksExactly(f, iocs, ti, e, r);
      AllLinksHave(f, iocs, ti, ENRICHABLE, r);
      assert Mentions(r, name, value);
    }
  }

  /** An extracted value counts as correlated exactly if its category holds another value of its form (or it
      twice), or a domain or URL goes with it by the host, or there is a record about it. The last holds also of a
      value listed under a category called "threat_intelligence", which is what the right side of a link is called. */
  lemma CorrelatedExactly(f: Forms, iocs: Iocs, ti: ThreatIntelligence, name: string, value: string)
    requires DistinctNames(iocs) && value in Lookup(iocs, name)
    ensures (name, value) in Mentioned(ReportOf(f, iocs, ti).results, iocs) <==>
            HasTwin(f, iocs, name, value) || HasHost(f, iocs, name, value) || HasRecord(iocs, ti, name, value)
  {
    DuplicatesMention(f, iocs, name, value);
    HostsMention(f, iocs, name, value);
    LinksMention(f, iocs, ti, name, value);
    var results := ReportOf(f, iocs, ti).results;
    MentionedOnASide(results, iocs, name, value);
    SameMentions(results, Found(f, iocs, ti), name, value);
    MentionsAdd(Duplicates(f, Sort(NameLeq, iocs)), AllHosts(f, iocs), name, value);
    MentionsAdd(Duplicates(f, Sort(NameLeq, iocs)) + AllHosts(f, iocs), AllLinks(f, iocs, ti, ENRICHABLE), name, value);
  }

  lemma MentionedOnASide(results: seq<Relation>, iocs: Iocs, name: string, value: string)
    requires value in Lookup(iocs, name)
    ensures (name, value) in Mentioned(results, iocs) <==> SomeMentions(results, name, value)
  {
    if SomeMentions(results, name, value) {
      var r :| r in results && Mentions(r, name, value);
    }
    if (name, value) in Mentioned(results, iocs) {
      assert exists r :: r in results && Mentions(r, name, value);
    }
  }

  lemma SameMentions(a: seq<Relation>, b: seq<Relation>, name: string, value: string)
    requires multiset(a) == multiset(b)
    ensures SomeMentions(a, name, value) <==> SomeMentions(b, name, value)
  {
    forall r ensures r in a <==> r in b {
      assert r in a <==> r in multiset(a);
      assert r in b <==> r in multiset(b);
    }
  }

  lemma MentionsAdd(a: seq<Relation>, b: seq<Relation>, name: string, value: string)
    ensures SomeMentions(a + b, name, value) <==> SomeMentions(a, name, value) || SomeMentions(b, name, value)
  {
    if SomeMentions(a + b, name, value) {
      var r :| r in a + b && Mentions(r, name, value);
    }
    if SomeMentions(a, name, value) {
      var r :| r in a && Mentions(r, name, value);
      assert r in a + b;
    }
    if SomeMentions(b, name, value) {
      var r :| r in b && Mentions(r, name, value);
      assert r in a + b;
    }
  }

  // ------------------------------------------------------------------ the figures

  /** The report counts the values, the relations, and the correlated values; no relation is left out. */
  lemma FiguresAddUp(f: Forms, iocs: Iocs, ti: ThreatIntelligence)
    ensures var r := ReportOf(f, iocs, ti);
      && r.relationships == |r.results|
         == |Duplicates(f, Sort(NameLeq, iocs))| + |AllHosts(f, iocs)| + |AllLinks(f, iocs, ti, ENRICHABLE)|
      && r.total == r.shared && r.correlated <= r.total
      && forall x :: x in r.results <==>
           x in Duplicates(f, Sort(NameLeq, iocs)) || x in AllHosts(f, iocs) || x in AllLinks(f, iocs, ti, ENRICHABLE)
  {
    CorrelatedAtMostTotal(f, iocs, ti);
    var found, results := Found(f, iocs, ti), ReportOf(f, iocs, ti).results;
    forall x ensures x in results <==> x in found {
      assert x in results <==> x in multiset(results);
      assert x in found <==> x in multiset(found);
    }
  }
}
