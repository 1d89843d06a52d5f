/** The risk score (app/scoring/engine.py): three contributions, clamped and graded, and its
    monotonicity in the evidence. */
module Scoring {
  import opened Basics
  import opened Sequences
  import opened Correlation

  const MAX_SCORE := 100

  /** Points for each extracted value, by category. */
  const IOC_WEIGHTS: seq<(string, nat)> :=
    [("ipv4", 1), ("domains", 2), ("urls", 3), ("emails", 1), ("md5", 4), ("sha1", 5), ("sha256", 6), ("cves", 8),
     ("windows_file_paths", 2), ("windows_registry_keys", 3)]

  function WeightIn(table: seq<(string, nat)>, name: string): nat
  {
    if table == [] then 0 else if table[0].0 == name then table[0].1 else WeightIn(table[1..], name)
  }

  /** Unknown categories weigh nothing. */
  function Weight(name: string): nat { WeightIn(IOC_WEIGHTS, name) }

  /** What scoring reads of an enrichment record; missing counts are 0. */
  datatype Detection = Detection(malicious: int, suspicious: int, reputation: Option<int>)

  function DetectionScore(d: Detection): int
  {
    d.malicious * 5 + d.suspicious * 2 + (if d.reputation.Some? && d.reputation.value < 0 then -d.reputation.value else 0)
  }

  datatype Intelligence = Intelligence(hashes: seq<Detection>, ips: seq<Detection>, domains: seq<Detection>,
                                       urls: seq<Detection>, status: Option<string>)
  {
    function Categories(): seq<seq<Detection>> { [hashes, ips, domains, urls] }
    function All(): seq<Detection> { hashes + ips + domains + urls }
  }

  datatype Severity = Low | Medium | High | Critical
  {
    function Rank(): nat { match this case Low => 0 case Medium => 1 case High => 2 case Critical => 3 }
  }

  function SeverityOf(score: int): Severity
  {
    if score <= 20 then Low else if score <= 40 then Medium else if score <= 70 then High else Critical
  }

  function Normalize(score: int): int
  {
    var capped := if score < MAX_SCORE then score else MAX_SCORE;
    if capped > 0 then capped else 0
  }

  // ------------------------------------------------------------------ the contributions

  function CategoryScore(c: Category): int { |c.values| * Weight(c.name) }

  function IocScore(iocs: Iocs): int { Sum(CategoryScore, iocs) }

  function ThreatScore(t: Intelligence): int { Sum(DetectionScore, t.All()) }

  function CveScore(iocs: Iocs): int { |Lookup(iocs, "cves")| * 10 }

  function RawScore(iocs: Iocs, t: Intelligence): int { IocScore(iocs) + ThreatScore(t) + CveScore(iocs) }

  /** The reasons recorded with a score. */
  datatype Because = IocPoints(n: int) | ThreatPoints(n: int) | Incomplete(status: Option<string>) | CvePoints(n: int)

  /** A threat-intelligence check that did not finish. */
  predicate CheckIncomplete(t: Intelligence)
  {
    t.status !in {Some("ok"), Some("no_indicators")}
  }

  /** All extracted values. */
  function CountIocs(iocs: Iocs): int { Sum((c: Category) => |c.values|, iocs) }

  /** The confidence before it is rounded to hundredths: full from 40 values on, and halved when the check did not finish. */
  function Confidence(iocs: Iocs, t: Intelligence): real
  {
    var share := CountIocs(iocs) as real / 40.0;
    var full := if share < 1.0 then share else 1.0;
    if CheckIncomplete(t) then full / 2.0 else full
  }

  /** `round(x, 2)` in hundredths: a nearest one, whichever way a tie goes. */
  ghost predicate Nearest(hundredths: real -> int)
  {
    forall x: real :: -0.5 <= hundredths(x) as real - 100.0 * x <= 0.5
  }

  /** `confidence` is in hundredths. */
  datatype RiskScore = RiskScore(score: int, severity: Severity, confidence: int,
                                 iocScore: int, threatScore: int, cveScore: int, reasons: seq<Because>)

  method CalculateIocScore(iocs: Iocs) returns (score: int)
    ensures score == IocScore(iocs)
  {
    score := 0;
    for i := 0 to |iocs|
      invariant score == Sum(CategoryScore, iocs[..i])
    {
      SumAppend(CategoryScore, iocs, i);
      var weight := Weight(iocs[i].name);
      score := score + |iocs[i].values| * weight;
    }
    assert iocs[..|iocs|] == iocs;
  }

  method ScoreRecords(records: seq<Detection>) returns (score: int)
    ensures score == Sum(DetectionScore, records)
  {
    score := 0;
    for i := 0 to |records|
      invariant score == Sum(DetectionScore, records[..i])
    {
      SumAppend(DetectionScore, records, i);
      var d := records[i];
      score := score + d.malicious * 5;
      score := score + d.suspicious * 2;
      if d.reputation.Some? && d.reputation.value < 0 {
        score := score - d.reputation.value;
      }
    }
    assert records[..|records|] == records;
  }

  method CalculateThreatScore(t: Intelligence) returns (score: int)
    ensures score == ThreatScore(t)
  {
    score := 0;
    var categories := t.Categories();
    ghost var done: seq<Detection> := [];
    for i := 0 to |categories|
      invariant score == Sum(DetectionScore, done)
      invariant done == Joined(categories, i)
    {
      var points := ScoreRecords(categories[i]);
      SumAdd(DetectionScore, done, categories[i]);
      done := done + categories[i];
      score := score + points;
    }
    JoinedFour(categories);
  }

  function Joined(parts: seq<seq<Detection>>, n: nat): seq<Detection>
    requires n <= |parts|
  {
    if n == 0 then [] else Joined(parts, n - 1) + parts[n - 1]
  }

  lemma JoinedFour(parts: seq<seq<Detection>>)
    requires |parts| == 4
    ensures Joined(parts, 4) == parts[0] + parts[1] + parts[2] + parts[3]
  {
    assert Joined(parts, 1) == parts[0];
    assert Joined(parts, 2) == parts[0] + parts[1];
    assert Joined(parts, 3) == parts[0] + parts[1] + parts[2];
  }

  method CalculateConfidence(hundredths: real -> int, iocs: Iocs, t: Intelligence) returns (rounded: int)
    ensures rounded == hundredths(Confidence(iocs, t))
  {
    var total := 0;
    ghost var size := (c: Category) => |c.values|;
    assert CountIocs(iocs) == Sum(size, iocs);
    for i := 0 to |iocs|
      invariant total == Sum(size, iocs[..i])
    {
      SumAppend(size, iocs, i);
      total := total + |iocs[i].values|;
    }
    assert iocs[..|iocs|] == iocs;
    var confidence := total as real / 40.0;
    if confidence > 1.0 {
      confidence := 1.0;
    }
    if t.status != Some("ok") && t.status != Some("no_indicators") {
      confidence := confidence * 0.5;
    }
    rounded := hundredths(confidence);
  }

  /** The rounded confidence lies between 0 and 1, exceeds one half only if the check finished, and is
      full exactly if the check finished with 40 values or more. */
  lemma ConfidenceInRange(hundredths: real -> int, iocs: Iocs, t: Intelligence)
    requires Nearest(hundredths)
    ensures 0 <= hundredths(Confidence(iocs, t)) <= 100
    ensures hundredths(Confidence(iocs, t)) > 50 ==> !CheckIncomplete(t)
    ensures hundredths(Confidence(iocs, t)) == 100 <==> !CheckIncomplete(t) && CountIocs(iocs) >= 40
  {
    SumNonNegative((c: Category) => |c.values|, iocs);
    var x := Confidence(iocs, t);
    assert -0.5 <= hundredths(x) as real - 100.0 * x <= 0.5;
  }

  /** Each value adds one fortieth, up to forty of them; a check that did not finish leaves half of that. */
  lemma ConfidenceShares(iocs: Iocs, t: Intelligence)
    ensures var counted := (if CountIocs(iocs) < 40 then CountIocs(iocs) else 40) as real;
      if t.status == Some("ok") || t.status == Some("no_indicators") then 40.0 * Confidence(iocs, t) == counted
      else 80.0 * Confidence(iocs, t) == counted
  {
  }

  /** More values with the same check, or a check that finished, never lower the rounded confidence. */
  lemma ConfidenceNoLower(hundredths: real -> int, a: Iocs, b: Iocs, t: Intelligence, u: Intelligence)
    requires Nearest(hundredths) && CountIocs(a) <= CountIocs(b) && (CheckIncomplete(u) ==> CheckIncomplete(t))
    ensures hundredths(Confidence(a, t)) <= hundredths(Confidence(b, u))
  {
    SumNonNegative((c: Category) => |c.values|, a);
    var x, y := Confidence(a, t), Confidence(b, u);
    assert x <= y;
    assert hundredths(x) as real - 100.0 * x <= 0.5 && -0.5 <= hundredths(y) as real - 100.0 * y;
  }

  /** The score is the clamped sum of the contributions, the severity its grade; a check that did not
      finish is always among the reasons, and a contribution exactly if it is not zero. */
  method Calculate(hundredths: real -> int, iocs: Iocs, t: Intelligence) returns (r: RiskScore)
    ensures r.score == Normalize(RawScore(iocs, t)) && r.severity == SeverityOf(r.score)
    ensures r.confidence == hundredths(Confidence(iocs, t))
    ensures r.iocScore == IocScore(iocs) && r.threatScore == ThreatScore(t) && r.cveScore == CveScore(iocs)
    ensures forall b :: b in r.reasons <==>
              || (b == IocPoints(r.iocScore) && r.iocScore != 0)
              || (b == ThreatPoints(r.threatScore) && r.threatScore != 0)
              || (b == Incomplete(t.status) && CheckIncomplete(t))
              || (b == CvePoints(r.cveScore) && r.cveScore != 0)
  {
    var iocScore := CalculateIocScore(iocs);
    var threatScore := CalculateThreatScore(t);
    var cveScore := CveScore(iocs);
    var score := Normalize(iocScore + threatScore + cveScore);
    var reasons: seq<Because> := [];
    if iocScore != 0 {
      reasons := reasons + [IocPoints(iocScore)];
    }
    if threatScore != 0 {
      reasons := reasons + [ThreatPoints(threatScore)];
    }
    if t.status != Some("ok") && t.status != Some("no_indicators") {
      reasons := reasons + [Incomplete(t.status)];
    }
    if cveScore != 0 {
      reasons := reasons + [CvePoints(cveScore)];
    }
    var confidence := CalculateConfidence(hundredths, iocs, t);
    r := RiskScore(score, SeverityOf(score), confidence, iocScore, threatScore, cveScore, reasons);
  }

  // ------------------------------------------------------------------ more evidence, no lower score

  /** Points counted the other way round: for each known category, its weight times its values. */
  function TableScore(iocs: Iocs, table: seq<(string, nat)>): int
  {
    if table == [] then 0 else |Lookup(iocs, table[0].0)| * table[0].1 + TableScore(iocs, table[1..])
  }

  predicate DistinctKeys(table: seq<(string, nat)>)
  {
    forall i, j :: 0 <= i < j < |table| ==> table[i].0 != table[j].0
  }

  lemma {:induction false} NotListed(iocs: Iocs, name: string)
    requires forall i :: 0 <= i < |iocs| ==> iocs[i].name != name
    ensures Lookup(iocs, name) == []
  {
    if iocs != [] {
      NotListed(iocs[1..], name);
    }
  }

  lemma {:induction false} UnknownWeighsNothing(table: seq<(string, nat)>, name: string)
    requires forall i :: 0 <= i < |table| ==> table[i].0 != name
    ensures WeightIn(table, name) == 0
  {
    if table != [] {
      UnknownWeighsNothing(table[1..], name);
    }
  }

  /** Adding a category adds its points to the table's total. */
  lemma {:induction false} TableWithCategory(c: Category, iocs: Iocs, table: seq<(string, nat)>)
    requires DistinctKeys(table) && Lookup(iocs, c.name) == []
    ensures TableScore([c] + iocs, table) == |c.values| * WeightIn(table, c.name) + TableScore(iocs, table)
  {
    if table != [] {
      assert ([c] + iocs)[1..] == iocs;
      assert DistinctKeys(table[1..]) by {
        forall i, j | 0 <= i < j < |table[1..]| ensures table[1..][i].0 != table[1..][j].0 {
          assert table[i + 1].0 != table[j + 1].0;
        }
      }
      TableWithCategory(c, iocs, table[1..]);
      if table[0].0 == c.name {
        forall i | 0 <= i < |table[1..]| ensures table[1..][i].0 != c.name {
          assert table[i + 1].0 != table[0].0;
        }
        UnknownWeighsNothing(table[1..], c.name);
      }
    } else {
      assert |c.values| * WeightIn(table, c.name) == 0;
    }
  }

  lemma {:induction false} ScoreByTable(iocs: Iocs, table: seq<(string, nat)>)
    requires DistinctNames(iocs) && DistinctKeys(table)
    ensures Sum((c: Category) => |c.values| * WeightIn(table, c.name), iocs) == TableScore(iocs, table)
  {
    if iocs == [] {
      EmptyTable(table);
    } else {
      assert iocs == [iocs[0]] + iocs[1..];
      forall i | 0 <= i < |iocs[1..]| ensures iocs[1..][i].name != iocs[0].name {
        assert iocs[0].name != iocs[i + 1].name;
      }
      NotListed(iocs[1..], iocs[0].name);
      TableWithCategory(iocs[0], iocs[1..], table);
      assert DistinctNames(iocs[1..]) by {
        forall i, j | 0 <= i < j < |iocs[1..]| ensures iocs[1..][i].name != iocs[1..][j].name {
          assert iocs[i + 1].name != iocs[j + 1].name;
        }
      }
      ScoreByTable(iocs[1..], table);
    }
  }

  lemma {:induction false} EmptyTable(table: seq<(string, nat)>)
    ensures TableScore([], table) == 0
  {
    if table != [] {
      EmptyTable(table[1..]);
    }
  }

  /** Every category of `a` has at least as many values in `b`. */
  ghost predicate NoFewerIocs(a: Iocs, b: Iocs)
  {
    forall name :: |Lookup(a, name)| <= |Lookup(b, name)|
  }

  lemma {:induction false} TableMonotone(a: Iocs, b: Iocs, table: seq<(string, nat)>)
    requires NoFewerIocs(a, b)
    ensures TableScore(a, table) <= TableScore(b, table)
  {
    if table != [] {
      TableMonotone(a, b, table[1..]);
      assert |Lookup(a, table[0].0)| * table[0].1 <= |Lookup(b, table[0].0)| * table[0].1;
    }
  }

  lemma IocScoreMonotone(a: Iocs, b: Iocs)
    requires DistinctNames(a) && DistinctNames(b) && NoFewerIocs(a, b)
    ensures IocScore(a) <= IocScore(b)
  {
    var table := IOC_WEIGHTS;
    WeightsDistinct();
    ScoreByTable(a, table);
    ScoreByTable(b, table);
    TableMonotone(a, b, table);
    var g := (c: Category) => |c.values| * WeightIn(table, c.name);
    SumSame(CategoryScore, g, a);
    SumSame(CategoryScore, g, b);
  }

  lemma WeightsDistinct()
    ensures DistinctKeys(IOC_WEIGHTS)
  {
    var table := IOC_WEIGHTS;
    forall i, j | 0 <= i < j < |table| ensures table[i].0 != table[j].0 {
      assert WeightPosition(table[i].0) == i && WeightPosition(table[j].0) == j;
    }
  }

  function WeightPosition(name: string): int
  {
    match name
    case "ipv4" => 0 case "domains" => 1 case "urls" => 2 case "emails" => 3 case "md5" => 4 case "sha1" => 5
    case "sha256" => 6 case "cves" => 7 case "windows_file_paths" => 8 case "windows_registry_keys" => 9
    case _ => -1
  }

  /** With no negative detection, more evidence never lowers the score or the severity. */
  lemma MoreEvidenceNoLower(a: Iocs, b: Iocs, s: Intelligence, t: Intelligence)
    requires DistinctNames(a) && DistinctNames(b) && NoFewerIocs(a, b)
    requires multiset(s.All()) <= multiset(t.All()) && forall d :: d in t.All() ==> DetectionScore(d) >= 0
    ensures Normalize(RawScore(a, s)) <= Normalize(RawScore(b, t))
    ensures SeverityOf(Normalize(RawScore(a, s))).Rank() <= SeverityOf(Normalize(RawScore(b, t))).Rank()
  {
    IocScoreMonotone(a, b);
    SumPart(DetectionScore, s.All(), t.All());
    assert CveScore(a) <= CveScore(b);
    NormalizeMonotone(RawScore(a, s), RawScore(b, t));
  }

  lemma NormalizeMonotone(x: int, y: int)
    requires x <= y
    ensures Normalize(x) <= Normalize(y) && SeverityOf(Normalize(x)).Rank() <= SeverityOf(Normalize(y)).Rank()
  {
  }

  /** The score is from 0 to 100, and its severity says in which of the four bands it lies. */
  lemma ScoreInRange(raw: int)
    ensures 0 <= Normalize(raw) <= MAX_SCORE
    ensures Normalize(raw) == raw <==> 0 <= raw <= MAX_SCORE
    ensures (raw < 0 ==> Normalize(raw) == 0) && (raw > 100 ==> Normalize(raw) == 100)
    ensures var severity := SeverityOf(Normalize(raw));
      && (severity.Low? <==> raw <= 20) && (severity.Medium? <==> 20 < raw <= 40)
      && (severity.High? <==> 40 < raw <= 70) && (severity.Critical? <==> raw > 70)
  {
  }

  /** Five points for each malicious verdict, two for each suspicious one, and the amount by which the
      reputation is negative. */
  ghost function PointsOf(malicious: int, suspicious: int, reputation: Option<int>): int
  {
    5 * malicious + 2 * suspicious + (match reputation case None => 0 case Some(r) => if r < 0 then -r else 0)
  }

  /** One more record of any kind raises the sum by exactly its own points, so it lowers it exactly if a
      negative count outweighs the rest. */
  lemma OneMoreRecord(iocs: Iocs, t: Intelligence, d: Detection)
    ensures var points := PointsOf(d.malicious, d.suspicious, d.reputation); var before := RawScore(iocs, t);
      && RawScore(iocs, t.(hashes := t.hashes + [d])) == RawScore(iocs, t.(ips := t.ips + [d]))
         == RawScore(iocs, t.(domains := t.domains + [d])) == RawScore(iocs, t.(urls := t.urls + [d])) == before + points
      && (RawScore(iocs, t.(urls := t.urls + [d])) < before <==> points < 0)
  {
    MoreHashes(t, d);
    MoreIps(t, d);
    MoreDomains(t, d);
    MoreUrls(t, d);
  }

  lemma MoreHashes(t: Intelligence, d: Detection)
    ensures ThreatScore(t.(hashes := t.hashes + [d])) == ThreatScore(t) + PointsOf(d.malicious, d.suspicious, d.reputation)
  {
    var rest := t.ips + t.domains + t.urls;
    InTheMiddle(t.hashes, d, rest);
    assert t.All() == t.hashes + rest && t.(hashes := t.hashes + [d]).All() == t.hashes + [d] + rest;
  }

  lemma MoreIps(t: Intelligence, d: Detection)
    ensures ThreatScore(t.(ips := t.ips + [d])) == ThreatScore(t) + PointsOf(d.malicious, d.suspicious, d.reputation)
  {
    var rest := t.domains + t.urls;
    InTheMiddle(t.hashes + t.ips, d, rest);
    assert t.All() == t.hashes + t.ips + rest && t.(ips := t.ips + [d]).All() == t.hashes + t.ips + [d] + rest;
  }

  lemma MoreDomains(t: Intelligence, d: Detection)
    ensures ThreatScore(t.(domains := t.domains + [d])) == ThreatScore(t) + PointsOf(d.malicious, d.suspicious, d.reputation)
  {
    InTheMiddle(t.hashes + t.ips + t.domains, d, t.urls);
    assert t.(domains := t.domains + [d]).All() == t.hashes + t.ips + t.domains + [d] + t.urls;
  }

  lemma MoreUrls(t: Intelligence, d: Detection)
    ensures ThreatScore(t.(urls := t.urls + [d])) == ThreatScore(t) + PointsOf(d.malicious, d.suspicious, d.reputation)
  {
    InTheMiddle(t.All(), d, []);
    assert t.All() + [] == t.All() && t.(urls := t.urls + [d]).All() == t.All() + [d] + [];
  }

  lemma InTheMiddle(a: seq<Detection>, d: Detection, b: seq<Detection>)
    ensures Sum(DetectionScore, a + [d] + b) == Sum(DetectionScore, a + b) + PointsOf(d.malicious, d.suspicious, d.reputation)
  {
    SumAdd(DetectionScore, a + [d], b);
    SumAdd(DetectionScore, a, [d]);
    SumAdd(DetectionScore, a, b);
    assert Sum(DetectionScore, [d]) == DetectionScore(d);
  }

  /** One more value of a category raises the sum by the weight of the category, and a CVE by ten more. */
  lemma OneMoreValue(iocs: Iocs, t: Intelligence, i: nat, value: string)
    requires DistinctNames(iocs) && i < |iocs|
    ensures var name := iocs[i].name; var more := iocs[i := Category(name, iocs[i].values + [value])];
      RawScore(more, t) == RawScore(iocs, t) + Weight(name) + (if name == "cves" then 10 else 0)
  {
    var c := iocs[i];
    var d := Category(c.name, c.values + [value]);
    assert iocs == iocs[..i] + [c] + iocs[i + 1..] && iocs[i := d] == iocs[..i] + [d] + iocs[i + 1..];
    SumReplaced(iocs[..i], c, iocs[i + 1..], d);
    LookupReplaced(iocs, i, d, "cves");
    MoreOfOne(|c.values|, Weight(c.name));
  }

  lemma MoreOfOne(count: nat, weight: nat)
    ensures (count + 1) * weight == count * weight + weight
  {
  }

  lemma SumReplaced(a: Iocs, c: Category, b: Iocs, d: Category)
    ensures IocScore(a + [d] + b) - IocScore(a + [c] + b) == CategoryScore(d) - CategoryScore(c)
  {
    SumAdd(CategoryScore, a + [d], b);
    SumAdd(CategoryScore, a, [d]);
    SumAdd(CategoryScore, a + [c], b);
    SumAdd(CategoryScore, a, [c]);
    assert Sum(CategoryScore, [c]) == CategoryScore(c) && Sum(CategoryScore, [d]) == CategoryScore(d);
  }

  lemma {:induction false} LookupReplaced(iocs: Iocs, i: nat, d: Category, name: string)
    requires DistinctNames(iocs) && i < |iocs| && d.name == iocs[i].name
    ensures Lookup(iocs[i := d], name) == if name == d.name then d.values else Lookup(iocs, name)
    ensures name == d.name ==> Lookup(iocs, name) == iocs[i].values
  {
    if i > 0 {
      assert iocs[0].name != iocs[i].name;
      assert DistinctNames(iocs[1..]) by {
        forall j, k | 0 <= j < k < |iocs[1..]| ensures iocs[1..][j].name != iocs[1..][k].name {
          assert iocs[j + 1].name != iocs[k + 1].name;
        }
      }
      assert iocs[i := d][1..] == iocs[1..][i - 1 := d];
      LookupReplaced(iocs[1..], i - 1, d, name);
    }
  }

  /** The points of the known categories; any other one weighs nothing. */
  lemma KnownWeights(name: string)
    ensures Weight(name) ==
      if name == "cves" then 8 else if name == "sha256" then 6 else if name == "sha1" then 5 else if name == "md5" then 4
      else if name in {"urls", "windows_registry_keys"} then 3 else if name in {"domains", "windows_file_paths"} then 2
      else if name in {"ipv4", "emails"} then 1 else 0
  {
    var table, k := IOC_WEIGHTS, WeightPosition(name);
    WeightsDistinct();
    if k >= 0 {
      assert table[k].0 == name;
      WeightAt(table, k);
    } else {
      forall i | 0 <= i < |table| ensures table[i].0 != name {
        assert WeightPosition(table[i].0) == i;
      }
      UnknownWeighsNothing(table, name);
    }
  }

  lemma {:induction false} WeightAt(table: seq<(string, nat)>, k: nat)
    requires DistinctKeys(table) && k < |table|
    ensures WeightIn(table, table[k].0) == table[k].1
  {
    if k > 0 {
      assert table[0].0 != table[k].0;
      assert DistinctKeys(table[1..]) by {
        forall i, j | 0 <= i < j < |table[1..]| ensures table[1..][i].0 != table[1..][j].0 {
          assert table[i + 1].0 != table[j + 1].0;
        }
      }
      WeightAt(table[1..], k - 1);
    }
  }
}
