/** Finding the migration files (app/database/migration_runner.py): what a directory must hold
    for discovery to succeed, and the strict version order of what it then returns. */
module MigrationDiscovery {
  import opened Basics
  import opened Ordering
  import opened Decimal
  import opened MigrationRunner

  datatype Entry = Entry(name: string, isFile: bool, statements: seq<string>)

  datatype Discovery = Found(migrations: seq<Migration>) | NoDirectory | Malformed(name: string) | Duplicate(version: nat)

  predicate IsSqlFile(e: Entry)
  {
    e.isFile && |e.name| > 4 && e.name[|e.name| - 4..] == ".sql"
  }

  predicate IsWord(c: char)
  {
    IsDigit(c) || 'a' <= c <= 'z' || 'A' <= c <= 'Z' || c == '_'
  }

  /** The decimal digits of Unicode and what they are worth: the pattern and `int` take all of them. */
  type Digits = char -> Option<nat>

  /** Four digits, an underscore, at least one word character, `.sql`. */
  predicate WellFormedName(digits: Digits, name: string)
  {
    && |name| >= 10
    && (forall i :: 0 <= i < 4 ==> digits(name[i]).Some?)
    && name[4] == '_'
    && (forall i :: 5 <= i < |name| - 4 ==> IsWord(name[i]))
    && name[|name| - 4..] == ".sql"
  }

  function VersionOf(digits: Digits, name: string): nat
    requires WellFormedName(digits, name)
  {
    1000 * digits(name[0]).value + 100 * digits(name[1]).value + 10 * digits(name[2]).value + digits(name[3]).value
  }

  function MigrationOf(digits: Digits, e: Entry): Migration
    requires WellFormedName(digits, e.name)
  {
    Migration(VersionOf(digits, e.name), e.name, e.statements)
  }

  /** The name read by the pattern of the file names: the digits `d`, an underscore, the word `w`, the suffix. */
  predicate Matches(digits: Digits, name: string, d: string, w: string)
  {
    && name == d + "_" + w + ".sql" && |d| == 4 && w != []
    && (forall i :: 0 <= i < |d| ==> digits(d[i]).Some?) && (forall i :: 0 <= i < |w| ==> IsWord(w[i]))
  }

  /** A name is well formed exactly if the pattern matches it. */
  lemma WellFormedMatches(digits: Digits, name: string)
    ensures WellFormedName(digits, name) <==> exists d, w :: Matches(digits, name, d, w)
  {
    if WellFormedName(digits, name) {
      var d, w := name[..4], name[5..|name| - 4];
      assert name == name[..4] + [name[4]] + name[5..|name| - 4] + name[|name| - 4..];
      assert Matches(digits, name, d, w);
    }
    if d, w :| Matches(digits, name, d, w) {
      MatchIsWellFormed(digits, name, d, w);
    }
  }

  lemma MatchIsWellFormed(digits: Digits, name: string, d: string, w: string)
    requires Matches(digits, name, d, w)
    ensures WellFormedName(digits, name) && IsSqlFile(Entry(name, true, [])) && name[..4] == d
  {
    assert name[..4] == d && name[5..|name| - 4] == w && name[|name| - 4..] == ".sql";
    forall i | 0 <= i < 4 ensures digits(name[i]).Some? {
      assert name[i] == d[i];
    }
    forall i | 5 <= i < |name| - 4 ensures IsWord(name[i]) {
      assert name[i] == w[i - 5];
    }
  }

  /** The digits 0 to 9 are worth what they are in ASCII. */
  ghost predicate ReadsAscii(digits: Digits)
  {
    forall c: char :: IsDigit(c) ==> digits(c) == Some(DigitValue(c))
  }

  /** A file named after its version in four digits is a migration of that version. */
  lemma VersionReadsBack(digits: Digits, version: nat, w: string)
    requires ReadsAscii(digits) && version < 10000 && w != [] && forall i :: 0 <= i < |w| ==> IsWord(w[i])
    ensures var name := Padded(version, 4) + "_" + w + ".sql";
      IsSqlFile(Entry(name, true, [])) && WellFormedName(digits, name) && VersionOf(digits, name) == version
  {
    var d := Padded(version, 4);
    var name := d + "_" + w + ".sql";
    assert Pow10(2) == 100 && Pow10(4) == 100 * Pow10(2);
    PaddedWidth(version, 4);
    MatchIsWellFormed(digits, name, d, w);
    ValueOfPadded(version, 4);
    FourDigits(d);
    assert name[0] == d[0] && name[1] == d[1] && name[2] == d[2] && name[3] == d[3];
  }

  lemma FourDigits(d: string)
    requires |d| == 4 && AllDigits(d)
    ensures Value(d) == 1000 * DigitValue(d[0]) + 100 * DigitValue(d[1]) + 10 * DigitValue(d[2]) + DigitValue(d[3])
  {
    var c := d[..3];
    var b := c[..2];
    var a := b[..1];
    assert Value(a[..0]) == 0 && Value(a) == DigitValue(d[0]);
    assert Value(b) == 10 * Value(a) + DigitValue(d[1]);
    assert Value(c) == 10 * Value(b) + DigitValue(d[2]);
  }

  predicate EntryLeq(a: Entry, b: Entry) { TextLeq(a.name, b.name) }

  /** The listing that is gone through is in name order. */
  lemma ListingInNameOrder(directory: seq<Entry>, i: nat, j: nat)
    requires i < j < |directory|
    ensures TextLeq(Sort(EntryLeq, directory)[i].name, Sort(EntryLeq, directory)[j].name)
  {
    forall x: Entry, y: Entry ensures EntryLeq(x, y) || EntryLeq(y, x) {
      TextLeqTotal(x.name, y.name);
    }
    forall x: Entry, y: Entry, z: Entry | EntryLeq(x, y) && EntryLeq(y, z) ensures EntryLeq(x, z) {
      TextLeqTransitive(x.name, y.name, z.name);
    }
    SortSorted(EntryLeq, directory);
  }

  predicate AllWellFormed(digits: Digits, es: seq<Entry>)
  {
    forall e :: e in es && IsSqlFile(e) ==> WellFormedName(digits, e.name)
  }

  /** The migrations of a listing, in the listing's order. */
  function SqlMigrations(digits: Digits, es: seq<Entry>): seq<Migration>
    requires AllWellFormed(digits, es)
  {
    if es == [] then []
    else
      var init := SqlMigrations(digits, es[..|es| - 1]);
      if IsSqlFile(es[|es| - 1]) then init + [MigrationOf(digits, es[|es| - 1])] else init
  }

  predicate DistinctVersions(ms: seq<Migration>)
  {
    forall i, j :: 0 <= i < j < |ms| ==> ms[i].version != ms[j].version
  }

  function VersionLeq(a: Migration, b: Migration): bool
  {
    a.version <= b.version
  }

  /** The first `k` entries raise no error. */
  predicate Fine(digits: Digits, listing: seq<Entry>, k: nat)
    requires k <= |listing|
  {
    AllWellFormed(digits, listing[..k]) && DistinctVersions(SqlMigrations(digits, listing[..k]))
  }

  /** Entry number `k` is the first to raise an error, and `r` is that error: a malformed name, or a
      version that an earlier file has claimed. */
  predicate FailsAt(digits: Digits, listing: seq<Entry>, k: nat, r: Discovery)
  {
    && k < |listing| && IsSqlFile(listing[k]) && Fine(digits, listing, k)
    && if !WellFormedName(digits, listing[k].name) then r == Malformed(listing[k].name)
       else && r == Duplicate(VersionOf(digits, listing[k].name))
            && exists m :: m in SqlMigrations(digits, listing[..k]) && m.version == VersionOf(digits, listing[k].name)
  }

  predicate Claims(ms: seq<Migration>, version: nat)
  {
    exists k :: 0 <= k < |ms| && ms[k].version == version
  }

  /** The next entry is skipped, adds its migration, or is the first to raise an error. */
  lemma NextEntry(digits: Digits, listing: seq<Entry>, k: nat)
    requires k < |listing| && Fine(digits, listing, k)
    ensures var e := listing[k]; var ms := SqlMigrations(digits, listing[..k]);
      if !IsSqlFile(e) then Fine(digits, listing, k + 1) && SqlMigrations(digits, listing[..k + 1]) == ms
      else if !WellFormedName(digits, e.name) then FailsAt(digits, listing, k, Malformed(e.name))
      else if Claims(ms, VersionOf(digits, e.name)) then FailsAt(digits, listing, k, Duplicate(VersionOf(digits, e.name)))
      else Fine(digits, listing, k + 1) && SqlMigrations(digits, listing[..k + 1]) == ms + [MigrationOf(digits, e)]
  {
    var e, ms := listing[k], SqlMigrations(digits, listing[..k]);
    assert listing[..k + 1] == listing[..k] + [e] && listing[..k + 1][..k] == listing[..k];
    if IsSqlFile(e) && WellFormedName(digits, e.name) && Claims(ms, VersionOf(digits, e.name)) {
      var j :| 0 <= j < |ms| && ms[j].version == VersionOf(digits, e.name);
      assert ms[j] in ms;
    }
  }

  /** An error at one entry is an error of the whole listing. */
  lemma FailureIsFinal(digits: Digits, listing: seq<Entry>, k: nat, r: Discovery)
    requires FailsAt(digits, listing, k, r)
    ensures !Fine(digits, listing, |listing|)
  {
    assert listing[..|listing|] == listing && listing[k] in listing;
    if AllWellFormed(digits, listing) {
      var e, ms := listing[k], SqlMigrations(digits, listing[..k]);
      var m :| m in ms && m.version == VersionOf(digits, e.name);
      var j :| 0 <= j < |ms| && ms[j] == m;
      assert listing[..k + 1] == listing[..k] + [e] && listing[..k + 1][..k] == listing[..k];
      assert AllWellFormed(digits, listing[..k + 1]);
      var both := SqlMigrations(digits, listing[..k + 1]);
      assert both == ms + [MigrationOf(digits, e)];
      assert both[j].version == both[|ms|].version;
      DuplicateStays(digits, listing, k + 1);
    }
  }

  /** The directory is gone through in name order, and the first error stops it. */
  method DiscoverMigrations(isDirectory: bool, directory: seq<Entry>, digits: Digits) returns (r: Discovery)
    ensures r == NoDirectory <==> !isDirectory
    ensures var listing := Sort(EntryLeq, directory);
      && (r.Found? <==> isDirectory && Fine(digits, listing, |listing|))
      && (r.Found? ==> Ordered(r.migrations) && multiset(r.migrations) == multiset(SqlMigrations(digits, listing[..|listing|])))
      && (r.Malformed? || r.Duplicate? ==> exists k :: FailsAt(digits, listing, k, r))
  {
    if !isDirectory {
      return NoDirectory;
    }
    r := GoThrough(Sort(EntryLeq, directory), digits);
  }

  method GoThrough(listing: seq<Entry>, digits: Digits) returns (r: Discovery)
    ensures r != NoDirectory && (r.Found? <==> Fine(digits, listing, |listing|))
    ensures r.Found? ==>
              && Ordered(r.migrations)
              && multiset(r.migrations) == multiset(SqlMigrations(digits, listing[..|listing|]))
    ensures r.Malformed? || r.Duplicate? ==> exists k :: FailsAt(digits, listing, k, r)
  {
    var migrations: seq<Migration> := [];
    var seen: set<nat> := {};
    for i := 0 to |listing|
      invariant Fine(digits, listing, i) && migrations == SqlMigrations(digits, listing[..i])
      invariant forall v :: v in seen <==> Claims(migrations, v)
    {
      var e := listing[i];
      NextEntry(digits, listing, i);
      if !IsSqlFile(e) {
        continue;
      }
      if !WellFormedName(digits, e.name) {
        r := Malformed(e.name);
        FailureIsFinal(digits, listing, i, r);
        return;
      }
      var version := VersionOf(digits, e.name);
      if version in seen {
        r := Duplicate(version);
        FailureIsFinal(digits, listing, i, r);
        return;
      }
      ClaimsMore(migrations, MigrationOf(digits, e));
      seen := seen + {version};
      migrations := migrations + [MigrationOf(digits, e)];
    }
    SortedVersionsAreOrdered(migrations);
    return Found(Sort(VersionLeq, migrations));
  }

  lemma ClaimsMore(ms: seq<Migration>, m: Migration)
    ensures forall v :: Claims(ms + [m], v) <==> Claims(ms, v) || v == m.version
  {
    forall v | Claims(ms, v) ensures Claims(ms + [m], v) {
      var k :| 0 <= k < |ms| && ms[k].version == v;
      assert (ms + [m])[k] == ms[k];
    }
    assert (ms + [m])[|ms|] == m;
  }

  /** A clash among the first files is a clash of the whole listing. */
  lemma {:induction false} DuplicateStays(digits: Digits, es: seq<Entry>, n: nat)
    requires AllWellFormed(digits, es) && n <= |es|
    ensures AllWellFormed(digits, es[..n])
    ensures !DistinctVersions(SqlMigrations(digits, es[..n])) ==> !DistinctVersions(SqlMigrations(digits, es))
    decreases |es| - n
  {
    if n == |es| {
      assert es[..n] == es;
    } else {
      DuplicateStays(digits, es, n + 1);
      assert es[..n + 1][..n] == es[..n];
      var a, b := SqlMigrations(digits, es[..n]), SqlMigrations(digits, es[..n + 1]);
      assert a <= b;
    }
  }

  lemma SortedVersionsAreOrdered(ms: seq<Migration>)
    requires DistinctVersions(ms)
    ensures Ordered(Sort(VersionLeq, ms))
  {
    SortSorted(VersionLeq, ms);
    var s := Sort(VersionLeq, ms);
    forall i, j | 0 <= i < j < |s| ensures s[i].version < s[j].version {
      assert VersionLeq(s[i], s[j]);
      if s[i].version == s[j].version {
        TwiceMeansTwice(ms, s, i, j);
      }
    }
  }

  /** Two places of a rearrangement with one version are two places of the original. */
  lemma TwiceMeansTwice(ms: seq<Migration>, s: seq<Migration>, i: nat, j: nat)
    requires multiset(ms) == multiset(s) && i < j < |s| && s[i].version == s[j].version
    ensures !DistinctVersions(ms)
  {
    assert s[i] in multiset(ms) && s[j] in multiset(ms);
    var p :| 0 <= p < |ms| && ms[p] == s[i];
    if s[i] != s[j] {
      var q :| 0 <= q < |ms| && ms[q] == s[j];
      assert p < q || q < p;
    } else {
      Pair(s, i, j);
      var rest := ms[..p] + ms[p + 1..];
      assert ms == ms[..p] + [ms[p]] + ms[p + 1..];
      assert multiset(ms) == multiset(rest) + multiset{ms[p]};
      assert s[i] in multiset(rest);
      var q :| 0 <= q < |rest| && rest[q] == s[i];
      assert ms[if q < p then q else q + 1] == s[i];
    }
  }

  lemma Pair(s: seq<Migration>, i: nat, j: nat)
    requires i < j < |s| && s[i] == s[j]
    ensures multiset(s)[s[i]] >= 2
  {
    assert s == s[..j] + [s[j]] + s[j + 1..];
    assert s[..j][i] == s[i];
    assert s[i] in multiset(s[..j]);
  }
}
