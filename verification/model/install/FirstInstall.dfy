/** A first installation: its rows and the expected packages are in bijection. */
module FirstInstall {
  import opened Identities
  import opened Inventories
  import opened NativePlan
  import opened Options
  import opened Ordering
  import Transactions

  predicate Distinct(ss: seq<string>) {
    forall i, j :: 0 <= i < j < |ss| ==> ss[i] != ss[j]
  }

  function Elements(ss: seq<string>): (all: set<string>)
    ensures forall s :: s in all <==> s in ss
  {
    if ss == [] then {}
    else
      assert ss == ss[..|ss| - 1] + [ss[|ss| - 1]];
      Elements(ss[..|ss| - 1]) + {ss[|ss| - 1]}
  }

  lemma {:induction false} DistinctCount(ss: seq<string>)
    requires Distinct(ss)
    ensures |Elements(ss)| == |ss|
  {
    if ss != [] {
      var front := ss[..|ss| - 1];
      assert forall i :: 0 <= i < |front| ==> front[i] == ss[i];
      DistinctCount(front);
      assert ss[|ss| - 1] !in Elements(front);
    }
  }

  /** Distinct elements of a list of the same length are all of it. */
  lemma DistinctCover(ss: seq<string>, ts: seq<string>)
    requires Distinct(ss) && Distinct(ts) && |ss| == |ts| && forall s :: s in ss ==> s in ts
    ensures forall t :: t in ts ==> t in ss
  {
    DistinctCount(ss);
    DistinctCount(ts);
    Transactions.SubsetFull(Elements(ss), Elements(ts));
    assert forall t :: t in ts ==> t in Elements(ts);
  }

  function RowNames(rows: seq<Row>): (ss: seq<string>)
    ensures |ss| == |rows| && forall i :: 0 <= i < |rows| ==> ss[i] == rows[i].nevra
  {
    seq(|rows|, i requires 0 <= i < |rows| => rows[i].nevra)
  }

  function PackageIdentities(expected: seq<Package>): (ss: seq<string>)
    ensures |ss| == |expected| && forall i :: 0 <= i < |expected| ==> ss[i] == IdentityOf(expected[i])
  {
    seq(|expected|, i requires 0 <= i < |expected| => IdentityOf(expected[i]))
  }

  /** The row installs the package. */
  predicate Installs(row: Row, p: Package) {
    row.nevra == IdentityOf(p)
  }

  ghost predicate InstallsOne(row: Row, expected: seq<Package>) {
    exists k :: 0 <= k < |expected| && Installs(row, expected[k])
  }

  ghost predicate HasRow(rows: seq<Row>, p: Package) {
    exists i :: 0 <= i < |rows| && Installs(rows[i], p)
  }

  /** Every row installs exactly one expected package, and every expected package is installed by exactly one row. */
  ghost predicate InBijection(rows: seq<Row>, expected: seq<Package>) {
    && (forall i :: 0 <= i < |rows| ==> InstallsOne(rows[i], expected))
    && (forall k :: 0 <= k < |expected| ==> HasRow(rows, expected[k]))
    && (forall i, j :: 0 <= i < j < |rows| ==> rows[i].nevra != rows[j].nevra)
    && (forall k, l :: 0 <= k < l < |expected| ==> IdentityOf(expected[k]) != IdentityOf(expected[l]))
  }

  lemma IdentitiesDistinct(expected: seq<Package>)
    requires (forall i :: 0 <= i < |expected| ==> ValidPackage(expected[i])) && DistinctNames(expected)
    ensures forall k, l :: 0 <= k < l < |expected| ==> IdentityOf(expected[k]) != IdentityOf(expected[l])
  {
    hide ValidPackage, ValidInput, IdentityOf;
    forall k, l | 0 <= k < l < |expected| ensures IdentityOf(expected[k]) != IdentityOf(expected[l]) {
      ValidPackageIsInput(expected[k]);
      ValidPackageIsInput(expected[l]);
      IdentitiesDiffer(expected[k], expected[l]);
    }
  }

  lemma RowInstalls(row: Row, expected: seq<Package>)
    requires InstallFits(row, expected)
    ensures InstallsOne(row, expected)
  {
    hide IdentityOf, StoredRepository, SafePackagePath;
    var k :| 0 <= k < |expected| && IdentityOf(expected[k]) == row.nevra;
    assert Installs(row, expected[k]);
  }

  lemma Covered(rows: seq<Row>, expected: seq<Package>)
    requires |rows| == |expected| && forall i :: 0 <= i < |rows| ==> InstallsOne(rows[i], expected)
    requires forall i, j :: 0 <= i < j < |rows| ==> rows[i].nevra != rows[j].nevra
    requires forall k, l :: 0 <= k < l < |expected| ==> IdentityOf(expected[k]) != IdentityOf(expected[l])
    ensures forall k :: 0 <= k < |expected| ==> HasRow(rows, expected[k])
  {
    hide IdentityOf;
    var ss, ts := RowNames(rows), PackageIdentities(expected);
    forall s | s in ss ensures s in ts {
      var i :| 0 <= i < |ss| && ss[i] == s;
      var k :| 0 <= k < |expected| && Installs(rows[i], expected[k]);
      assert ts[k] == s;
    }
    DistinctCover(ss, ts);
    forall k | 0 <= k < |expected| ensures HasRow(rows, expected[k]) {
      assert ts[k] in ss;
      var i :| 0 <= i < |ss| && ss[i] == ts[k];
      assert Installs(rows[i], expected[k]);
    }
  }

  /** What parse_install accepts pairs its rows with the expected packages. */
  lemma RowsAndPackagesMatch(stored: Stored, expected: seq<Package>)
    requires InstallAccepted(stored, expected)
    ensures InBijection(stored.document.value.rpms, expected)
  {
    hide ValidPackage, IdentityOf, InstallFits;
    var rows := stored.document.value.rpms;
    IdentitiesDistinct(expected);
    forall i | 0 <= i < |rows| ensures InstallsOne(rows[i], expected) {
      RowInstalls(rows[i], expected);
    }
    Covered(rows, expected);
  }

  /** The plan of an accepted first installation binds every expected package, once, in the order of the identities. */
  lemma PlanBindsEach(stored: Stored, expected: seq<Package>, plan: Plan)
    requires InstallAccepted(stored, expected) && IsInstallPlan(plan, stored.document.value.rpms, expected)
    ensures Sorted(NevraLess, plan.packages) && |plan.packages| == |expected|
    ensures forall p :: p in expected ==> BindsPackage(plan, p)
  {
    hide ValidPackage, IdentityOf, InstallFits, RowsDiffer, NevraLess;
    var rows := stored.document.value.rpms;
    var bound: seq<BoundRpm> :| BindsRows(rows, expected, bound) && plan.packages == Sort(NevraLess, bound);
    NevraLessWeak();
    SortSorted(NevraLess, bound);
    assert |multiset(plan.packages)| == |multiset(bound)|;
    RowsAndPackagesMatch(stored, expected);
    forall p | p in expected ensures BindsPackage(plan, p) {
      var k :| 0 <= k < |expected| && expected[k] == p;
      assert HasRow(rows, p);
      var i :| 0 <= i < |rows| && Installs(rows[i], p);
      SamePackage(expected, k, bound[i].expected);
      assert bound[i] in multiset(bound);
      assert bound[i] in plan.packages;
    }
  }

  predicate BindsPackage(plan: Plan, p: Package) {
    exists b :: b in plan.packages && b.expected == p
  }

  lemma SamePackage(expected: seq<Package>, k: nat, q: Package)
    requires k < |expected| && q in expected && IdentityOf(q) == IdentityOf(expected[k])
    requires forall k, l :: 0 <= k < l < |expected| ==> IdentityOf(expected[k]) != IdentityOf(expected[l])
    ensures q == expected[k]
  {
    hide IdentityOf;
    var l :| 0 <= l < |expected| && expected[l] == q;
  }
}
