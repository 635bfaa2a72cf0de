/** The native installation plan: which transactions are accepted. */
module NativePlan {
  import opened Bytes
  import opened Identities
  import opened Inventories
  import opened Options
  import opened Ordering

  // ---- the stored transaction ----

  datatype Row = Row(nevra: string, action: string, reason: string, repoId: string, path: Option<string>)

  datatype Document = Document(version: string, rpms: seq<Row>)

  /** The bytes of a stored transaction: how many, and the document they hold if they hold one. */
  datatype Stored = Stored(length: nat, document: Option<Document>)

  const MAX_TRANSACTION_BYTES: nat := 8_388_608

  datatype Order = Earlier | Same | Later

  /** RPM's own comparison; None when it fails. */
  type Compare = (string, string) -> Option<Order>

  // ---- what the inventory needs ----

  function IdentityOf(p: Package): string {
    NativeIdentity(p.name, p.nevr, p.arch)
  }

  function RecordIdentity(r: InstalledRpm): string {
    NativeIdentity(r.name, r.evr, r.arch)
  }

  function Installed(inventory: Inventory, p: Package): set<InstalledRpm> {
    set r | r in inventory && r.name == p.name && r.arch == p.arch
  }

  /** The package is installed once, at its version. */
  ghost predicate Current(inventory: Inventory, p: Package) {
    exists r :: Installed(inventory, p) == {r} && r.evr == p.nevr
  }

  predicate Missing(inventory: Inventory, p: Package) {
    Installed(inventory, p) == {}
  }

  /** The package is installed once, at an older version. */
  predicate Outdated(inventory: Inventory, p: Package, compare: Compare, prior: InstalledRpm) {
    Installed(inventory, p) == {prior} && prior.evr != p.nevr && compare(prior.evr, p.nevr) == Some(Earlier)
  }

  /** A package that has to come in, and the identity it replaces. */
  datatype Incoming = Incoming(package: Package, supersedes: Option<string>)

  /** The package has to come in like this. */
  ghost predicate Wanted(inventory: Inventory, compare: Compare, w: Incoming) {
    match w.supersedes
    case None => Missing(inventory, w.package)
    case Some(identity) =>
      exists prior :: Outdated(inventory, w.package, compare, prior) && identity == RecordIdentity(prior)
  }

  predicate DistinctNames(expected: seq<Package>) {
    forall i, j :: 0 <= i < j < |expected| ==> expected[i].name != expected[j].name
  }

  /** The package is current, or on its way in. */
  ghost predicate Served(inventory: Inventory, compare: Compare, incoming: map<string, Incoming>, p: Package) {
    || Current(inventory, p)
    || (&& IdentityOf(p) in incoming && incoming[IdentityOf(p)].package == p
        && Wanted(inventory, compare, incoming[IdentityOf(p)]))
  }

  /** incoming is what the expected packages need, and replacements what they replace. */
  ghost predicate Needs(
    inventory: Inventory, expected: seq<Package>, compare: Compare, incoming: map<string, Incoming>,
    replacements: set<string>)
  {
    && DistinctNames(expected)
    && (forall i :: 0 <= i < |expected| ==> Served(inventory, compare, incoming, expected[i]))
    && (forall id :: id in incoming ==>
          && incoming[id].package in expected && id == IdentityOf(incoming[id].package)
          && Wanted(inventory, compare, incoming[id]))
    && (forall id :: id in incoming && incoming[id].supersedes.Some? ==> incoming[id].supersedes.value in replacements)
    && forall s :: s in replacements ==> Replaces(incoming, s)
  }

  predicate Replaces(incoming: map<string, Incoming>, s: string) {
    exists id :: id in incoming && incoming[id].supersedes == Some(s)
  }

  lemma IdentitiesDiffer(a: Package, b: Package)
    requires ValidInput(a) && ValidInput(b) && a.name != b.name
    ensures IdentityOf(a) != IdentityOf(b)
  {
    hide ValidTriple, NativeIdentity;
    if IdentityOf(a) == IdentityOf(b) {
      IdentityInjective(Triple(a.name, a.nevr, a.arch), Triple(b.name, b.nevr, b.arch));
    }
  }

  lemma NeedsMore(
    inventory: Inventory, expected: seq<Package>, n: nat, compare: Compare, incoming: map<string, Incoming>,
    replacements: set<string>, supersedes: Option<string>)
    requires n < |expected| && forall i :: 0 <= i <= n ==> ValidInput(expected[i])
    requires Needs(inventory, expected[..n], compare, incoming, replacements) && DistinctNames(expected[..n + 1])
    requires Wanted(inventory, compare, Incoming(expected[n], supersedes))
    ensures IdentityOf(expected[n]) !in incoming
    ensures Needs(inventory, expected[..n + 1], compare,
                  incoming[IdentityOf(expected[n]) := Incoming(expected[n], supersedes)],
                  replacements + if supersedes.Some? then {supersedes.value} else {})
  {
    hide ValidInput, Wanted, Current, NativeIdentity, IdentityOf;
    var p, front := expected[n], expected[..n];
    assert expected[..n + 1] == front + [p];
    if IdentityOf(p) in incoming {
      var q := incoming[IdentityOf(p)].package;
      var i :| 0 <= i < n && front[i] == q;
      assert expected[..n + 1][i] == q && expected[..n + 1][n] == p;
      IdentitiesDiffer(q, p);
      assert false;
    }
    var after := incoming[IdentityOf(p) := Incoming(p, supersedes)];
    forall i | 0 <= i < n ensures Served(inventory, compare, after, expected[i]) {
      assert Served(inventory, compare, incoming, front[i]);
      assert expected[..n + 1][i] == expected[i] && expected[..n + 1][n] == p;
      IdentitiesDiffer(expected[i], p);
    }
    forall s | Replaces(incoming, s) ensures Replaces(after, s) {
      var id :| id in incoming && incoming[id].supersedes == Some(s);
      assert id in after && after[id].supersedes == Some(s);
    }
    assert supersedes.Some? ==> after[IdentityOf(p)].supersedes == Some(supersedes.value);
  }

  lemma NeedsSame(
    inventory: Inventory, expected: seq<Package>, n: nat, compare: Compare, incoming: map<string, Incoming>,
    replacements: set<string>)
    requires n < |expected| && Needs(inventory, expected[..n], compare, incoming, replacements)
    requires DistinctNames(expected[..n + 1]) && Current(inventory, expected[n])
    ensures Needs(inventory, expected[..n + 1], compare, incoming, replacements)
  {
    hide Wanted, Current, NativeIdentity, IdentityOf;
    assert expected[..n + 1] == expected[..n] + [expected[n]];
    forall i | 0 <= i < n ensures Served(inventory, compare, incoming, expected[i]) {
      assert Served(inventory, compare, incoming, expected[..n][i]);
    }
  }

  /** The first part of parse_inputs: what every expected package needs, unless one cannot be planned. */
  method CollectNeeds(expected: seq<Package>, inventory: Inventory, compare: Compare)
    returns (r: Option<(map<string, Incoming>, set<string>)>)
    requires forall i :: 0 <= i < |expected| ==> ValidInput(expected[i])
    ensures r.Some? ==> Needs(inventory, expected, compare, r.value.0, r.value.1)
    ensures r.None? ==> forall incoming, replacements :: !Needs(inventory, expected, compare, incoming, replacements)
  {
    hide ValidInput, NativeIdentity, IdentityOf, Needs, Current, Wanted;
    var names: set<string> := {};
    var incoming: map<string, Incoming>, replacements: set<string> := map[], {};
    NothingNeeded(inventory, expected, compare);
    for i := 0 to |expected|
      invariant forall name :: name in names <==> exists k :: 0 <= k < i && expected[k].name == name
      invariant DistinctNames(expected[..i]) && Needs(inventory, expected[..i], compare, incoming, replacements)
    {
      var p := expected[i];
      if p.name in names {
        RepeatedName(inventory, expected, i, compare);
        return None;
      }
      NextName(expected, i);
      names := names + {p.name};
      var installed := Installed(inventory, p);
      if installed == {} {
        IsWanted(inventory, compare, p);
        NeedsMore(inventory, expected, i, compare, incoming, replacements, None);
        incoming := incoming[IdentityOf(p) := Incoming(p, None)];
        assert replacements + {} == replacements;
      } else {
        var prior :| prior in installed;
        if installed != {prior} {
          Unplannable(inventory, expected, i, compare, prior);
          return None;
        }
        if prior.evr == p.nevr {
          IsCurrent(inventory, p, prior);
          NeedsSame(inventory, expected, i, compare, incoming, replacements);
        } else {
          if compare(prior.evr, p.nevr) != Some(Earlier) {
            Unplannable(inventory, expected, i, compare, prior);
            return None;
          }
          var identity := RecordIdentity(prior);
          IsOutdated(inventory, compare, p, prior);
          NeedsMore(inventory, expected, i, compare, incoming, replacements, Some(identity));
          replacements := replacements + {identity};
          incoming := incoming[IdentityOf(p) := Incoming(p, Some(identity))];
        }
      }
    }
    assert expected[..|expected|] == expected;
    return Some((incoming, replacements));
  }

  lemma NothingNeeded(inventory: Inventory, expected: seq<Package>, compare: Compare)
    ensures Needs(inventory, expected[..0], compare, map[], {})
  {
  }

  lemma RepeatedName(inventory: Inventory, expected: seq<Package>, i: nat, compare: Compare)
    requires i < |expected| && exists k :: 0 <= k < i && expected[k].name == expected[i].name
    ensures forall incoming, replacements :: !Needs(inventory, expected, compare, incoming, replacements)
  {
  }

  lemma NextName(expected: seq<Package>, i: nat)
    requires i < |expected| && DistinctNames(expected[..i])
    requires forall k :: 0 <= k < i ==> expected[k].name != expected[i].name
    ensures DistinctNames(expected[..i + 1])
  {
    var front, next := expected[..i], expected[..i + 1];
    forall j, k | 0 <= j < k < i + 1 ensures next[j].name != next[k].name {
      assert k < i ==> next[j] == front[j] && next[k] == front[k];
    }
  }

  lemma IsWanted(inventory: Inventory, compare: Compare, p: Package)
    requires Installed(inventory, p) == {}
    ensures Wanted(inventory, compare, Incoming(p, None))
  {
  }

  lemma IsCurrent(inventory: Inventory, p: Package, r: InstalledRpm)
    requires Installed(inventory, p) == {r} && r.evr == p.nevr
    ensures Current(inventory, p)
  {
  }

  lemma IsOutdated(inventory: Inventory, compare: Compare, p: Package, prior: InstalledRpm)
    requires Outdated(inventory, p, compare, prior)
    ensures Wanted(inventory, compare, Incoming(p, Some(RecordIdentity(prior))))
  {
  }

  lemma NeverServed(
    inventory: Inventory, compare: Compare, incoming: map<string, Incoming>, p: Package, prior: InstalledRpm)
    requires prior in Installed(inventory, p)
    requires Installed(inventory, p) != {prior} || (prior.evr != p.nevr && compare(prior.evr, p.nevr) != Some(Earlier))
    ensures !Served(inventory, compare, incoming, p)
  {
    hide Installed, NativeIdentity;
  }

  /** Two records of the package, or one that is not older, and no plan fits. */
  lemma Unplannable(inventory: Inventory, expected: seq<Package>, i: nat, compare: Compare, prior: InstalledRpm)
    requires i < |expected| && prior in Installed(inventory, expected[i])
    requires Installed(inventory, expected[i]) != {prior}
          || (prior.evr != expected[i].nevr && compare(prior.evr, expected[i].nevr) != Some(Earlier))
    ensures forall incoming, replacements :: !Needs(inventory, expected, compare, incoming, replacements)
  {
    hide Installed, Served;
    forall incoming, replacements ensures !Needs(inventory, expected, compare, incoming, replacements) {
      NeverServed(inventory, compare, incoming, expected[i], prior);
    }
  }

  // ---- matching the rows ----

  predicate SafePackagePath(path: string) {
    && "./packages/" <= path
    && var filename := path[11..];
       && 0 < |filename| <= 512 && EndsWith(filename, ".rpm") && IsAlphanumeric(filename[0])
       && forall i :: 0 <= i < |filename| ==> IsAlphanumeric(filename[i]) || filename[i] in "-_.+~^"
  }

  predicate ValidRepositoryId(id: string) {
    0 < |id| <= 128 && forall i :: 0 <= i < |id| ==> IsAlphanumeric(id[i]) || id[i] in "-_."
  }

  function StoredRepository(id: string): string {
    "@stored_transaction(" + id + ")"
  }

  predicate KnownRepository(repoId: string, repositoryId: string) {
    || repoId == StoredRepository("@commandline") || repoId == StoredRepository("fedora")
    || repoId == StoredRepository("updates") || repoId == StoredRepository(repositoryId)
  }

  predicate IsReplaced(row: Row) {
    row.action == "Replaced"
  }

  predicate ReplacedFits(row: Row, replacements: set<string>) {
    row.repoId == "@System" && row.path.None? && row.nevra in replacements
  }

  predicate IncomingFits(row: Row, incoming: map<string, Incoming>, repositoryId: string) {
    && row.nevra in incoming
    && var w := incoming[row.nevra];
       && row.action == (if w.supersedes.Some? then "Upgrade" else "Install")
       && KnownRepository(row.repoId, repositoryId)
       && row.path.Some? && SafePackagePath(row.path.value) && row.path.value == "./packages/" + w.package.filename
  }

  /** The row is one of those the plan needs. */
  predicate Fits(row: Row, incoming: map<string, Incoming>, replacements: set<string>, repositoryId: string) {
    && (row.reason == "User" || row.reason == "Dependency")
    && if IsReplaced(row) then ReplacedFits(row, replacements) else IncomingFits(row, incoming, repositoryId)
  }

  /** No replaced identity, incoming identity or path stands twice. */
  predicate NoneTwice(rows: seq<Row>) {
    forall i, j :: 0 <= i < j < |rows| && (IsReplaced(rows[i]) <==> IsReplaced(rows[j])) ==>
      rows[i].nevra != rows[j].nevra && (!IsReplaced(rows[i]) ==> rows[i].path != rows[j].path)
  }

  predicate AllFit(rows: seq<Row>, incoming: map<string, Incoming>, replacements: set<string>, repositoryId: string) {
    forall i :: 0 <= i < |rows| ==> Fits(rows[i], incoming, replacements, repositoryId)
  }

  /** The rows are exactly what is needed: each fits, none twice, and there are as many. */
  predicate Matches(rows: seq<Row>, incoming: map<string, Incoming>, replacements: set<string>, repositoryId: string) {
    AllFit(rows, incoming, replacements, repositoryId) && NoneTwice(rows) && |rows| == |incoming| + |replacements|
  }

  datatype BoundRpm = BoundRpm(
    native: Row, sha256: string, supersedes: Option<string>, expected: Package, project: bool)

  function Bound(row: Row, w: Incoming, projectInputs: seq<Package>): BoundRpm {
    BoundRpm(row, w.package.sha256, w.supersedes, w.package,
             exists i :: 0 <= i < |projectInputs| && projectInputs[i].name == w.package.name)
  }

  /** The bound packages of the rows, in their order. */
  function BoundRows(rows: seq<Row>, incoming: map<string, Incoming>, projectInputs: seq<Package>): seq<BoundRpm>
    requires forall i :: 0 <= i < |rows| && !IsReplaced(rows[i]) ==> rows[i].nevra in incoming
  {
    if rows == [] then []
    else
      var front, row := rows[..|rows| - 1], rows[|rows| - 1];
      BoundRows(front, incoming, projectInputs)
      + if IsReplaced(row) then [] else [Bound(row, incoming[row.nevra], projectInputs)]
  }

  /** What is left once the first n rows are used up. */
  ghost predicate Left(
    rows: seq<Row>, n: nat, incoming: map<string, Incoming>, replacements: set<string>, repositoryId: string,
    rest: map<string, Incoming>, left: set<string>, paths: set<string>)
    requires n <= |rows|
  {
    && (forall i :: 0 <= i < n ==> Fits(rows[i], incoming, replacements, repositoryId))
    && NoneTwice(rows[..n])
    && (forall id :: id in rest <==> id in incoming && !(exists i :: 0 <= i < n && UsesIncoming(rows[i], id)))
    && (forall id :: id in rest ==> rest[id] == incoming[id])
    && (forall s :: s in left <==> s in replacements && !(exists i :: 0 <= i < n && UsesReplacement(rows[i], s)))
    && (forall p :: p in paths <==> exists i :: 0 <= i < n && UsesPath(rows[i], p))
    && |rest| + |left| == |incoming| + |replacements| - n
  }

  predicate UsesIncoming(row: Row, id: string) {
    !IsReplaced(row) && row.nevra == id
  }

  predicate UsesReplacement(row: Row, s: string) {
    IsReplaced(row) && row.nevra == s
  }

  predicate UsesPath(row: Row, p: string) {
    !IsReplaced(row) && row.path == Some(p)
  }

  lemma LeftAfterReplaced(
    rows: seq<Row>, n: nat, incoming: map<string, Incoming>, replacements: set<string>, repositoryId: string,
    rest: map<string, Incoming>, left: set<string>, paths: set<string>)
    requires n < |rows| && Left(rows, n, incoming, replacements, repositoryId, rest, left, paths)
    requires Fits(rows[n], incoming, replacements, repositoryId) && IsReplaced(rows[n]) && rows[n].nevra in left
    ensures Left(rows, n + 1, incoming, replacements, repositoryId, rest, left - {rows[n].nevra}, paths)
  {
    hide Fits;
    NoneTwiceNext(rows, n);
    forall i | 0 <= i < n && IsReplaced(rows[i]) ensures rows[i].nevra != rows[n].nevra {
      assert UsesReplacement(rows[i], rows[i].nevra);
    }
    assert UsesReplacement(rows[n], rows[n].nevra);
  }

  lemma LeftAfterIncoming(
    rows: seq<Row>, n: nat, incoming: map<string, Incoming>, replacements: set<string>, repositoryId: string,
    rest: map<string, Incoming>, left: set<string>, paths: set<string>)
    requires n < |rows| && Left(rows, n, incoming, replacements, repositoryId, rest, left, paths)
    requires Fits(rows[n], incoming, replacements, repositoryId) && !IsReplaced(rows[n]) && rows[n].nevra in rest
    requires rows[n].path.Some? && rows[n].path.value !in paths
    ensures Left(rows, n + 1, incoming, replacements, repositoryId, rest - {rows[n].nevra}, left,
                 paths + {rows[n].path.value})
  {
    hide Fits;
    NoneTwiceNext(rows, n);
    forall i | 0 <= i < n && !IsReplaced(rows[i])
      ensures rows[i].nevra != rows[n].nevra && rows[i].path != rows[n].path
    {
      assert UsesIncoming(rows[i], rows[i].nevra);
      assert rows[i].path.Some? ==> UsesPath(rows[i], rows[i].path.value);
    }
    assert UsesIncoming(rows[n], rows[n].nevra) && UsesPath(rows[n], rows[n].path.value);
    assert (rest - {rows[n].nevra}).Keys == rest.Keys - {rows[n].nevra};
    hide NoneTwice;
  }

  lemma NoneTwiceNext(rows: seq<Row>, n: nat)
    requires n < |rows| && NoneTwice(rows[..n])
    ensures (forall i :: 0 <= i < n && (IsReplaced(rows[i]) <==> IsReplaced(rows[n])) ==>
               rows[i].nevra != rows[n].nevra && (!IsReplaced(rows[i]) ==> rows[i].path != rows[n].path))
            ==> NoneTwice(rows[..n + 1])
  {
    var front, next := rows[..n], rows[..n + 1];
    assert forall i :: 0 <= i < n ==> next[i] == front[i] == rows[i];
  }

  lemma NoneUsed(rows: seq<Row>, incoming: map<string, Incoming>, replacements: set<string>, repositoryId: string)
    ensures Left(rows, 0, incoming, replacements, repositoryId, incoming, replacements, {})
  {
  }

  /** The loop over the rows: each uses up one needed identity, and nothing needed is left over. */
  method MatchRows(
    rows: seq<Row>, incoming: map<string, Incoming>, replacements: set<string>, repositoryId: string,
    projectInputs: seq<Package>)
    returns (r: Option<seq<BoundRpm>>)
    requires |rows| == |incoming| + |replacements|
    ensures r.Some? <==> Matches(rows, incoming, replacements, repositoryId)
    ensures r.Some? ==> r.value == BoundRows(rows, incoming, projectInputs)
  {
    hide Left, Fits, SafePackagePath, KnownRepository, Bound;
    var rest, left := incoming, replacements;
    var paths: set<string>, packages: seq<BoundRpm> := {}, [];
    NoneUsed(rows, incoming, replacements, repositoryId);
    for i := 0 to |rows|
      invariant Left(rows, i, incoming, replacements, repositoryId, rest, left, paths)
      invariant forall k :: 0 <= k < i && !IsReplaced(rows[k]) ==> rows[k].nevra in incoming
      invariant packages == BoundRows(rows[..i], incoming, projectInputs)
    {
      var native := rows[i];
      assert rows[..i + 1][..i] == rows[..i];
      LeftMeans(rows, i, incoming, replacements, repositoryId, rest, left, paths);
      if native.reason != "User" && native.reason != "Dependency" {
        Misfit(rows, i, incoming, replacements, repositoryId);
        return None;
      }
      if native.action == "Replaced" {
        if native.repoId != "@System" || native.path.Some? || native.nevra !in left {
          ReplacedMisfit(rows, i, incoming, replacements, repositoryId, rest, left, paths);
          return None;
        }
        FitsReplaced(native, incoming, replacements, repositoryId);
        LeftAfterReplaced(rows, i, incoming, replacements, repositoryId, rest, left, paths);
        left := left - {native.nevra};
      } else {
        if native.nevra !in rest || native.path.None? {
          IncomingMisfit(rows, i, incoming, replacements, repositoryId, rest, left, paths);
          return None;
        }
        var w, path := rest[native.nevra], native.path.value;
        var action := if w.supersedes.Some? then "Upgrade" else "Install";
        if native.action != action || !KnownRepository(native.repoId, repositoryId) || !SafePackagePath(path)
           || path != "./packages/" + w.package.filename || path in paths {
          IncomingMisfit(rows, i, incoming, replacements, repositoryId, rest, left, paths);
          return None;
        }
        FitsIncoming(native, incoming, replacements, repositoryId);
        LeftAfterIncoming(rows, i, incoming, replacements, repositoryId, rest, left, paths);
        packages := packages + [Bound(native, w, projectInputs)];
        rest := rest - {native.nevra};
        paths := paths + {path};
      }
    }
    assert rows[..|rows|] == rows;
    LeftMeans(rows, |rows|, incoming, replacements, repositoryId, rest, left, paths);
    return Some(packages);
  }

  lemma LeftMeans(
    rows: seq<Row>, n: nat, incoming: map<string, Incoming>, replacements: set<string>, repositoryId: string,
    rest: map<string, Incoming>, left: set<string>, paths: set<string>)
    requires n <= |rows| && Left(rows, n, incoming, replacements, repositoryId, rest, left, paths)
    ensures forall id :: id in rest ==> id in incoming && rest[id] == incoming[id]
    ensures left <= replacements
    ensures n == |rows| ==> AllFit(rows, incoming, replacements, repositoryId) && NoneTwice(rows)
  {
    hide Fits;
    if n == |rows| {
      assert rows[..n] == rows;
    }
  }

  lemma Misfit(rows: seq<Row>, i: nat, incoming: map<string, Incoming>, replacements: set<string>, repositoryId: string)
    requires i < |rows| && rows[i].reason != "User" && rows[i].reason != "Dependency"
    ensures !Matches(rows, incoming, replacements, repositoryId)
  {
    hide IncomingFits;
    assert !Fits(rows[i], incoming, replacements, repositoryId);
  }

  lemma FitsReplaced(row: Row, incoming: map<string, Incoming>, replacements: set<string>, repositoryId: string)
    requires (row.reason == "User" || row.reason == "Dependency") && IsReplaced(row) && ReplacedFits(row, replacements)
    ensures Fits(row, incoming, replacements, repositoryId)
  {
  }

  lemma FitsIncoming(row: Row, incoming: map<string, Incoming>, replacements: set<string>, repositoryId: string)
    requires (row.reason == "User" || row.reason == "Dependency") && !IsReplaced(row)
    requires IncomingFits(row, incoming, repositoryId)
    ensures Fits(row, incoming, replacements, repositoryId)
  {
  }

  lemma ReplacedMisfit(
    rows: seq<Row>, i: nat, incoming: map<string, Incoming>, replacements: set<string>, repositoryId: string,
    rest: map<string, Incoming>, left: set<string>, paths: set<string>)
    requires i < |rows| && Left(rows, i, incoming, replacements, repositoryId, rest, left, paths)
    requires IsReplaced(rows[i])
    requires rows[i].repoId != "@System" || rows[i].path.Some? || rows[i].nevra !in left
    ensures !Matches(rows, incoming, replacements, repositoryId)
  {
    hide IncomingFits;
    if rows[i].repoId != "@System" || rows[i].path.Some? || rows[i].nevra !in replacements {
      assert !Fits(rows[i], incoming, replacements, repositoryId);
    } else {
      var k :| 0 <= k < i && UsesReplacement(rows[k], rows[i].nevra);
      assert !NoneTwice(rows);
    }
  }

  lemma IncomingMisfit(
    rows: seq<Row>, i: nat, incoming: map<string, Incoming>, replacements: set<string>, repositoryId: string,
    rest: map<string, Incoming>, left: set<string>, paths: set<string>)
    requires i < |rows| && Left(rows, i, incoming, replacements, repositoryId, rest, left, paths)
    requires !IsReplaced(rows[i])
    requires rows[i].nevra !in rest || rows[i].path.None? || rows[i].path.value in paths
          || !IncomingFits(rows[i], incoming, repositoryId)
    ensures !Matches(rows, incoming, replacements, repositoryId)
  {
    hide SafePackagePath, KnownRepository;
    if !IncomingFits(rows[i], incoming, repositoryId) {
      assert !Fits(rows[i], incoming, replacements, repositoryId);
    } else if rows[i].nevra !in rest {
      var k :| 0 <= k < i && UsesIncoming(rows[k], rows[i].nevra);
      assert !NoneTwice(rows);
    } else {
      var k :| 0 <= k < i && UsesPath(rows[k], rows[i].path.value);
      assert !NoneTwice(rows);
    }
  }

  // ---- parse_inputs ----

  /** The packages of an accepted plan, sorted by their native identity. */
  datatype Plan = Plan(packages: seq<BoundRpm>)

  /** The byte order of the identities; those a plan binds are ASCII. */
  predicate NevraLess(a: BoundRpm, b: BoundRpm) {
    Less(Ascii(a.native.nevra), Ascii(b.native.nevra))
  }

  lemma NevraLessWeak()
    ensures StrictWeak(NevraLess)
  {
    hide Ascii, Less;
    LessStrictTotal();
    TotalIsWeak(Less);
  }

  /** The transaction is the one needed: none at all when nothing is, else a document whose rows match. */
  predicate TransactionFits(
    transaction: Option<Stored>, incoming: map<string, Incoming>, replacements: set<string>, repositoryId: string)
  {
    match transaction
    case None => incoming == map[]
    case Some(stored) =>
      && incoming != map[] && stored.length <= MAX_TRANSACTION_BYTES && stored.document.Some?
      && stored.document.value.version == "1.0"
      && Matches(stored.document.value.rpms, incoming, replacements, repositoryId)
  }

  /** The transaction is accepted for these inputs and this inventory. */
  ghost predicate Accepted(
    transaction: Option<Stored>, expected: seq<Package>, inventory: Inventory, repositoryId: string, compare: Compare,
    incoming: map<string, Incoming>, replacements: set<string>)
  {
    && expected != [] && ValidRepositoryId(repositoryId)
    && Needs(inventory, expected, compare, incoming, replacements)
    && TransactionFits(transaction, incoming, replacements, repositoryId)
  }

  /** What is needed is determined by the inputs and the inventory. */
  lemma NeedsOnce(
    inventory: Inventory, expected: seq<Package>, compare: Compare, incoming: map<string, Incoming>,
    replacements: set<string>, incoming': map<string, Incoming>, replacements': set<string>)
    requires Needs(inventory, expected, compare, incoming, replacements)
    requires Needs(inventory, expected, compare, incoming', replacements')
    ensures incoming == incoming' && replacements == replacements'
  {
    hide NativeIdentity, IdentityOf, Installed;
    forall id | id in incoming ensures id in incoming' && incoming'[id] == incoming[id] {
      NeededAlike(inventory, expected, compare, incoming, replacements, incoming', replacements', id);
    }
    forall id | id in incoming' ensures id in incoming {
      NeededAlike(inventory, expected, compare, incoming', replacements', incoming, replacements, id);
    }
    assert incoming == incoming';
  }

  lemma NeededAlike(
    inventory: Inventory, expected: seq<Package>, compare: Compare, incoming: map<string, Incoming>,
    replacements: set<string>, incoming': map<string, Incoming>, replacements': set<string>, id: string)
    requires Needs(inventory, expected, compare, incoming, replacements)
    requires Needs(inventory, expected, compare, incoming', replacements')
    requires id in incoming
    ensures id in incoming' && incoming'[id] == incoming[id]
  {
    hide NativeIdentity, IdentityOf, Installed;
    var p := incoming[id].package;
    var i :| 0 <= i < |expected| && expected[i] == p;
    assert Served(inventory, compare, incoming', expected[i]);
  }

  /** The rows an accepted transaction brings in. */
  function RowsOf(transaction: Option<Stored>): seq<Row> {
    if transaction.Some? && transaction.value.document.Some? then transaction.value.document.value.rpms else []
  }

  /** parse_inputs: a plan exactly when the transaction is the one the inputs and the inventory need. */
  method ParseInputs(
    transaction: Option<Stored>, expected: seq<Package>, projectInputs: seq<Package>, inventory: Inventory,
    repositoryId: string, compare: Compare)
    returns (r: Option<Plan>)
    requires forall i :: 0 <= i < |expected| ==> ValidInput(expected[i])
    ensures r.Some? <==> exists incoming, replacements ::
              Accepted(transaction, expected, inventory, repositoryId, compare, incoming, replacements)
    ensures r.Some? ==> forall incoming, replacements ::
              Accepted(transaction, expected, inventory, repositoryId, compare, incoming, replacements) ==>
                IsPlan(r.value, RowsOf(transaction), incoming, projectInputs)
  {
    hide Needs, Matches, BoundRows, ValidInput;
    if expected == [] || !ValidRepositoryId(repositoryId) {
      return None;
    }
    var needs := CollectNeeds(expected, inventory, compare);
    if needs.None? {
      return None;
    }
    var (incoming, replacements) := needs.value;
    forall incoming', replacements' | Needs(inventory, expected, compare, incoming', replacements')
      ensures incoming' == incoming && replacements' == replacements
    {
      NeedsOnce(inventory, expected, compare, incoming, replacements, incoming', replacements');
    }
    if transaction.None? {
      if incoming.Keys != {} {
        return None;
      }
      assert incoming == map[];
      assert Accepted(transaction, expected, inventory, repositoryId, compare, incoming, replacements);
      NothingBound(incoming, projectInputs);
      return Some(Plan([]));
    }
    var stored := transaction.value;
    if incoming.Keys == {} || stored.length > MAX_TRANSACTION_BYTES || stored.document.None? {
      return None;
    }
    var document := stored.document.value;
    if document.version != "1.0" || |document.rpms| != |incoming| + |replacements| {
      CountMatters(document.rpms, incoming, replacements, repositoryId);
      return None;
    }
    var bound := MatchRows(document.rpms, incoming, replacements, repositoryId, projectInputs);
    if bound.None? {
      return None;
    }
    assert Accepted(transaction, expected, inventory, repositoryId, compare, incoming, replacements);
    MatchedBound(document.rpms, incoming, replacements, repositoryId);
    return Some(Plan(Sort(NevraLess, bound.value)));
  }

  /** The plan binds every incoming row to its package, in the order of the identities. */
  ghost predicate IsPlan(plan: Plan, rows: seq<Row>, incoming: map<string, Incoming>, projectInputs: seq<Package>) {
    && (forall i :: 0 <= i < |rows| && !IsReplaced(rows[i]) ==> rows[i].nevra in incoming)
    && plan.packages == Sort(NevraLess, BoundRows(rows, incoming, projectInputs))
  }

  /** The plan lists exactly the bound rows, sorted by identity. */
  lemma PlanSorted(plan: Plan, rows: seq<Row>, incoming: map<string, Incoming>, projectInputs: seq<Package>)
    requires IsPlan(plan, rows, incoming, projectInputs)
    ensures Sorted(NevraLess, plan.packages)
    ensures multiset(plan.packages) == multiset(BoundRows(rows, incoming, projectInputs))
  {
    hide NevraLess;
    NevraLessWeak();
    SortSorted(NevraLess, BoundRows(rows, incoming, projectInputs));
  }

  lemma NothingBound(incoming: map<string, Incoming>, projectInputs: seq<Package>)
    ensures IsPlan(Plan([]), [], incoming, projectInputs)
  {
  }

  lemma CountMatters(rows: seq<Row>, incoming: map<string, Incoming>, replacements: set<string>, repositoryId: string)
    ensures |rows| != |incoming| + |replacements| ==> !Matches(rows, incoming, replacements, repositoryId)
  {
  }

  lemma MatchedBound(rows: seq<Row>, incoming: map<string, Incoming>, replacements: set<string>, repositoryId: string)
    requires Matches(rows, incoming, replacements, repositoryId)
    ensures forall i :: 0 <= i < |rows| && !IsReplaced(rows[i]) ==> rows[i].nevra in incoming
  {
    hide SafePackagePath, KnownRepository;
    forall i | 0 <= i < |rows| && !IsReplaced(rows[i]) ensures rows[i].nevra in incoming {
      assert Fits(rows[i], incoming, replacements, repositoryId);
    }
  }

  /** parse_with_dependencies: release packages and authenticated dependencies, planned together. */
  method ParseWithDependencies(
    transaction: Option<Stored>, expected: seq<Package>, dependencies: seq<Package>, inventory: Inventory,
    repositoryId: string, compare: Compare)
    returns (r: Option<Plan>)
    requires forall i :: 0 <= i < |dependencies| ==> ValidInput(dependencies[i])
    ensures r.Some? <==>
              && |expected| <= 128 && |expected| + |dependencies| <= 4096
              && (forall i :: 0 <= i < |expected| ==> ValidPackage(expected[i]))
              && exists incoming, replacements ::
                   Accepted(transaction, expected + dependencies, inventory, repositoryId, compare, incoming,
                            replacements)
    ensures r.Some? ==> forall incoming, replacements ::
              Accepted(transaction, expected + dependencies, inventory, repositoryId, compare, incoming, replacements)
              ==> IsPlan(r.value, RowsOf(transaction), incoming, expected)
  {
    hide ValidPackage, ValidInput, Accepted, IsPlan;
    if |expected| > 128 || |expected| + |dependencies| > 4096 {
      return None;
    }
    for i := 0 to |expected|
      invariant forall k :: 0 <= k < i ==> ValidPackage(expected[k])
    {
      if !ValidPackage(expected[i]) {
        return None;
      }
    }
    forall i | 0 <= i < |expected| ensures ValidInput(expected[i]) {
      ValidPackageIsInput(expected[i]);
    }
    r := ParseInputs(transaction, expected + dependencies, expected, inventory, repositoryId, compare);
  }

  // ---- parse_install ----

  /** A row of a first installation: a user's install from the command line, of one of the expected packages. */
  predicate InstallFits(row: Row, expected: seq<Package>) {
    && row.action == "Install" && row.reason == "User" && row.repoId == StoredRepository("@commandline")
    && row.path.Some? && SafePackagePath(row.path.value)
    && exists i :: 0 <= i < |expected| && IdentityOf(expected[i]) == row.nevra
  }

  predicate RowsDiffer(rows: seq<Row>) {
    forall i, j :: 0 <= i < j < |rows| ==> rows[i].nevra != rows[j].nevra && rows[i].path != rows[j].path
  }

  /** What parse_install accepts. */
  predicate InstallAccepted(stored: Stored, expected: seq<Package>) {
    && stored.length <= 1_048_576 && 0 < |expected| <= 128
    && stored.document.Some? && stored.document.value.version == "1.0"
    && |stored.document.value.rpms| == |expected|
    && (forall i :: 0 <= i < |expected| ==> ValidPackage(expected[i])) && DistinctNames(expected)
    && var rows := stored.document.value.rpms;
       (forall i :: 0 <= i < |rows| ==> InstallFits(rows[i], expected)) && RowsDiffer(rows)
  }

  /** The package a row installs. */
  method FindPackage(row: Row, expected: seq<Package>) returns (r: Option<Package>)
    ensures r.Some? ==>
              exists i :: 0 <= i < |expected| && expected[i] == r.value && IdentityOf(expected[i]) == row.nevra
    ensures r.None? ==> forall i :: 0 <= i < |expected| ==> IdentityOf(expected[i]) != row.nevra
  {
    hide IdentityOf;
    for i := 0 to |expected|
      invariant forall k :: 0 <= k < i ==> IdentityOf(expected[k]) != row.nevra
    {
      if IdentityOf(expected[i]) == row.nevra {
        return Some(expected[i]);
      }
    }
    return None;
  }

  /** The expected packages are valid, and no name stands twice. */
  method ExpectedOnce(expected: seq<Package>) returns (ok: bool)
    ensures ok <==> (forall i :: 0 <= i < |expected| ==> ValidPackage(expected[i])) && DistinctNames(expected)
  {
    hide ValidPackage;
    var names: set<string> := {};
    for i := 0 to |expected|
      invariant forall k :: 0 <= k < i ==> ValidPackage(expected[k])
      invariant forall name :: name in names <==> exists k :: 0 <= k < i && expected[k].name == name
      invariant forall j, k :: 0 <= j < k < i ==> expected[j].name != expected[k].name
    {
      if !ValidPackage(expected[i]) || expected[i].name in names {
        return false;
      }
      names := names + {expected[i].name};
    }
    return true;
  }

  /** The bound package of a row: the expected one with the row's identity. */
  predicate BindsRow(row: Row, expected: seq<Package>, b: BoundRpm) {
    && b.native == row && b.expected in expected && IdentityOf(b.expected) == row.nevra
    && b.sha256 == b.expected.sha256 && b.supersedes.None? && b.project
  }

  predicate BindsRows(rows: seq<Row>, expected: seq<Package>, bound: seq<BoundRpm>) {
    |bound| == |rows| && forall i :: 0 <= i < |rows| ==> BindsRow(rows[i], expected, bound[i])
  }

  /** The plan lists the packages bound to the rows, sorted by identity. */
  ghost predicate IsInstallPlan(plan: Plan, rows: seq<Row>, expected: seq<Package>) {
    exists bound :: BindsRows(rows, expected, bound) && plan.packages == Sort(NevraLess, bound)
  }

  /** Binds each row to an expected package, unless an identity or a path stands twice or a row does not fit. */
  method InstallRows(rows: seq<Row>, expected: seq<Package>) returns (r: Option<seq<BoundRpm>>)
    ensures r.Some? <==> (forall i :: 0 <= i < |rows| ==> InstallFits(rows[i], expected)) && RowsDiffer(rows)
    ensures r.Some? ==> BindsRows(rows, expected, r.value)
  {
    hide InstallFits, SafePackagePath, IdentityOf;
    var identities: set<string>, paths: set<Option<string>> := {}, {};
    var packages: seq<BoundRpm> := [];
    for i := 0 to |rows|
      invariant forall k :: 0 <= k < i ==> InstallFits(rows[k], expected)
      invariant forall id :: id in identities <==> exists k :: 0 <= k < i && rows[k].nevra == id
      invariant forall p :: p in paths <==> exists k :: 0 <= k < i && rows[k].path == p
      invariant forall j, k :: 0 <= j < k < i ==> rows[j].nevra != rows[k].nevra && rows[j].path != rows[k].path
      invariant |packages| == i && forall k :: 0 <= k < i ==> BindsRow(rows[k], expected, packages[k])
    {
      var native := rows[i];
      var package := FindPackage(native, expected);
      InstallRow(native, expected, package);
      if native.action != "Install" || native.reason != "User" || native.repoId != StoredRepository("@commandline")
         || native.path.None? || !SafePackagePath(native.path.value) || native.nevra in identities
         || native.path in paths || package.None? {
        return None;
      }
      identities, paths := identities + {native.nevra}, paths + {native.path};
      packages := packages + [BoundRpm(native, package.value.sha256, None, package.value, true)];
    }
    return Some(packages);
  }

  /** parse_install: a plan exactly for the documents whose rows install the expected packages, one row each. */
  method ParseInstall(stored: Stored, expected: seq<Package>) returns (r: Option<Plan>)
    ensures r.Some? <==> InstallAccepted(stored, expected)
    ensures r.Some? ==> IsInstallPlan(r.value, stored.document.value.rpms, expected)
  {
    hide ValidPackage, InstallFits, DistinctNames, RowsDiffer, BindsRows;
    if stored.length > 1_048_576 || expected == [] || |expected| > 128 || stored.document.None? {
      return None;
    }
    var document := stored.document.value;
    if document.version != "1.0" || |document.rpms| != |expected| {
      return None;
    }
    var once := ExpectedOnce(expected);
    if !once {
      return None;
    }
    var bound := InstallRows(document.rpms, expected);
    if bound.None? {
      return None;
    }
    return Some(Plan(Sort(NevraLess, bound.value)));
  }

  lemma InstallRow(row: Row, expected: seq<Package>, package: Option<Package>)
    requires package.Some? ==> exists i :: 0 <= i < |expected| && IdentityOf(expected[i]) == row.nevra
    requires package.None? ==> forall i :: 0 <= i < |expected| ==> IdentityOf(expected[i]) != row.nevra
    ensures InstallFits(row, expected) <==>
              && row.action == "Install" && row.reason == "User" && row.repoId == StoredRepository("@commandline")
              && row.path.Some? && SafePackagePath(row.path.value) && package.Some?
  {
    hide IdentityOf, SafePackagePath;
  }
}
