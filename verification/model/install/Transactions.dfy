/** What an accepted transaction does to the inventory it was planned for. */
module Transactions {
  import opened Identities
  import opened Inventories
  import opened NativePlan
  import opened Options

  // ---- applying the rows ----

  /** Some Replaced row names the record. */
  predicate IsTakenOut(rows: seq<Row>, r: InstalledRpm) {
    exists i :: 0 <= i < |rows| && IsReplaced(rows[i]) && rows[i].nevra == RecordIdentity(r)
  }

  /** The record an Install or Upgrade row brings in: what its identity denotes, at this time. */
  predicate BringsIn(row: Row, now: nat, r: InstalledRpm) {
    !IsReplaced(row) && Denoted(row.nevra) == Some(TripleOf(r)) && r.installTime == now
  }

  function BroughtIn(rows: seq<Row>, now: nat): set<InstalledRpm> {
    set i | 0 <= i < |rows| && !IsReplaced(rows[i]) && Denoted(rows[i].nevra).Some? ::
      var t := Denoted(rows[i].nevra).value; InstalledRpm(t.name, t.evr, t.arch, now)
  }

  /** The inventory after the transaction. It depends on the rows alone, not on what was expected of them. */
  function Apply(inventory: Inventory, rows: seq<Row>, now: nat): Inventory {
    (set r | r in inventory && !IsTakenOut(rows, r)) + BroughtIn(rows, now)
  }

  lemma ApplyHolds(inventory: Inventory, rows: seq<Row>, now: nat, r: InstalledRpm)
    ensures r in Apply(inventory, rows, now) <==>
              || (r in inventory && !IsTakenOut(rows, r))
              || exists i :: 0 <= i < |rows| && BringsIn(rows[i], now, r)
  {
    hide Denoted;
    if i :| 0 <= i < |rows| && BringsIn(rows[i], now, r) {
      var t := Denoted(rows[i].nevra).value;
      assert InstalledRpm(t.name, t.evr, t.arch, now) == r;
    }
  }

  // ---- every needed identity has its row ----

  /** The identities of the rows that take out, or of those that bring in. */
  function RowIdentities(rows: seq<Row>, replaced: bool): set<string> {
    if rows == [] then {}
    else
      var last := rows[|rows| - 1];
      RowIdentities(rows[..|rows| - 1], replaced) + if IsReplaced(last) == replaced then {last.nevra} else {}
  }

  lemma {:induction false} RowIdentitiesAre(rows: seq<Row>, replaced: bool)
    ensures forall id :: id in RowIdentities(rows, replaced) <==>
              exists i :: 0 <= i < |rows| && IsReplaced(rows[i]) == replaced && rows[i].nevra == id
  {
    if rows != [] {
      var front, last := rows[..|rows| - 1], |rows| - 1;
      RowIdentitiesAre(front, replaced);
      assert forall i :: 0 <= i < last ==> front[i] == rows[i];
    }
  }

  lemma {:induction false} CountRows(rows: seq<Row>)
    requires NoneTwice(rows)
    ensures |RowIdentities(rows, true)| + |RowIdentities(rows, false)| == |rows|
  {
    if rows != [] {
      hide IsReplaced;
      var front, last := rows[..|rows| - 1], rows[|rows| - 1];
      assert forall i :: 0 <= i < |front| ==> front[i] == rows[i];
      CountRows(front);
      RowIdentitiesAre(front, IsReplaced(last));
      assert last.nevra !in RowIdentities(front, IsReplaced(last));
    }
  }

  lemma SubsetFull(a: set<string>, b: set<string>)
    requires a <= b && |a| >= |b|
    ensures a == b
  {
    if x :| x in b && x !in a {
      SubsetCount(a, b - {x});
    }
  }

  lemma {:induction false} SubsetCount(a: set<string>, b: set<string>)
    requires a <= b
    ensures |a| <= |b|
  {
    if a != {} {
      var x :| x in a;
      SubsetCount(a - {x}, b - {x});
    }
  }

  /** Rows and needs are in bijection: the rows' identities are exactly the needed ones. */
  lemma RowsCover(rows: seq<Row>, incoming: map<string, Incoming>, replacements: set<string>, repositoryId: string)
    requires Matches(rows, incoming, replacements, repositoryId)
    ensures RowIdentities(rows, true) == replacements
    ensures RowIdentities(rows, false) == incoming.Keys
  {
    hide SafePackagePath, KnownRepository;
    CountRows(rows);
    RowIdentitiesAre(rows, true);
    RowIdentitiesAre(rows, false);
    var out, in_ := RowIdentities(rows, true), RowIdentities(rows, false);
    assert forall i :: 0 <= i < |rows| ==> Fits(rows[i], incoming, replacements, repositoryId);
    hide RowIdentities;
    SubsetCount(out, replacements);
    SubsetCount(in_, incoming.Keys);
    SubsetFull(out, replacements);
    SubsetFull(in_, incoming.Keys);
  }

  // ---- the inventory afterwards ----

  function NewRecord(p: Package, now: nat): InstalledRpm {
    InstalledRpm(p.name, p.nevr, p.arch, now)
  }

  /** An accepted transaction with its rows, and what it was planned from. */
  datatype Planned = Planned(
    inventory: Inventory, expected: seq<Package>, compare: Compare, incoming: map<string, Incoming>,
    replacements: set<string>, rows: seq<Row>, now: nat)
  {
    ghost predicate Valid() {
      && ValidInventory(inventory) && (forall i :: 0 <= i < |expected| ==> ValidInput(expected[i]))
      && Needs(inventory, expected, compare, incoming, replacements)
      && RowIdentities(rows, true) == replacements && RowIdentities(rows, false) == incoming.Keys
    }

    function After(): Inventory {
      Apply(inventory, rows, now)
    }

    /** Some incoming package takes the record's place. */
    ghost predicate Superseded(r: InstalledRpm) {
      exists id :: id in incoming && Outdated(inventory, incoming[id].package, compare, r)
    }

    ghost predicate New(r: InstalledRpm) {
      exists id :: id in incoming && r == NewRecord(incoming[id].package, now)
    }
  }

  /** Every accepted transaction is planned in this sense. */
  lemma AcceptedIsPlanned(
    transaction: Option<Stored>, expected: seq<Package>, inventory: Inventory, repositoryId: string, compare: Compare,
    incoming: map<string, Incoming>, replacements: set<string>, now: nat)
    requires ValidInventory(inventory) && forall i :: 0 <= i < |expected| ==> ValidInput(expected[i])
    requires Accepted(transaction, expected, inventory, repositoryId, compare, incoming, replacements)
    ensures Planned(inventory, expected, compare, incoming, replacements, RowsOf(transaction), now).Valid()
  {
    hide Matches, ValidInput, ValidInventory, Wanted;
    if transaction.Some? {
      RowsCover(RowsOf(transaction), incoming, replacements, repositoryId);
    } else {
      assert replacements == {};
    }
  }

  lemma SameIdentity(a: InstalledRpm, b: InstalledRpm, inventory: Inventory)
    requires ValidInventory(inventory) && a in inventory && b in inventory && RecordIdentity(a) == RecordIdentity(b)
    ensures a == b
  {
    hide ValidTriple, NativeIdentity;
    IdentityInjective(TripleOf(a), TripleOf(b));
    assert SameRecord(a, b);
  }

  lemma OutIsSuperseded(t: Planned, r: InstalledRpm)
    requires t.Valid() && r in t.inventory && RecordIdentity(r) in t.replacements
    ensures t.Superseded(r)
  {
    hide RecordIdentity, ValidInput, ValidInventory, NativeIdentity, IdentityOf, Current;
    assert Replaces(t.incoming, RecordIdentity(r));
    var id :| id in t.incoming && t.incoming[id].supersedes == Some(RecordIdentity(r));
    assert Wanted(t.inventory, t.compare, t.incoming[id]);
    var prior :| Outdated(t.inventory, t.incoming[id].package, t.compare, prior)
                 && RecordIdentity(prior) == RecordIdentity(r);
    assert prior in Installed(t.inventory, t.incoming[id].package);
    SameIdentity(prior, r, t.inventory);
  }

  lemma SupersededIsListed(t: Planned, r: InstalledRpm)
    requires t.Valid() && t.Superseded(r)
    ensures RecordIdentity(r) in t.replacements
  {
    hide RecordIdentity, ValidInput, ValidInventory, NativeIdentity, IdentityOf, Current;
    var id :| id in t.incoming && Outdated(t.inventory, t.incoming[id].package, t.compare, r);
    assert Wanted(t.inventory, t.compare, t.incoming[id]);
    assert r in Installed(t.inventory, t.incoming[id].package);
  }

  lemma SupersededIsOut(t: Planned, r: InstalledRpm)
    requires t.Valid() && r in t.inventory
    ensures IsTakenOut(t.rows, r) <==> t.Superseded(r)
  {
    RowIdentitiesAre(t.rows, true);
    assert IsTakenOut(t.rows, r) <==> RecordIdentity(r) in t.replacements;
    hide Planned.Valid, Planned.Superseded, RecordIdentity, IsTakenOut;
    if RecordIdentity(r) in t.replacements {
      OutIsSuperseded(t, r);
    }
    if t.Superseded(r) {
      SupersededIsListed(t, r);
    }
  }

  lemma NewIsIn(t: Planned, r: InstalledRpm)
    requires t.Valid()
    ensures (exists i :: 0 <= i < |t.rows| && BringsIn(t.rows[i], t.now, r)) <==> t.New(r)
  {
    hide ValidTriple, Denoted, NativeIdentity, Wanted, Current;
    RowIdentitiesAre(t.rows, false);
    if i :| 0 <= i < |t.rows| && BringsIn(t.rows[i], t.now, r) {
      var id := t.rows[i].nevra;
      assert id in t.incoming;
      var p := t.incoming[id].package;
      InputDenotes(t, p);
      assert r == NewRecord(p, t.now);
    }
    if t.New(r) {
      var id :| id in t.incoming && r == NewRecord(t.incoming[id].package, t.now);
      var p := t.incoming[id].package;
      InputDenotes(t, p);
      var i :| 0 <= i < |t.rows| && !IsReplaced(t.rows[i]) && t.rows[i].nevra == id;
      assert BringsIn(t.rows[i], t.now, r);
    }
  }

  lemma InputDenotes(t: Planned, p: Package)
    requires t.Valid() && p in t.expected
    ensures ValidInput(p) && Denoted(IdentityOf(p)) == Some(Triple(p.name, p.nevr, p.arch))
  {
    hide ValidTriple, Denoted, NativeIdentity, Needs, ValidInventory;
    var i :| 0 <= i < |t.expected| && t.expected[i] == p;
    IdentityDenotes(p.name, p.nevr, p.arch);
  }

  /** The inventory afterwards: the records nobody takes the place of, and the new ones. */
  lemma AfterHolds(t: Planned, r: InstalledRpm)
    requires t.Valid()
    ensures r in t.After() <==> (r in t.inventory && !t.Superseded(r)) || t.New(r)
  {
    hide IsTakenOut, BringsIn, Apply;
    ApplyHolds(t.inventory, t.rows, t.now, r);
    NewIsIn(t, r);
    if r in t.inventory {
      SupersededIsOut(t, r);
    }
  }

  /** A package by its name. */
  lemma OnePerName(t: Planned, id: string, p: Package)
    requires t.Valid() && id in t.incoming && p in t.expected && t.incoming[id].package.name == p.name
    ensures t.incoming[id].package == p
  {
    hide ValidInventory, ValidInput, Wanted, Current, NativeIdentity, IdentityOf;
    var i :| 0 <= i < |t.expected| && t.expected[i] == p;
    var j :| 0 <= j < |t.expected| && t.expected[j] == t.incoming[id].package;
  }

  /** An incoming package is not current. */
  lemma IncomingIsNotCurrent(t: Planned, id: string)
    requires t.Valid() && id in t.incoming
    ensures !Current(t.inventory, t.incoming[id].package)
  {
    hide ValidInventory, ValidInput, NativeIdentity, IdentityOf;
    assert Wanted(t.inventory, t.compare, t.incoming[id]);
  }

  /** A current package keeps its record. */
  lemma CurrentStays(t: Planned, p: Package)
    requires t.Valid() && p in t.expected && Current(t.inventory, p)
    ensures Installed(t.After(), p) == Installed(t.inventory, p)
  {
    hide Planned.Valid, Planned.After;
    forall r ensures r in Installed(t.After(), p) <==> r in Installed(t.inventory, p) {
      AfterHolds(t, r);
      if r.name == p.name && t.New(r) {
        var id :| id in t.incoming && r == NewRecord(t.incoming[id].package, t.now);
        OnePerName(t, id, p);
        IncomingIsNotCurrent(t, id);
        assert false;
      }
      if r in Installed(t.inventory, p) && t.Superseded(r) {
        var id :| id in t.incoming && Outdated(t.inventory, t.incoming[id].package, t.compare, r);
        assert r in Installed(t.inventory, t.incoming[id].package);
        OnePerName(t, id, p);
        IncomingIsNotCurrent(t, id);
        assert false;
      }
    }
  }

  /** An incoming package has its new record and no other. */
  lemma IncomingArrives(t: Planned, id: string)
    requires t.Valid() && id in t.incoming
    ensures Installed(t.After(), t.incoming[id].package) == {NewRecord(t.incoming[id].package, t.now)}
  {
    var p := t.incoming[id].package;
    IncomingExpected(t, id);
    hide Planned.Valid, Planned.After;
    forall r ensures r in Installed(t.After(), p) <==> r == NewRecord(p, t.now) {
      AfterHolds(t, r);
      if r.name == p.name && t.New(r) {
        var j :| j in t.incoming && r == NewRecord(t.incoming[j].package, t.now);
        OnePerName(t, j, p);
      }
      if r in Installed(t.inventory, p) {
        IncomingSupersedes(t, id, r);
      }
      assert t.New(NewRecord(p, t.now));
    }
  }

  lemma IncomingExpected(t: Planned, id: string)
    requires t.Valid() && id in t.incoming
    ensures t.incoming[id].package in t.expected
  {
  }

  lemma IncomingSupersedes(t: Planned, id: string, r: InstalledRpm)
    requires t.Valid() && id in t.incoming && r in Installed(t.inventory, t.incoming[id].package)
    ensures t.Superseded(r)
  {
    hide ValidInventory, ValidInput, NativeIdentity, IdentityOf;
    assert Wanted(t.inventory, t.compare, t.incoming[id]);
  }

  // ---- main results ----

  /** Afterwards every expected package is installed exactly once, at its exact version. */
  lemma ExpectedReached(t: Planned, p: Package)
    requires t.Valid() && p in t.expected
    ensures Current(t.After(), p)
  {
    hide Planned.After;
    var i :| 0 <= i < |t.expected| && t.expected[i] == p;
    assert Served(t.inventory, t.compare, t.incoming, p);
    hide Planned.Valid, Served, Installed;
    if Current(t.inventory, p) {
      CurrentStays(t, p);
    } else {
      ServedComes(t, p);
      IncomingArrives(t, IdentityOf(p));
    }
  }

  lemma ServedComes(t: Planned, p: Package)
    requires Served(t.inventory, t.compare, t.incoming, p) && !Current(t.inventory, p)
    ensures IdentityOf(p) in t.incoming && t.incoming[IdentityOf(p)].package == p
  {
  }

  /** Every record of another name or architecture than an expected package's is as it was. */
  lemma OthersUntouched(t: Planned, r: InstalledRpm)
    requires t.Valid() && IsOther(t.expected, r)
    ensures r in t.After() <==> r in t.inventory
  {
    AfterHolds(t, r);
    hide Planned.After;
    if t.New(r) {
      var id :| id in t.incoming && r == NewRecord(t.incoming[id].package, t.now);
      IncomingExpected(t, id);
      assert false;
    }
    if r in t.inventory && t.Superseded(r) {
      var id :| id in t.incoming && Outdated(t.inventory, t.incoming[id].package, t.compare, r);
      assert r in Installed(t.inventory, t.incoming[id].package);
      IncomingExpected(t, id);
      assert false;
    }
  }

  /** A record that goes away makes room for a later version of the same name and architecture. */
  lemma NeverLowers(t: Planned, r: InstalledRpm)
    requires t.Valid() && r in t.inventory && r !in t.After()
    ensures exists p :: p in t.expected && r.name == p.name && r.arch == p.arch
                        && t.compare(r.evr, p.nevr) == Some(Earlier) && NewRecord(p, t.now) in t.After()
  {
    AfterHolds(t, r);
    hide Planned.After;
    var id :| id in t.incoming && Outdated(t.inventory, t.incoming[id].package, t.compare, r);
    var p := t.incoming[id].package;
    assert r in Installed(t.inventory, p);
    IncomingExpected(t, id);
    assert t.New(NewRecord(p, t.now));
    AfterHolds(t, NewRecord(p, t.now));
  }

  /** Planning again for the inventory afterwards, without a transaction, is accepted and plans nothing. */
  lemma ReplanIsEmpty(t: Planned, repositoryId: string)
    requires t.Valid() && t.expected != [] && ValidRepositoryId(repositoryId)
    ensures Accepted(None, t.expected, t.After(), repositoryId, t.compare, map[], {})
    ensures forall incoming, replacements ::
              Accepted(None, t.expected, t.After(), repositoryId, t.compare, incoming, replacements) ==>
                incoming == map[] && replacements == {}
  {
    hide Planned.After, Planned.Valid, ValidRepositoryId, Needs;
    NothingMoreNeeded(t);
    forall incoming, replacements | Needs(t.After(), t.expected, t.compare, incoming, replacements)
      ensures incoming == map[] && replacements == {}
    {
      NeedsOnce(t.After(), t.expected, t.compare, map[], {}, incoming, replacements);
    }
  }

  lemma NothingMoreNeeded(t: Planned)
    requires t.Valid()
    ensures Needs(t.After(), t.expected, t.compare, map[], {})
  {
    NamesDistinct(t);
    hide Planned.After, Planned.Valid, Current, Needs;
    forall i | 0 <= i < |t.expected| ensures Current(t.After(), t.expected[i]) {
      ExpectedReached(t, t.expected[i]);
    }
    CurrentNeedNothing(t.After(), t.expected, t.compare);
  }

  lemma CurrentNeedNothing(inventory: Inventory, expected: seq<Package>, compare: Compare)
    requires DistinctNames(expected) && forall i :: 0 <= i < |expected| ==> Current(inventory, expected[i])
    ensures Needs(inventory, expected, compare, map[], {})
  {
    hide Current;
  }

  lemma NamesDistinct(t: Planned)
    requires t.Valid()
    ensures DistinctNames(t.expected)
  {
  }

  /** The inventory afterwards is one the query could have returned. */
  lemma AfterIsValid(t: Planned)
    requires t.Valid()
    ensures ValidInventory(t.After())
  {
    hide Planned.After, ValidTriple;
    forall r | r in t.After() ensures ValidRecord(r) {
      AfterHolds(t, r);
      if t.New(r) {
        var id :| id in t.incoming && r == NewRecord(t.incoming[id].package, t.now);
        IncomingExpected(t, id);
        InputDenotes(t, t.incoming[id].package);
      }
    }
    forall a, b | a in t.After() && b in t.After() && SameRecord(a, b) ensures a == b {
      RecordsOnce(t, a, b);
    }
  }

  lemma RecordsOnce(t: Planned, a: InstalledRpm, b: InstalledRpm)
    requires t.Valid() && a in t.After() && b in t.After() && SameRecord(a, b)
    ensures a == b
  {
    AfterHolds(t, a);
    AfterHolds(t, b);
    if t.New(a) {
      NewOnce(t, a, b);
    } else if t.New(b) {
      NewOnce(t, b, a);
    }
  }

  lemma NewOnce(t: Planned, a: InstalledRpm, b: InstalledRpm)
    requires t.Valid() && t.New(a) && b in t.After() && SameRecord(a, b)
    ensures a == b
  {
    hide Planned.Valid, Planned.After;
    var id :| id in t.incoming && a == NewRecord(t.incoming[id].package, t.now);
    IncomingArrives(t, id);
    assert b in Installed(t.After(), t.incoming[id].package);
  }

  /** The record has another name or architecture than every expected package. */
  ghost predicate IsOther(expected: seq<Package>, r: InstalledRpm) {
    forall p :: p in expected ==> r.name != p.name || r.arch != p.arch
  }

  /** The record gave way to a later version of its name and architecture. */
  ghost predicate Upgraded(expected: seq<Package>, compare: Compare, after: Inventory, now: nat, r: InstalledRpm) {
    exists p :: p in expected && r.name == p.name && r.arch == p.arch
                && compare(r.evr, p.nevr) == Some(Earlier) && NewRecord(p, now) in after
  }

  /**
   An accepted transaction means what it should. Applying its rows, of which
   there are none for no transaction, installs every expected package once at
   its version, leaves the records of other packages alone, lowers nothing,
   leaves an inventory the query could return, and nothing to plan.
   */
  lemma AcceptedReaches(
    transaction: Option<Stored>, expected: seq<Package>, inventory: Inventory, repositoryId: string, compare: Compare,
    incoming: map<string, Incoming>, replacements: set<string>, now: nat)
    requires ValidInventory(inventory) && forall i :: 0 <= i < |expected| ==> ValidInput(expected[i])
    requires Accepted(transaction, expected, inventory, repositoryId, compare, incoming, replacements)
    ensures var after := Apply(inventory, RowsOf(transaction), now);
            && (forall p :: p in expected ==> Current(after, p))
            && (forall r :: r in inventory && r !in after ==> Upgraded(expected, compare, after, now, r))
            && (forall r :: IsOther(expected, r) ==> (r in after <==> r in inventory))
            && ValidInventory(after)
            && Accepted(None, expected, after, repositoryId, compare, map[], {})
            && forall incoming', replacements' ::
                 Accepted(None, expected, after, repositoryId, compare, incoming', replacements') ==>
                   incoming' == map[] && replacements' == {}
  {
    AcceptedIsPlanned(transaction, expected, inventory, repositoryId, compare, incoming, replacements, now);
    hide Planned.Valid, Planned.After, Accepted, ValidInventory, ValidInput, Current;
    var t := Planned(inventory, expected, compare, incoming, replacements, RowsOf(transaction), now);
    AfterIs(t);
    forall p | p in expected ensures Current(t.After(), p) {
      ExpectedReached(t, p);
    }
    forall r | r in inventory && r !in t.After() ensures Upgraded(expected, compare, t.After(), now, r) {
      NeverLowers(t, r);
    }
    forall r | IsOther(expected, r)
      ensures r in t.After() <==> r in inventory
    {
      OthersUntouched(t, r);
    }
    AfterIsValid(t);
    AcceptedIds(transaction, expected, inventory, repositoryId, compare, incoming, replacements);
    ReplanIsEmpty(t, repositoryId);
  }

  lemma AfterIs(t: Planned)
    ensures t.After() == Apply(t.inventory, t.rows, t.now)
  {
  }

  lemma AcceptedIds(
    transaction: Option<Stored>, expected: seq<Package>, inventory: Inventory, repositoryId: string, compare: Compare,
    incoming: map<string, Incoming>, replacements: set<string>)
    requires Accepted(transaction, expected, inventory, repositoryId, compare, incoming, replacements)
    ensures expected != [] && ValidRepositoryId(repositoryId)
  {
  }
}
