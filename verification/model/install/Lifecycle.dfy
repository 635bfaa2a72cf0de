/** The check after the transaction, and its agreement with the plan. */
module Lifecycle {
  import opened Bytes
  import opened Identities
  import opened Inventories
  import opened NativePlan
  import opened Options
  import opened Ordering
  import opened Transactions

  // ---- the selection ----

  predicate IsSelected(p: Package, withPython: bool, withDevel: bool) {
    match p.role
    case Runtime => true
    case ProfileRole => true
    case Python => withPython
    case Devel => withDevel
  }

  predicate HasRole(packages: seq<Package>, role: Role) {
    exists i :: 0 <= i < |packages| && packages[i].role == role
  }

  /** The byte order of the names; those of a release are ASCII. */
  predicate NameLess(a: Package, b: Package) {
    Less(Ascii(a.name), Ascii(b.name))
  }

  lemma NameLessWeak()
    ensures StrictWeak(NameLess)
  {
    hide Ascii, Less;
    LessStrictTotal();
    TotalIsWeak(Less);
  }

  function Filtered(packages: seq<Package>, withPython: bool, withDevel: bool): (r: seq<Package>)
    ensures forall p :: p in r <==> p in packages && IsSelected(p, withPython, withDevel)
  {
    if packages == [] then []
    else
      var front, last := packages[..|packages| - 1], packages[|packages| - 1];
      assert packages == front + [last];
      Filtered(front, withPython, withDevel) + if IsSelected(last, withPython, withDevel) then [last] else []
  }

  /** The requested packages, sorted by name; None when a requested role has no package. */
  function Selection(packages: seq<Package>, withPython: bool, withDevel: bool): Option<seq<Package>> {
    if (withPython && !HasRole(packages, Python)) || (withDevel && !HasRole(packages, Devel)) then None
    else Some(Sort(NameLess, Filtered(packages, withPython, withDevel)))
  }

  /** selected_packages. */
  method SelectedPackages(packages: seq<Package>, withPython: bool, withDevel: bool) returns (r: Option<seq<Package>>)
    ensures r == Selection(packages, withPython, withDevel)
  {
    if (withPython && !HasRole(packages, Python)) || (withDevel && !HasRole(packages, Devel)) {
      return None;
    }
    var selected: seq<Package> := [];
    for i := 0 to |packages|
      invariant selected == Filtered(packages[..i], withPython, withDevel)
    {
      assert packages[..i + 1][..i] == packages[..i];
      if IsSelected(packages[i], withPython, withDevel) {
        selected := selected + [packages[i]];
      }
    }
    assert packages[..|packages|] == packages;
    return Some(Sort(NameLess, selected));
  }

  /** The selection is what the roles admit, sorted by name. */
  lemma SelectionHolds(packages: seq<Package>, withPython: bool, withDevel: bool)
    requires Selection(packages, withPython, withDevel).Some?
    ensures Sorted(NameLess, Selection(packages, withPython, withDevel).value)
    ensures forall p :: p in Selection(packages, withPython, withDevel).value <==>
              p in packages && IsSelected(p, withPython, withDevel)
  {
    hide NameLess;
    NameLessWeak();
    SortSorted(NameLess, Filtered(packages, withPython, withDevel));
    var s := Filtered(packages, withPython, withDevel);
    forall p ensures p in Sort(NameLess, s) <==> p in s {
      assert p in multiset(Sort(NameLess, s)) <==> p in multiset(s);
    }
  }

  // ---- verify_installation ----

  datatype Activation = Reboot | Relogin | Immediate

  /** A capability of the profile, with the package that provides it. */
  datatype Component = Component(capability: string, provider: string, activation: Activation)

  datatype LifecycleReport = LifecycleReport(
    verified: seq<string>, pendingReboot: seq<string>, pendingRelogin: seq<string>)

  predicate IsExact(p: Package, r: InstalledRpm) {
    r.name == p.name && r.evr == p.nevr && r.arch == p.arch
  }

  /** The package is there at its exact identity, and no record of its name has another version. */
  predicate PackageVerified(p: Package, after: Inventory) {
    && (exists r :: r in after && IsExact(p, r))
    && forall r :: r in after && r.name == p.name ==> r.evr == p.nevr
  }

  function Named(inventory: Inventory, name: string): Inventory {
    set r | r in inventory && r.name == name
  }

  predicate NameSelected(selected: seq<Package>, name: string) {
    exists i :: 0 <= i < |selected| && selected[i].name == name
  }

  /** No release package outside the selection moved. */
  predicate UnselectedSame(packages: seq<Package>, selected: seq<Package>, before: Inventory, after: Inventory) {
    forall i :: 0 <= i < |packages| && !NameSelected(selected, packages[i].name) ==>
      Named(before, packages[i].name) == Named(after, packages[i].name)
  }

  /** The package's exact record was not there before. */
  predicate PackageChanged(p: Package, before: Inventory, after: Inventory) {
    exists r :: r in after && IsExact(p, r) && r !in before
  }

  /** Some selected package of this name changed. */
  ghost predicate NameChanged(selected: seq<Package>, before: Inventory, after: Inventory, name: string) {
    exists i :: 0 <= i < |selected| && selected[i].name == name && PackageChanged(selected[i], before, after)
  }

  function Names(packages: seq<Package>): seq<string> {
    if packages == [] then [] else Names(packages[..|packages| - 1]) + [packages[|packages| - 1].name]
  }

  /** The capabilities of changed providers that wait for this activation. */
  function Pending(components: seq<Component>, changed: set<string>, activation: Activation): seq<string> {
    if components == [] then []
    else
      var last := components[|components| - 1];
      Pending(components[..|components| - 1], changed, activation)
      + if last.provider in changed && last.activation == activation then [last.capability] else []
  }

  /** The names of the selected packages that changed. */
  function ChangedNames(selected: seq<Package>, before: Inventory, after: Inventory): set<string> {
    set i | 0 <= i < |selected| && PackageChanged(selected[i], before, after) :: selected[i].name
  }

  /** Some component of a changed provider that waits for this activation has the capability. */
  ghost predicate IsPending(
    components: seq<Component>, changed: set<string>, activation: Activation, capability: string)
  {
    exists i :: 0 <= i < |components| && components[i].capability == capability
                && components[i].provider in changed && components[i].activation == activation
  }

  lemma {:induction false} PendingHolds(
    components: seq<Component>, changed: set<string>, activation: Activation, capability: string)
    ensures capability in Pending(components, changed, activation)
       <==> IsPending(components, changed, activation, capability)
  {
    if components != [] {
      var front, last := components[..|components| - 1], components[|components| - 1];
      PendingHolds(front, changed, activation, capability);
      assert forall i :: 0 <= i < |front| ==> front[i] == components[i];
      if IsPending(components, changed, activation, capability) && !IsPending(front, changed, activation, capability) {
        assert last.capability == capability && last.provider in changed && last.activation == activation;
      }
    }
  }

  ghost predicate InstallationVerified(
    packages: seq<Package>, selected: seq<Package>, before: Inventory, after: Inventory)
  {
    && (forall i :: 0 <= i < |selected| ==> PackageVerified(selected[i], after))
    && UnselectedSame(packages, selected, before, after)
  }

  /** What verify_installation reports: nothing unless the selection is exact and nothing else of the release moved. */
  ghost function InstallationReport(
    packages: seq<Package>, withPython: bool, withDevel: bool, components: seq<Component>, before: Inventory,
    after: Inventory)
    : Option<LifecycleReport>
  {
    match Selection(packages, withPython, withDevel)
    case None => None
    case Some(selected) =>
      if !InstallationVerified(packages, selected, before, after) then None
      else
        var changed := ChangedNames(selected, before, after);
        Some(LifecycleReport(Names(selected), Pending(components, changed, Reboot),
                             Pending(components, changed, Relogin)))
  }

  /** The first loop: every selected package is exact, and which of them changed. */
  method VerifySelected(selected: seq<Package>, before: Inventory, after: Inventory)
    returns (r: Option<(seq<string>, set<string>)>)
    requires ValidInventory(after)
    ensures r.Some? <==> forall i :: 0 <= i < |selected| ==> PackageVerified(selected[i], after)
    ensures r.Some? ==> r.value == (Names(selected), ChangedNames(selected, before, after))
  {
    hide PackageVerified, PackageChanged;
    var verified: seq<string>, changed: set<string> := [], {};
    for i := 0 to |selected|
      invariant forall k :: 0 <= k < i ==> PackageVerified(selected[k], after)
      invariant verified == Names(selected[..i])
      invariant forall name :: name in changed <==>
                  exists k :: 0 <= k < i && selected[k].name == name && PackageChanged(selected[k], before, after)
    {
      var p := selected[i];
      assert selected[..i + 1][..i] == selected[..i];
      var entries := Named(after, p.name);
      var exact := set r | r in entries && r.evr == p.nevr && r.arch == p.arch;
      IsVerifiedEntry(p, after, entries, exact);
      if exact == {} || exists r :: r in entries && r.evr != p.nevr {
        return None;
      }
      var matched :| matched in exact;
      OneExact(p, before, after, matched);
      if matched !in before {
        changed := changed + {matched.name};
      }
      verified := verified + [p.name];
    }
    assert selected[..|selected|] == selected;
    assert changed == ChangedNames(selected, before, after);
    return Some((verified, changed));
  }

  lemma IsVerifiedEntry(p: Package, after: Inventory, entries: Inventory, exact: Inventory)
    requires entries == Named(after, p.name)
    requires exact == set r | r in entries && r.evr == p.nevr && r.arch == p.arch
    ensures PackageVerified(p, after) <==> exact != {} && !exists r :: r in entries && r.evr != p.nevr
  {
    if r :| r in after && IsExact(p, r) {
      assert r in exact;
    }
  }

  lemma OneExact(p: Package, before: Inventory, after: Inventory, matched: InstalledRpm)
    requires ValidInventory(after) && matched in after && IsExact(p, matched)
    ensures PackageChanged(p, before, after) <==> matched !in before
  {
    forall r | r in after && IsExact(p, r) ensures r == matched {
      assert SameRecord(r, matched);
    }
  }

  /** verify_installation: the report, exactly when the selection is exact and nothing else of the release moved. */
  method VerifyInstallation(
    packages: seq<Package>, withPython: bool, withDevel: bool, components: seq<Component>, before: Inventory,
    after: Inventory)
    returns (r: Option<LifecycleReport>)
    requires ValidInventory(after)
    ensures r == InstallationReport(packages, withPython, withDevel, components, before, after)
  {
    hide PackageVerified, ChangedNames, Selection;
    var selection := SelectedPackages(packages, withPython, withDevel);
    if selection.None? {
      return None;
    }
    var selected := selection.value;
    var exact := VerifySelected(selected, before, after);
    if exact.None? {
      return None;
    }
    var moved := exact.value.1;
    for i := 0 to |packages|
      invariant forall k :: 0 <= k < i && !NameSelected(selected, packages[k].name) ==>
                  Named(before, packages[k].name) == Named(after, packages[k].name)
    {
      var name := packages[i].name;
      if !NameSelected(selected, name) && Named(before, name) != Named(after, name) {
        return None;
      }
    }
    var reboot: seq<string>, relogin: seq<string> := [], [];
    for i := 0 to |components|
      invariant reboot == Pending(components[..i], moved, Reboot)
      invariant relogin == Pending(components[..i], moved, Relogin)
    {
      var c := components[i];
      assert components[..i + 1][..i] == components[..i];
      if c.provider in moved {
        match c.activation {
          case Reboot => reboot := reboot + [c.capability];
          case Relogin => relogin := relogin + [c.capability];
          case Immediate =>
        }
      }
    }
    assert components[..|components|] == components;
    return Some(LifecycleReport(exact.value.0, reboot, relogin));
  }

  // ---- agreement with the plan ----

  /** No record of a selected name has another architecture and another version. */
  ghost predicate NoOtherArchitecture(selected: seq<Package>, inventory: Inventory) {
    forall p, r :: p in selected && r in inventory && r.name == p.name && r.arch != p.arch ==> r.evr == p.nevr
  }

  /** No dependency bears the name of a release package outside the selection. */
  ghost predicate DependenciesApart(packages: seq<Package>, selected: seq<Package>, dependencies: seq<Package>) {
    forall d, q :: d in dependencies && q in packages && d.name == q.name ==> NameSelected(selected, q.name)
  }

  /** A row brings in a package of this name. */
  ghost predicate RowBrings(rows: seq<Row>, name: string) {
    exists i :: 0 <= i < |rows| && !IsReplaced(rows[i]) && Denoted(rows[i].nevra).Some?
                && Denoted(rows[i].nevra).value.name == name
  }

  lemma SelectedVerified(t: Planned, selected: seq<Package>, dependencies: seq<Package>, p: Package)
    requires t.Valid() && t.expected == selected + dependencies && p in selected
    requires NoOtherArchitecture(selected, t.inventory)
    ensures PackageVerified(p, t.After())
  {
    assert p in t.expected;
    ExpectedReached(t, p);
    hide Planned.After;
    var r0 :| Installed(t.After(), p) == {r0} && r0.evr == p.nevr;
    assert r0 in Installed(t.After(), p) && IsExact(p, r0);
    forall r | r in t.After() && r.name == p.name ensures r.evr == p.nevr {
      if r.arch == p.arch {
        assert r in Installed(t.After(), p);
      } else {
        SameNameOtherArch(t, p, r);
      }
    }
  }

  lemma ExpectedByName(t: Planned, p: Package, q: Package)
    requires t.Valid() && p in t.expected && q in t.expected && p.name == q.name
    ensures p == q
  {
    hide ValidInventory, ValidInput;
    var i :| 0 <= i < |t.expected| && t.expected[i] == p;
    var j :| 0 <= j < |t.expected| && t.expected[j] == q;
  }

  lemma SameNameOtherArch(t: Planned, p: Package, r: InstalledRpm)
    requires t.Valid() && p in t.expected && r.name == p.name && r.arch != p.arch
    ensures r in t.After() <==> r in t.inventory
  {
    hide Planned.Valid, Planned.After;
    forall q | q in t.expected ensures r.name != q.name || r.arch != q.arch {
      if r.name == q.name {
        ExpectedByName(t, p, q);
      }
    }
    OthersUntouched(t, r);
  }

  lemma UnselectedUntouched(
    t: Planned, packages: seq<Package>, selected: seq<Package>, dependencies: seq<Package>, q: Package)
    requires t.Valid() && t.expected == selected + dependencies && DependenciesApart(packages, selected, dependencies)
    requires q in packages && !NameSelected(selected, q.name)
    ensures Named(t.inventory, q.name) == Named(t.After(), q.name)
  {
    hide Planned.Valid, Planned.After;
    forall p | p in t.expected ensures p.name != q.name {
      if p in selected {
        var i :| 0 <= i < |selected| && selected[i] == p;
      }
    }
    forall r ensures r in Named(t.inventory, q.name) <==> r in Named(t.After(), q.name) {
      if r.name == q.name {
        OthersUntouched(t, r);
      }
    }
  }

  /** A selected package changed exactly when it was on its way in. */
  lemma ChangedIsIncoming(t: Planned, p: Package)
    requires t.Valid() && p in t.expected
    ensures PackageChanged(p, t.inventory, t.After()) <==> IdentityOf(p) in t.incoming
  {
    hide Planned.After;
    var i :| 0 <= i < |t.expected| && t.expected[i] == p;
    assert Served(t.inventory, t.compare, t.incoming, p);
    if IdentityOf(p) in t.incoming {
      InputDenotes(t, p);
      InputDenotes(t, t.incoming[IdentityOf(p)].package);
      OnePerName(t, IdentityOf(p), p);
      IncomingArrives(t, IdentityOf(p));
      var r := NewRecord(p, t.now);
      assert r in Installed(t.After(), p) && IsExact(p, r);
      IncomingIsNotCurrent(t, IdentityOf(p));
      NewWasNotThere(t, p);
    } else {
      CurrentStays(t, p);
      forall r | r in t.After() && IsExact(p, r) ensures r in t.inventory {
        assert r in Installed(t.After(), p);
      }
    }
  }

  lemma NewWasNotThere(t: Planned, p: Package)
    requires t.Valid() && IdentityOf(p) in t.incoming && t.incoming[IdentityOf(p)].package == p
    ensures forall r :: r in t.inventory ==> !IsExact(p, r)
  {
    hide ValidInventory, ValidInput, NativeIdentity, IdentityOf;
    assert Wanted(t.inventory, t.compare, t.incoming[IdentityOf(p)]);
    forall r | r in t.inventory ensures !IsExact(p, r) {
      assert IsExact(p, r) ==> r in Installed(t.inventory, p);
    }
  }

  /** A row brings in a name exactly when a package of that name is on its way in. */
  lemma RowsBring(t: Planned, name: string)
    requires t.Valid()
    ensures RowBrings(t.rows, name) <==> exists id :: id in t.incoming && t.incoming[id].package.name == name
  {
    RowIdentitiesAre(t.rows, false);
    hide Denoted, NativeIdentity, ValidInventory, Wanted, Current;
    if i :| 0 <= i < |t.rows| && !IsReplaced(t.rows[i]) && Denoted(t.rows[i].nevra).Some?
            && Denoted(t.rows[i].nevra).value.name == name {
      var id := t.rows[i].nevra;
      InputDenotes(t, t.incoming[id].package);
    }
    if id :| id in t.incoming && t.incoming[id].package.name == name {
      InputDenotes(t, t.incoming[id].package);
      var i :| 0 <= i < |t.rows| && IsReplaced(t.rows[i]) == false && t.rows[i].nevra == id;
      assert !IsReplaced(t.rows[i]) && Denoted(t.rows[i].nevra).Some?;
    }
  }

  /** The release has a package of this name. */
  predicate IsReleaseName(packages: seq<Package>, name: string) {
    exists q :: q in packages && q.name == name
  }

  /**
   The capability is that of a component whose provider is a release package
   that an Install or Upgrade row brought in, and waits for this activation.
   */
  ghost predicate WaitsForRow(
    components: seq<Component>, packages: seq<Package>, rows: seq<Row>, activation: Activation, capability: string)
  {
    exists i :: 0 <= i < |components| && components[i].capability == capability
                && components[i].activation == activation
                && IsReleaseName(packages, components[i].provider) && RowBrings(rows, components[i].provider)
  }

  /**
   Planner and check agree: after an accepted transaction verify_installation
   succeeds, and reports as pending exactly the capabilities whose provider had
   an Install or Upgrade row.
   */
  lemma PlannerAndCheckAgree(
    t: Planned, packages: seq<Package>, withPython: bool, withDevel: bool, selected: seq<Package>,
    dependencies: seq<Package>, components: seq<Component>)
    requires t.Valid() && t.expected == selected + dependencies
    requires Selection(packages, withPython, withDevel) == Some(selected)
    requires NoOtherArchitecture(selected, t.inventory) && DependenciesApart(packages, selected, dependencies)
    ensures var r := InstallationReport(packages, withPython, withDevel, components, t.inventory, t.After());
            && r.Some? && r.value.verified == Names(selected)
            && forall c ::
                 && (c in r.value.pendingReboot <==> WaitsForRow(components, packages, t.rows, Reboot, c))
                 && (c in r.value.pendingRelogin <==> WaitsForRow(components, packages, t.rows, Relogin, c))
  {
    hide Planned.Valid, Planned.After, Selection, RowBrings, InstallationVerified, ChangedNames, Pending, IsPending;
    hide NoOtherArchitecture, DependenciesApart, WaitsForRow;
    SelectionHolds(packages, withPython, withDevel);
    CheckPasses(t, packages, selected, dependencies);
    var changed := ChangedNames(selected, t.inventory, t.After());
    forall c, activation
      ensures c in Pending(components, changed, activation) <==>
                WaitsForRow(components, packages, t.rows, activation, c)
    {
      PendingHolds(components, changed, activation, c);
      PendingIsRow(t, packages, selected, dependencies, components, activation, c);
    }
  }

  lemma PendingIsRow(
    t: Planned, packages: seq<Package>, selected: seq<Package>, dependencies: seq<Package>, components: seq<Component>,
    activation: Activation, c: string)
    requires t.Valid() && t.expected == selected + dependencies && forall p :: p in selected ==> p in packages
    requires DependenciesApart(packages, selected, dependencies)
    ensures IsPending(components, ChangedNames(selected, t.inventory, t.After()), activation, c)
       <==> WaitsForRow(components, packages, t.rows, activation, c)
  {
    hide Planned.Valid, Planned.After, RowBrings, ChangedNames, DependenciesApart, IsReleaseName;
    forall i | 0 <= i < |components|
      ensures components[i].provider in ChangedNames(selected, t.inventory, t.After()) <==>
                IsReleaseName(packages, components[i].provider) && RowBrings(t.rows, components[i].provider)
    {
      ProviderAgrees(t, packages, selected, dependencies, components[i].provider);
    }
  }

  /** A name counts as changed exactly when it is a release package's and a row brought it in. */
  lemma ProviderAgrees(
    t: Planned, packages: seq<Package>, selected: seq<Package>, dependencies: seq<Package>, name: string)
    requires t.Valid() && t.expected == selected + dependencies && forall p :: p in selected ==> p in packages
    requires DependenciesApart(packages, selected, dependencies)
    ensures name in ChangedNames(selected, t.inventory, t.After()) <==>
              IsReleaseName(packages, name) && RowBrings(t.rows, name)
  {
    hide Planned.Valid, Planned.After, RowBrings, PackageChanged, DependenciesApart;
    if name in ChangedNames(selected, t.inventory, t.After()) {
      var i :| 0 <= i < |selected| && PackageChanged(selected[i], t.inventory, t.After()) && selected[i].name == name;
      assert selected[i] in packages;
      NameAgrees(t, packages, selected, dependencies, selected[i]);
    }
    if IsReleaseName(packages, name) && RowBrings(t.rows, name) {
      var q :| q in packages && q.name == name;
      NameAgrees(t, packages, selected, dependencies, q);
    }
  }

  lemma CheckPasses(t: Planned, packages: seq<Package>, selected: seq<Package>, dependencies: seq<Package>)
    requires t.Valid() && t.expected == selected + dependencies && forall p :: p in selected ==> p in packages
    requires NoOtherArchitecture(selected, t.inventory) && DependenciesApart(packages, selected, dependencies)
    ensures InstallationVerified(packages, selected, t.inventory, t.After())
  {
    hide Planned.Valid, Planned.After, PackageVerified, NoOtherArchitecture, DependenciesApart;
    forall i | 0 <= i < |selected| ensures PackageVerified(selected[i], t.After()) {
      SelectedVerified(t, selected, dependencies, selected[i]);
    }
    forall i | 0 <= i < |packages| && !NameSelected(selected, packages[i].name)
      ensures Named(t.inventory, packages[i].name) == Named(t.After(), packages[i].name)
    {
      UnselectedUntouched(t, packages, selected, dependencies, packages[i]);
    }
  }

  lemma NameAgrees(
    t: Planned, packages: seq<Package>, selected: seq<Package>, dependencies: seq<Package>, q: Package)
    requires t.Valid() && t.expected == selected + dependencies && q in packages
    requires DependenciesApart(packages, selected, dependencies)
    ensures NameChanged(selected, t.inventory, t.After(), q.name) <==> RowBrings(t.rows, q.name)
  {
    hide Planned.Valid, Planned.After, RowBrings, PackageChanged;
    RowsBring(t, q.name);
    if NameChanged(selected, t.inventory, t.After(), q.name) {
      var i :| 0 <= i < |selected| && selected[i].name == q.name && PackageChanged(selected[i], t.inventory, t.After());
      assert selected[i] in t.expected;
      ChangedIsIncoming(t, selected[i]);
      IncomingHasPackage(t, selected[i]);
    }
    if id :| id in t.incoming && t.incoming[id].package.name == q.name {
      var p := t.incoming[id].package;
      IncomingExpected(t, id);
      assert NameSelected(selected, q.name);
      var k :| 0 <= k < |selected| && selected[k].name == q.name;
      assert selected[k] in t.expected;
      ExpectedByName(t, selected[k], p);
      IncomingKeyed(t, id);
      ChangedIsIncoming(t, p);
    }
  }

  lemma IncomingKeyed(t: Planned, id: string)
    requires t.Valid() && id in t.incoming
    ensures id == IdentityOf(t.incoming[id].package)
  {
    hide ValidInventory, ValidInput, NativeIdentity, IdentityOf;
  }

  lemma IncomingHasPackage(t: Planned, p: Package)
    requires t.Valid() && p in t.expected && IdentityOf(p) in t.incoming
    ensures t.incoming[IdentityOf(p)].package.name == p.name
  {
    hide ValidTriple, Denoted, NativeIdentity;
    IncomingKeyed(t, IdentityOf(p));
    IncomingExpected(t, IdentityOf(p));
    InputDenotes(t, p);
    InputDenotes(t, t.incoming[IdentityOf(p)].package);
  }
}
