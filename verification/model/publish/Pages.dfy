/** compose-pages, and the room check that runs it dry. */
module Pages {
  import opened Composition
  import opened Hosting
  import opened Options
  import opened Ordering
  import opened Versions

  // ---- the bytes of a site ----

  /** The bytes of a composed site, its versions summed in some order. */
  ghost function SiteBytes(g: Gates, output: map<Version, Site>): nat {
    if output == map[] then 0
    else
      var v :| v in output;
      g.bytes(output[v]) + SiteBytes(g, output - {v})
  }

  /** The order does not matter: any version can be summed first. */
  lemma {:induction false} SiteBytesTake(g: Gates, output: map<Version, Site>, v: Version)
    requires v in output
    ensures SiteBytes(g, output) == g.bytes(output[v]) + SiteBytes(g, output - {v})
    decreases |output|
  {
    var u :| u in output && SiteBytes(g, output) == g.bytes(output[u]) + SiteBytes(g, output - {u});
    if u != v {
      var fewer := output - {u};
      SiteBytesTake(g, fewer, v);
      SiteBytesTake(g, output - {v}, u);
      assert fewer - {v} == output - {v} - {u};
    }
  }

  lemma SiteBytesAdd(g: Gates, output: map<Version, Site>, v: Version, site: Site)
    requires v !in output
    ensures SiteBytes(g, output[v := site]) == SiteBytes(g, output) + g.bytes(site)
  {
    SiteBytesTake(g, output[v := site], v);
    assert output[v := site] - {v} == output;
  }

  method SumBytes(g: Gates, output: map<Version, Site>) returns (total: nat)
    ensures total == SiteBytes(g, output)
  {
    total := 0;
    var rest := output;
    while rest.Keys != {}
      invariant total + SiteBytes(g, rest) == SiteBytes(g, output)
      decreases |rest|
    {
      var v :| v in rest.Keys;
      SiteBytesTake(g, rest, v);
      total, rest := total + g.bytes(rest[v]), rest - {v};
    }
    assert rest == map[];
  }

  // ---- the checks after composing ----

  /** check_recorded: every tagged version but this one has an entry in the registry. */
  predicate AllRecorded(w: World, registry: Registry, version: Option<Version>) {
    forall tag :: tag in w.tags && tag.VersionTag? ==>
      tag.version in registry.published || tag.version in registry.retired || Some(tag.version) == version
  }

  /** check_live_sums: every composed version but the undeployed one is live with its SHA256SUMS. */
  predicate LiveAgrees(w: World, versions: map<Version, Entry>, undeployed: Option<Version>) {
    forall v :: v in versions && Some(v) != undeployed ==> v in w.live && w.live[v] == versions[v].sums
  }

  /** The room check passes with this composition: the site fits beside the reserved bytes. */
  ghost predicate HasRoom(g: Gates, w: World, registry: Registry, version: Version, reserve: nat, c: Composition) {
    && version !in registry.published && version !in registry.retired
    && Composes(g, w, registry, Some(version), c)
    && AllRecorded(w, registry, Some(version)) && LiveAgrees(w, c.versions, None)
    && SiteBytes(g, c.output) + reserve <= MAX_SITE
  }

  /** check_pages_room: the dry composition, exactly when it has room. */
  method CheckPagesRoom(g: Gates, w: World, registry: Registry, version: Version, reserve: nat)
    returns (r: Option<Composition>)
    ensures r.Some? ==> HasRoom(g, w, registry, version, reserve, r.value)
    ensures r.None? ==> forall c :: !HasRoom(g, w, registry, version, reserve, c)
  {
    hide Holds, SiteBytes;
    if version in registry.published || version in registry.retired {
      return None;
    }
    r := ComposeReleases(g, w, registry, Some(version));
    if r.None? {
      return;
    }
    var c := r.value;
    forall d | Composes(g, w, registry, Some(version), d) ensures d == c {
      HoldsOnce(g, w, registry, Some(version), c, d);
    }
    var total := SumBytes(g, c.output);
    if !AllRecorded(w, registry, Some(version)) || !LiveAgrees(w, c.versions, None) || total + reserve > MAX_SITE {
      return None;
    }
  }

  /** What compose-pages writes beside the site; the base URL is the committed one. */
  datatype Record = Record(
    versions: map<Version, Entry>, totalBytes: nat, newVersion: Option<Version>, retired: map<Version, set<string>>)

  /** Every gate of compose-pages passes with this composition. */
  ghost predicate PagesPass(
    g: Gates, w: World, registry: Registry, committed: Version, newVersion: Option<Version>, c: Composition)
  {
    && newVersion in {None, Some(committed)}
    && Composes(g, w, registry, None, c)
    && (newVersion.Some? ==> IsNewest(newVersion.value, c.versions.Keys))
    && AllRecorded(w, registry, newVersion) && LiveAgrees(w, c.versions, newVersion)
    && SiteBytes(g, c.output) <= MAX_SITE
  }

  function RecordOf(c: Composition, total: nat, newVersion: Option<Version>): Record {
    Record(c.versions, total, newVersion, c.gone)
  }

  /** The record is that of a composition that passes every gate. */
  ghost predicate IsRecord(
    g: Gates, w: World, registry: Registry, committed: Version, newVersion: Option<Version>, record: Record)
  {
    exists c ::
      && PagesPass(g, w, registry, committed, newVersion, c)
      && record == RecordOf(c, SiteBytes(g, c.output), newVersion)
  }

  /** compose-pages: the record of the composition, exactly when every gate passes. */
  method ComposePages(g: Gates, w: World, registry: Registry, committed: Version, newVersion: Option<Version>)
    returns (r: Option<Record>)
    ensures r.Some? ==> IsRecord(g, w, registry, committed, newVersion, r.value)
    ensures r.None? ==> forall c :: !PagesPass(g, w, registry, committed, newVersion, c)
  {
    hide Holds, SiteBytes;
    if newVersion.Some? && newVersion.value != committed {
      return None;
    }
    var composed := ComposeReleases(g, w, registry, None);
    if composed.None? {
      return None;
    }
    var c := composed.value;
    forall d | Composes(g, w, registry, None, d) ensures d == c {
      HoldsOnce(g, w, registry, None, c, d);
    }
    if newVersion.Some? && !IsNewest(newVersion.value, c.versions.Keys) {
      return None;
    }
    if !AllRecorded(w, registry, newVersion) || !LiveAgrees(w, c.versions, newVersion) {
      return None;
    }
    var total := SumBytes(g, c.output);
    if total > MAX_SITE {
      return None;
    }
    return Some(RecordOf(c, total, newVersion));
  }

  // ---- what a composition serves ----

  /** The non-draft vX.Y.Z releases. */
  ghost predicate HasRelease(w: World, v: Version) {
    HasCandidate(w, None, v)
  }

  lemma ComposedTagged(g: Gates, w: World, registry: Registry, pending: Option<Version>, c: Composition, v: Version)
    requires Holds(g, w, registry, pending, c) && v in c.versions
    ensures VersionTag(v) in w.tags && TagCommit(g, w, VersionTag(v)) == Names(c.versions[v].commit)
  {
    var id :| Candidate(w, pending, id) && w.releases[id].tag == VersionTag(v);
    assert HoldsRelease(g, w, registry, c, id);
  }

  /**
   Exactly the recorded versions and the new one are served, each published one
   with its recorded digest; exactly the retired ones are left out; and the two
   together are all versions with a non-draft release.
   */
  lemma ServedExactly(
    g: Gates, w: World, registry: Registry, committed: Version, newVersion: Option<Version>, c: Composition)
    requires ValidRegistry(registry) && PagesPass(g, w, registry, committed, newVersion, c)
    ensures c.versions.Keys
         == registry.published.Keys + (if newVersion.Some? then {newVersion.value} else {})
    ensures c.gone.Keys == registry.retired.Keys
    ensures c.versions.Keys !! c.gone.Keys
    ensures forall v :: v in c.versions || v in c.gone <==> HasRelease(w, v)
    ensures forall v :: v in registry.published ==> c.versions[v].sums == registry.published[v]
  {
    hide Gate, RetiredFiles, HoldsRelease, SiteBytes;
    forall v | v in c.versions ensures v in registry.published || Some(v) == newVersion {
      ComposedTagged(g, w, registry, None, c, v);
      assert VersionTag(v).version == v;
    }
  }
}
