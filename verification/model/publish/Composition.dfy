/** Composing the Pages site from every published release. */
module Composition {
  import opened Hosting
  import opened Options
  import opened Versions

  const MAX_SITE: nat := 996147200  // 950 MiB
  const MAX_MEMBERS: nat := 20000

  /** The recorded versions with the digest of the SHA256SUMS of each, no version recorded twice. */
  datatype Registry = Registry(published: map<Version, Digest>, retired: map<Version, Digest>)

  predicate ValidRegistry(registry: Registry) {
    registry.published.Keys !! registry.retired.Keys
  }

  /** What the Pages manifest records of a composed version. */
  datatype Entry = Entry(sums: Digest, archive: Digest, files: nat, releaseId: nat, commit: Commit)

  datatype Composed = Composed(entry: Entry, site: Site)

  /** The versions composed, the retired ones left out with the files they could have served, and the site. */
  datatype Composition = Composition(
    versions: map<Version, Entry>, gone: map<Version, set<string>>, output: map<Version, Site>)

  const SUMS_FILES: set<string> := {"SHA256SUMS", "SHA256SUMS.asc"}

  // ---- one release ----

  /** A release takes part in a composition: not a draft, tagged vX.Y.Z, and not the pending version. */
  predicate Candidate(w: World, pending: Option<Version>, id: nat) {
    && id in w.releases && !w.releases[id].draft && w.releases[id].tag.VersionTag?
    && Some(w.releases[id].tag.version) != pending
  }

  /** The composed release, once it passes every gate. */
  function Gate(g: Gates, release: Release, id: nat, tagged: TagLookup): Option<Composed>
    requires release.tag.VersionTag?
  {
    var v, assets := release.tag.version, release.assets;
    if !release.immutable || release.prerelease || assets.Keys != ReleaseAssets(v) then None
    else if exists name :: name in assets && assets[name].digest != g.sha(assets[name].content) then None
    else
      var archive, sums, signature := assets[Archive(v)].content, assets[Sums].content, assets[SumsSignature].content;
      if !g.signed(signature, sums) then None
      else
        match g.unpack(archive, v, sums, signature)
        case None => None
        case Some(site) =>
          if !tagged.Names? || !g.identity(site, v, tagged.commit) || !g.installerSigned(site) then None
          else if g.sha(g.pack(site)) != g.sha(archive) then None
          else if release.title != g.title(v) || Some(release.body) != g.notes(site, archive, v) then None
          else if !g.standalone(archive, v, sums, signature, assets[Manifest].content) then None
          else
            Some(Composed(Entry(g.sha(sums), g.sha(archive), g.members(site), id, tagged.commit), site))
  }

  function GateOf(g: Gates, w: World, id: nat): Option<Composed>
    requires id in w.releases && w.releases[id].tag.VersionTag?
  {
    Gate(g, w.releases[id], id, TagCommit(g, w, w.releases[id].tag))
  }

  /** The files a retired release could have served, once its record names it. */
  function RetiredFiles(g: Gates, release: Release, recorded: Digest): Option<set<string>> {
    if !release.immutable || release.prerelease || Sums !in release.assets then None
    else
      var sums := release.assets[Sums];
      if sums.digest != g.sha(sums.content) || g.sha(sums.content) != recorded then None
      else Some(GoneFiles(g, sums.content))
  }

  function GoneFiles(g: Gates, sums: Content): set<string> {
    match g.paths(sums)
    case None => SUMS_FILES
    case Some(listed) => if |listed + SUMS_FILES| <= MAX_MEMBERS then listed + SUMS_FILES else SUMS_FILES
  }

  // ---- all releases ----

  ghost predicate OlderThanPending(w: World, pending: Option<Version>) {
    pending.Some? ==> forall id :: Candidate(w, pending, id) ==> Older(w.releases[id].tag.version, pending.value)
  }

  ghost predicate OnePerVersion(w: World, pending: Option<Version>) {
    forall i, j :: Candidate(w, pending, i) && Candidate(w, pending, j) && w.releases[i].tag == w.releases[j].tag ==>
      i == j
  }

  /** The release passes: its gate, or the match with its retirement. */
  predicate Passes(g: Gates, w: World, registry: Registry, id: nat)
    requires id in w.releases && w.releases[id].tag.VersionTag?
  {
    var v := w.releases[id].tag.version;
    if v in registry.retired then RetiredFiles(g, w.releases[id], registry.retired[v]).Some?
    else GateOf(g, w, id).Some?
  }

  ghost predicate HasCandidate(w: World, pending: Option<Version>, v: Version) {
    exists id :: Candidate(w, pending, id) && w.releases[id].tag == VersionTag(v)
  }

  /** What a composition holds when every release passes. */
  ghost predicate Holds(g: Gates, w: World, registry: Registry, pending: Option<Version>, c: Composition) {
    && c.output.Keys == c.versions.Keys
    && (forall v :: v in c.versions <==> v !in registry.retired && HasCandidate(w, pending, v))
    && (forall v :: v in c.gone <==> v in registry.retired && HasCandidate(w, pending, v))
    && forall id :: Candidate(w, pending, id) ==> HoldsRelease(g, w, registry, c, id)
  }

  predicate HoldsRelease(g: Gates, w: World, registry: Registry, c: Composition, id: nat)
    requires id in w.releases && w.releases[id].tag.VersionTag?
  {
    var v := w.releases[id].tag.version;
    if v in registry.retired then
      v in c.gone && RetiredFiles(g, w.releases[id], registry.retired[v]) == Some(c.gone[v])
    else
      v in c.versions && v in c.output && GateOf(g, w, id) == Some(Composed(c.versions[v], c.output[v]))
  }

  /** Every recorded version is there: the published ones composed as recorded, the retired ones left out. */
  predicate Recorded(registry: Registry, c: Composition) {
    && (forall v :: v in registry.published ==> v in c.versions && c.versions[v].sums == registry.published[v])
    && (forall v :: v in registry.retired ==> v in c.gone)
  }

  /** c is the composition of all releases but the pending one: every gate passes. */
  ghost predicate Composes(g: Gates, w: World, registry: Registry, pending: Option<Version>, c: Composition) {
    && OlderThanPending(w, pending) && OnePerVersion(w, pending)
    && Holds(g, w, registry, pending, c) && Recorded(registry, c)
  }

  /** There is at most one composition. */
  lemma HoldsOnce(g: Gates, w: World, registry: Registry, pending: Option<Version>, c: Composition, d: Composition)
    requires Holds(g, w, registry, pending, c) && Holds(g, w, registry, pending, d)
    ensures c == d
  {
    hide HoldsRelease, HasCandidate, Candidate;
    forall v | v in c.versions ensures v in d.versions && c.versions[v] == d.versions[v] && c.output[v] == d.output[v] {
      VersionOnce(g, w, registry, pending, c, d, v);
    }
    forall v | v in c.gone ensures v in d.gone && c.gone[v] == d.gone[v] {
      VersionOnce(g, w, registry, pending, c, d, v);
    }
    assert c.versions.Keys == d.versions.Keys && c.gone.Keys == d.gone.Keys;
    assert c.versions == d.versions && c.output == d.output && c.gone == d.gone;
  }

  lemma VersionOnce(
    g: Gates, w: World, registry: Registry, pending: Option<Version>, c: Composition, d: Composition, v: Version)
    requires Holds(g, w, registry, pending, c) && Holds(g, w, registry, pending, d) && HasCandidate(w, pending, v)
    ensures if v in registry.retired then v in c.gone && v in d.gone && c.gone[v] == d.gone[v]
            else v in c.versions && v in d.versions && v in c.output && v in d.output
                 && c.versions[v] == d.versions[v] && c.output[v] == d.output[v]
  {
    hide HoldsRelease;
    var id :| Candidate(w, pending, id) && w.releases[id].tag == VersionTag(v);
    HeldAlike(g, w, registry, c, d, id);
  }

  lemma HeldAlike(g: Gates, w: World, registry: Registry, c: Composition, d: Composition, id: nat)
    requires id in w.releases && w.releases[id].tag.VersionTag?
    requires HoldsRelease(g, w, registry, c, id) && HoldsRelease(g, w, registry, d, id)
    ensures var v := w.releases[id].tag.version;
            if v in registry.retired then v in c.gone && v in d.gone && c.gone[v] == d.gone[v]
            else v in c.versions && v in d.versions && v in c.output && v in d.output
                 && c.versions[v] == d.versions[v] && c.output[v] == d.output[v]
  {
    hide GateOf, RetiredFiles;
  }

  // ---- compose_releases ----

  /** The composition of the candidates seen so far. */
  ghost predicate HoldsSeen(g: Gates, w: World, registry: Registry, seen: set<nat>, c: Composition) {
    && c.output.Keys == c.versions.Keys
    && (forall v :: v in c.versions ==> v !in registry.retired && SeenVersion(w, seen, v))
    && (forall v :: v in c.gone ==> v in registry.retired && SeenVersion(w, seen, v))
    && (forall id :: id in seen ==>
          id in w.releases && w.releases[id].tag.VersionTag? && HoldsRelease(g, w, registry, c, id))
    && (forall i, j :: i in seen && j in seen && w.releases[i].tag == w.releases[j].tag ==> i == j)
  }

  predicate SeenVersion(w: World, seen: set<nat>, v: Version) {
    exists id :: id in seen && id in w.releases && w.releases[id].tag == VersionTag(v)
  }

  lemma TwiceRefuses(g: Gates, w: World, registry: Registry, pending: Option<Version>, seen: set<nat>, id: nat)
    requires Candidate(w, pending, id) && id !in seen && SeenVersion(w, seen, w.releases[id].tag.version)
    requires forall i :: i in seen ==> Candidate(w, pending, i)
    ensures !OnePerVersion(w, pending)
  {
    var i :| i in seen && i in w.releases && w.releases[i].tag == VersionTag(w.releases[id].tag.version);
  }

  lemma FailedRefuses(g: Gates, w: World, registry: Registry, pending: Option<Version>, id: nat)
    requires Candidate(w, pending, id) && !Passes(g, w, registry, id)
    ensures forall c :: !Holds(g, w, registry, pending, c)
  {
    hide GateOf, RetiredFiles;
    assert forall c :: !HoldsRelease(g, w, registry, c, id);
  }

  lemma HoldsAll(g: Gates, w: World, registry: Registry, pending: Option<Version>, candidates: set<nat>, c: Composition)
    requires forall id :: id in candidates <==> Candidate(w, pending, id)
    requires HoldsSeen(g, w, registry, candidates, c)
    ensures OnePerVersion(w, pending) && Holds(g, w, registry, pending, c)
  {
    hide Gate, RetiredFiles, HoldsRelease;
    forall v | HasCandidate(w, pending, v) ensures if v in registry.retired then v in c.gone else v in c.versions {
      var id :| Candidate(w, pending, id) && w.releases[id].tag == VersionTag(v);
      ReleaseHeld(g, w, registry, c, id);
    }
    forall v | SeenVersion(w, candidates, v) ensures HasCandidate(w, pending, v) {
      var id :| id in candidates && id in w.releases && w.releases[id].tag == VersionTag(v);
    }
  }

  lemma ReleaseHeld(g: Gates, w: World, registry: Registry, c: Composition, id: nat)
    requires id in w.releases && w.releases[id].tag.VersionTag? && HoldsRelease(g, w, registry, c, id)
    ensures var v := w.releases[id].tag.version; if v in registry.retired then v in c.gone else v in c.versions
  {
  }

  lemma UnrecordedRefuses(g: Gates, w: World, registry: Registry, pending: Option<Version>, c: Composition)
    requires Holds(g, w, registry, pending, c) && !Recorded(registry, c)
    ensures forall d :: !Composes(g, w, registry, pending, d)
  {
    forall d | Holds(g, w, registry, pending, d) ensures c == d {
      HoldsOnce(g, w, registry, pending, c, d);
    }
  }

  /** The composition with one more release. */
  ghost predicate Adds(g: Gates, w: World, registry: Registry, c: Composition, id: nat, d: Composition)
    requires id in w.releases && w.releases[id].tag.VersionTag?
  {
    var v := w.releases[id].tag.version;
    if v in registry.retired then
      var files := RetiredFiles(g, w.releases[id], registry.retired[v]);
      files.Some? && d == c.(gone := c.gone[v := files.value])
    else
      var composed := GateOf(g, w, id);
      && composed.Some?
      && d == c.(versions := c.versions[v := composed.value.entry], output := c.output[v := composed.value.site])
  }

  lemma ReleaseAdded(g: Gates, w: World, registry: Registry, c: Composition, id: nat, d: Composition)
    requires id in w.releases && w.releases[id].tag.VersionTag? && Adds(g, w, registry, c, id, d)
    ensures HoldsRelease(g, w, registry, d, id)
    ensures var v := w.releases[id].tag.version;
            if v in registry.retired then
              d.gone.Keys == c.gone.Keys + {v} && d.versions == c.versions && d.output == c.output
            else
              d.gone == c.gone && d.versions.Keys == c.versions.Keys + {v} && d.output.Keys == c.output.Keys + {v}
  {
    hide GateOf, RetiredFiles;
  }

  lemma ReleaseKept(g: Gates, w: World, registry: Registry, c: Composition, id: nat, d: Composition, i: nat)
    requires id in w.releases && w.releases[id].tag.VersionTag? && Adds(g, w, registry, c, id, d)
    requires i in w.releases && w.releases[i].tag.VersionTag? && HoldsRelease(g, w, registry, c, i)
    requires w.releases[id].tag.version !in c.versions && w.releases[id].tag.version !in c.gone
    ensures HoldsRelease(g, w, registry, d, i) && w.releases[i].tag != w.releases[id].tag
  {
    hide GateOf, RetiredFiles;
  }

  /** One more release is seen. */
  lemma HoldsOneMore(g: Gates, w: World, registry: Registry, seen: set<nat>, c: Composition, id: nat, d: Composition)
    requires HoldsSeen(g, w, registry, seen, c) && id in w.releases && w.releases[id].tag.VersionTag?
    requires w.releases[id].tag.version !in c.versions && w.releases[id].tag.version !in c.gone
    requires Adds(g, w, registry, c, id, d)
    ensures HoldsSeen(g, w, registry, seen + {id}, d)
  {
    hide Adds, HoldsRelease, SeenVersion;
    ReleaseAdded(g, w, registry, c, id, d);
    forall i | i in seen ensures HoldsRelease(g, w, registry, d, i) && w.releases[i].tag != w.releases[id].tag {
      ReleaseKept(g, w, registry, c, id, d, i);
    }
    SeenMore(w, seen, id);
  }

  lemma SeenMore(w: World, seen: set<nat>, id: nat)
    requires id in w.releases
    ensures forall v :: SeenVersion(w, seen, v) ==> SeenVersion(w, seen + {id}, v)
    ensures w.releases[id].tag.VersionTag? ==> SeenVersion(w, seen + {id}, w.releases[id].tag.version)
  {
    forall v | SeenVersion(w, seen, v) ensures SeenVersion(w, seen + {id}, v) {
      var i :| i in seen && i in w.releases && w.releases[i].tag == VersionTag(v);
      assert i in seen + {id};
    }
    assert id in seen + {id};
  }

  /**
   compose_releases: the releases are taken in any order, since only the first
   refusal depends on it.
   */
  method ComposeReleases(g: Gates, w: World, registry: Registry, pending: Option<Version>)
    returns (r: Option<Composition>)
    ensures r.Some? ==> Composes(g, w, registry, pending, r.value)
    ensures r.None? ==> !exists c :: Composes(g, w, registry, pending, c)
  {
    hide Gate, GateOf, RetiredFiles, Holds, HoldsSeen, HoldsRelease;
    var candidates := set id | id in w.releases && Candidate(w, pending, id);
    if pending.Some? && exists id :: id in candidates && !Older(w.releases[id].tag.version, pending.value) {
      return None;
    }
    var todo := candidates;
    var c := Composition(map[], map[], map[]);
    NothingSeen(g, w, registry);
    assert candidates - todo == {};
    while todo != {}
      invariant todo <= candidates
      invariant HoldsSeen(g, w, registry, candidates - todo, c)
    {
      ghost var seen := candidates - todo;
      var id :| id in todo;
      var v := w.releases[id].tag.version;
      if v in c.versions || v in c.gone {
        SeenOnce(g, w, registry, seen, c, v);
        TwiceRefuses(g, w, registry, pending, seen, id);
        return None;
      }
      var d := c;
      if v in registry.retired {
        var files := RetiredFiles(g, w.releases[id], registry.retired[v]);
        if files.None? {
          FailedRefuses(g, w, registry, pending, id);
          return None;
        }
        d := c.(gone := c.gone[v := files.value]);
      } else {
        var composed := GateOf(g, w, id);
        if composed.None? {
          FailedRefuses(g, w, registry, pending, id);
          return None;
        }
        d := c.(versions := c.versions[v := composed.value.entry], output := c.output[v := composed.value.site]);
      }
      HoldsOneMore(g, w, registry, seen, c, id, d);
      c, todo := d, todo - {id};
      assert candidates - todo == seen + {id};
    }
    assert candidates - todo == candidates;
    HoldsAll(g, w, registry, pending, candidates, c);
    if !Recorded(registry, c) {
      UnrecordedRefuses(g, w, registry, pending, c);
      return None;
    }
    return Some(c);
  }

  lemma NothingSeen(g: Gates, w: World, registry: Registry)
    ensures HoldsSeen(g, w, registry, {}, Composition(map[], map[], map[]))
  {
  }

  lemma SeenOnce(g: Gates, w: World, registry: Registry, seen: set<nat>, c: Composition, v: Version)
    requires HoldsSeen(g, w, registry, seen, c) && (v in c.versions || v in c.gone)
    ensures SeenVersion(w, seen, v)
  {
    hide HoldsRelease;
  }
}
