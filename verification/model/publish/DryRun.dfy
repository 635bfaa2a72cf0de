/** The room check, run before anything irreversible, decides the composition that comes after it. */
module DryRun {
  import opened Composition
  import opened Hosting
  import opened Options
  import opened Pages
  import opened Versions

  // ---- the publication in the assets directory ----

  /** The digests of the publication's files, and the bytes of its site. */
  datatype Local = Local(digests: map<AssetName, Digest>, size: nat)

  /** local_assets: the files are this release; with notes, they must be its rendering. */
  function LocalAssets(
    g: Gates, files: map<AssetName, Content>, version: Version, commit: Commit, notes: Option<string>): Option<Local>
  {
    if !(ReleaseAssets(version) <= files.Keys) then None
    else
      var archive, sums := files[Archive(version)], files[Sums];
      if !g.standalone(archive, version, sums, files[SumsSignature], files[Manifest]) then None
      else if !g.signed(files[SumsSignature], sums) then None
      else
        match g.unpack(archive, version, sums, files[SumsSignature])
        case None => None
        case Some(site) =>
          if !g.identity(site, version, commit) || !g.installerSigned(site) then None
          else if g.sha(g.pack(site)) != g.sha(archive) then None
          else if notes.Some? && g.notes(site, archive, version) != notes then None
          else if g.bytes(site) > MAX_SITE then None
          else Some(Local(map name | name in ReleaseAssets(version) :: g.sha(files[name]), g.bytes(site)))
  }

  // ---- what the listings show ----

  datatype Listing = Listing(
    tag: Tag, immutable: bool, prerelease: bool, title: string, body: string, digests: map<AssetName, Digest>)

  datatype Snapshot = Snapshot(releases: map<nat, Listing>, tags: map<Tag, Object>)

  function ListingOf(r: Release): Listing {
    Listing(r.tag, r.immutable, r.prerelease, r.title, r.body, Digests(r.assets))
  }

  /** served_state: every other non-draft vX.Y.Z release and the other v tags, from the listings alone. */
  function Served(w: World, version: Version): Snapshot {
    Snapshot(map id | id in w.releases && Candidate(w, Some(version), id) :: ListingOf(w.releases[id]),
             map tag | tag in w.tags && tag != VersionTag(version) :: w.tags[tag])
  }

  lemma ServedAlike(a: World, b: World, version: Version, id: nat)
    requires Served(a, version) == Served(b, version)
    ensures Candidate(a, Some(version), id) <==> Candidate(b, Some(version), id)
    ensures Candidate(a, Some(version), id) ==> ListingOf(a.releases[id]) == ListingOf(b.releases[id])
  {
    hide ListingOf;
    var s, t := Served(a, version).releases, Served(b, version).releases;
    assert id in s <==> Candidate(a, Some(version), id);
    assert id in t <==> Candidate(b, Some(version), id);
    assert id in s ==> s[id] == ListingOf(a.releases[id]) && t[id] == ListingOf(b.releases[id]);
  }

  lemma TagsAlike(g: Gates, a: World, b: World, version: Version, tag: Tag)
    requires Served(a, version) == Served(b, version) && tag != VersionTag(version)
    ensures tag in a.tags <==> tag in b.tags
    ensures TagCommit(g, a, tag) == TagCommit(g, b, tag)
  {
    hide ListingOf;
    var s, t := Served(a, version).tags, Served(b, version).tags;
    assert tag in s <==> tag in a.tags;
    assert tag in t <==> tag in b.tags;
    assert tag in s ==> s[tag] == a.tags[tag] && t[tag] == b.tags[tag];
  }

  /** Every digest of the release is the digest of its bytes. */
  predicate HonestRelease(g: Gates, r: Release) {
    forall name :: name in r.assets ==> r.assets[name].digest == g.sha(r.assets[name].content)
  }

  lemma AssetsAlike(g: Gates, r: Release, s: Release)
    requires InjectiveSha(g) && HonestRelease(g, r) && HonestRelease(g, s) && Digests(r.assets) == Digests(s.assets)
    ensures r.assets == s.assets
  {
    var d, e := Digests(r.assets), Digests(s.assets);
    forall name ensures name in r.assets <==> name in s.assets {
      assert name in d <==> name in r.assets;
      assert name in e <==> name in s.assets;
    }
    forall name | name in r.assets ensures r.assets[name] == s.assets[name] {
      assert d[name] == r.assets[name].digest && e[name] == s.assets[name].digest;
      assert g.sha(r.assets[name].content) == g.sha(s.assets[name].content);
    }
  }

  /** Releases with the same listing pass the same gates with the same outcome. */
  lemma GatesAlike(g: Gates, r: Release, s: Release, id: nat, tagged: TagLookup, recorded: Digest)
    requires InjectiveSha(g) && HonestRelease(g, r) && HonestRelease(g, s)
    requires ListingOf(r) == ListingOf(s) && r.tag.VersionTag?
    ensures Gate(g, r, id, tagged) == Gate(g, s, id, tagged)
    ensures RetiredFiles(g, r, recorded) == RetiredFiles(g, s, recorded)
  {
    AssetsAlike(g, r, s);
  }

  lemma HonestAt(g: Gates, w: World, id: nat)
    requires Honest(g, w) && id in w.releases
    ensures HonestRelease(g, w.releases[id])
  {
  }

  /** A release held in the room check's composition is held after publication too. */
  lemma HeldAfter(
    g: Gates, room: World, after: World, registry: Registry, version: Version, c: Composition, d: Composition, id: nat)
    requires InjectiveSha(g) && Honest(g, room) && Honest(g, after) && Served(room, version) == Served(after, version)
    requires Candidate(room, Some(version), id) && Candidate(after, Some(version), id)
    requires HoldsRelease(g, room, registry, c, id)
    requires d.gone == c.gone && forall v :: v in c.versions && v in c.output && v != version ==>
               v in d.versions && v in d.output && d.versions[v] == c.versions[v] && d.output[v] == c.output[v]
    ensures HoldsRelease(g, after, registry, d, id) && after.releases[id].tag == room.releases[id].tag
  {
    hide Gate, RetiredFiles, Served;
    var r, s := room.releases[id], after.releases[id];
    ServedAlike(room, after, version, id);
    TagsAlike(g, room, after, version, r.tag);
    HonestAt(g, room, id);
    HonestAt(g, after, id);
    var recorded := if r.tag.version in registry.retired then registry.retired[r.tag.version] else 0;
    GatesAlike(g, r, s, id, TagCommit(g, room, r.tag), recorded);
  }

  // ---- the published release ----

  /** What publish_release reads last: the immutable release of this publication, its tag at the commit. */
  predicate IsFinal(g: Gates, w: World, id: nat, version: Version, commit: Commit, body: string, local: Local) {
    && id in w.releases
    && var r := w.releases[id];
       && !r.draft && r.immutable && !r.prerelease && r.tag == VersionTag(version)
       && r.title == g.title(version) && r.body == body && Digests(r.assets) == local.digests
       && TagCommit(g, w, r.tag) == Names(commit)
  }

  /** No other release has the tag. */
  ghost predicate OnlyRelease(w: World, id: nat, version: Version) {
    forall i :: i in w.releases && w.releases[i].tag == VersionTag(version) ==> i == id
  }

  /** The entry and the site a publication is composed as. */
  function PublishedAs(g: Gates, files: map<AssetName, Content>, version: Version, commit: Commit, id: nat)
    : Option<Composed>
  {
    if !(ReleaseAssets(version) <= files.Keys) then None
    else
      match g.unpack(files[Archive(version)], version, files[Sums], files[SumsSignature])
      case None => None
      case Some(site) =>
        Some(Composed(Entry(g.sha(files[Sums]), g.sha(files[Archive(version)]), g.members(site), id, commit), site))
  }

  /** The publication's own checks are the gates its release passes. */
  lemma PublicationPasses(
    g: Gates, w: World, files: map<AssetName, Content>, version: Version, commit: Commit, body: string, id: nat)
    requires InjectiveSha(g) && Honest(g, w)
    requires LocalAssets(g, files, version, commit, Some(body)).Some?
    requires IsFinal(g, w, id, version, commit, body, LocalAssets(g, files, version, commit, Some(body)).value)
    ensures PublishedAs(g, files, version, commit, id).Some?
    ensures GateOf(g, w, id) == PublishedAs(g, files, version, commit, id)
    ensures g.bytes(PublishedAs(g, files, version, commit, id).value.site)
         == LocalAssets(g, files, version, commit, Some(body)).value.size
  {
    var r, local := w.releases[id], LocalAssets(g, files, version, commit, Some(body)).value;
    HonestAt(g, w, id);
    PublishedContents(g, r, files, version, local);
  }

  lemma PublishedContents(g: Gates, r: Release, files: map<AssetName, Content>, version: Version, local: Local)
    requires InjectiveSha(g) && HonestRelease(g, r) && ReleaseAssets(version) <= files.Keys
    requires local.digests == map name | name in ReleaseAssets(version) :: g.sha(files[name])
    requires Digests(r.assets) == local.digests
    ensures r.assets.Keys == ReleaseAssets(version)
    ensures forall name :: name in ReleaseAssets(version) ==> r.assets[name].content == files[name]
  {
    var d := Digests(r.assets);
    forall name ensures name in r.assets <==> name in ReleaseAssets(version) {
      assert name in d <==> name in r.assets;
    }
    forall name | name in ReleaseAssets(version) ensures r.assets[name].content == files[name] {
      assert d[name] == g.sha(r.assets[name].content) && d[name] == g.sha(files[name]);
    }
  }

  // ---- the dry run is faithful ----

  /** The composition of the room check with the published version added. */
  function WithPublished(c: Composition, version: Version, published: Composed): Composition {
    Composition(c.versions[version := published.entry], c.gone, c.output[version := published.site])
  }

  /** The live files of the other versions are those of the room check. */
  predicate LiveAlike(a: World, b: World, version: Version) {
    forall v :: v in a.live && v != version ==> v in b.live && b.live[v] == a.live[v]
  }

  /** The world after a publication, as far as composing goes: the others as listed, this version published once. */
  ghost predicate Follows(g: Gates, room: World, after: World, version: Version, id: nat) {
    && Honest(g, room) && Honest(g, after)
    && Served(room, version) == Served(after, version) && LiveAlike(room, after, version)
    && OnlyRelease(after, id, version)
  }

  lemma CandidatesAfter(room: World, after: World, version: Version, id: nat)
    requires Served(room, version) == Served(after, version) && OnlyRelease(after, id, version)
    requires id in after.releases && !after.releases[id].draft && after.releases[id].tag == VersionTag(version)
    ensures forall i :: Candidate(after, None, i) <==> i == id || Candidate(room, Some(version), i)
    ensures forall i :: Candidate(room, Some(version), i) ==>
              i != id && Candidate(after, Some(version), i) && after.releases[i].tag == room.releases[i].tag
  {
    hide Served;
    forall i ensures Candidate(room, Some(version), i) <==> Candidate(after, Some(version), i)
             ensures Candidate(room, Some(version), i) ==> after.releases[i].tag == room.releases[i].tag
    {
      ServedAlike(room, after, version, i);
    }
  }

  /** The versions with candidates are those of the room check and this one. */
  lemma VersionsAfter(room: World, after: World, version: Version, id: nat)
    requires Served(room, version) == Served(after, version) && OnlyRelease(after, id, version)
    requires id in after.releases && !after.releases[id].draft && after.releases[id].tag == VersionTag(version)
    ensures forall v :: HasCandidate(after, None, v) <==> v == version || HasCandidate(room, Some(version), v)
    ensures !HasCandidate(room, Some(version), version)
  {
    hide Served;
    CandidatesAfter(room, after, version, id);
    forall v ensures HasCandidate(after, None, v) <==> v == version || HasCandidate(room, Some(version), v) {
      if HasCandidate(after, None, v) {
        var i :| Candidate(after, None, i) && after.releases[i].tag == VersionTag(v);
      }
      if HasCandidate(room, Some(version), v) {
        var i :| Candidate(room, Some(version), i) && room.releases[i].tag == VersionTag(v);
        assert Candidate(after, None, i) && after.releases[i].tag == VersionTag(v);
      }
      assert Candidate(after, None, id);
    }
  }

  lemma ComposesAfter(
    g: Gates, room: World, after: World, registry: Registry, version: Version, id: nat, c: Composition,
    published: Composed)
    requires InjectiveSha(g) && Follows(g, room, after, version, id)
    requires version !in registry.published && version !in registry.retired
    requires Composes(g, room, registry, Some(version), c)
    requires id in after.releases && !after.releases[id].draft && after.releases[id].tag == VersionTag(version)
    requires GateOf(g, after, id) == Some(published)
    ensures Composes(g, after, registry, None, WithPublished(c, version, published))
  {
    hide GateOf, Served, Honest, HoldsRelease, Holds, OnePerVersion, Recorded, Candidate;
    var d := WithPublished(c, version, published);
    OnceAfter(room, after, version, id);
    ReleasesHeldAfter(g, room, after, registry, version, id, c, published);
    VersionsAfter(room, after, version, id);
    HoldsAfter(g, room, after, registry, version, c, d);
    RecordedWith(registry, version, c, published);
  }

  lemma OnceAfter(room: World, after: World, version: Version, id: nat)
    requires Served(room, version) == Served(after, version) && OnlyRelease(after, id, version)
    requires id in after.releases && !after.releases[id].draft && after.releases[id].tag == VersionTag(version)
    requires OnePerVersion(room, Some(version))
    ensures OnePerVersion(after, None)
  {
    hide Served;
    CandidatesAfter(room, after, version, id);
  }

  lemma ReleasesHeldAfter(
    g: Gates, room: World, after: World, registry: Registry, version: Version, id: nat, c: Composition,
    published: Composed)
    requires InjectiveSha(g) && Follows(g, room, after, version, id)
    requires version !in registry.retired && Holds(g, room, registry, Some(version), c)
    requires id in after.releases && !after.releases[id].draft && after.releases[id].tag == VersionTag(version)
    requires GateOf(g, after, id) == Some(published)
    ensures forall i :: Candidate(after, None, i) ==>
              HoldsRelease(g, after, registry, WithPublished(c, version, published), i)
  {
    hide GateOf, Served, Honest, HoldsRelease, HasCandidate, LiveAlike;
    var d := WithPublished(c, version, published);
    CandidatesAfter(room, after, version, id);
    PublishedHeld(g, after, registry, version, id, published, d);
    forall i | Candidate(room, Some(version), i) ensures HoldsRelease(g, after, registry, d, i) {
      HeldAfter(g, room, after, registry, version, c, d, i);
    }
  }

  lemma HoldsAfter(
    g: Gates, room: World, after: World, registry: Registry, version: Version, c: Composition, d: Composition)
    requires Holds(g, room, registry, Some(version), c) && version !in registry.retired
    requires d.gone == c.gone && d.versions.Keys == c.versions.Keys + {version}
    requires d.output.Keys == c.output.Keys + {version}
    requires forall v :: HasCandidate(after, None, v) <==> v == version || HasCandidate(room, Some(version), v)
    requires forall i :: Candidate(after, None, i) ==> HoldsRelease(g, after, registry, d, i)
    ensures Holds(g, after, registry, None, d)
  {
    hide HoldsRelease, HasCandidate, Candidate;
    assert forall v :: v in d.versions <==> v in c.versions || v == version;
  }

  lemma RecordedWith(registry: Registry, version: Version, c: Composition, published: Composed)
    requires Recorded(registry, c) && version !in registry.published
    ensures Recorded(registry, WithPublished(c, version, published))
  {
  }

  lemma PublishedHeld(
    g: Gates, w: World, registry: Registry, version: Version, id: nat, published: Composed, d: Composition)
    requires id in w.releases && w.releases[id].tag == VersionTag(version) && version !in registry.retired
    requires GateOf(g, w, id) == Some(published)
    requires version in d.versions && d.versions[version] == published.entry
    requires version in d.output && d.output[version] == published.site
    ensures HoldsRelease(g, w, registry, d, id)
  {
    hide GateOf;
  }

  /**
   The dry run is faithful. When the room check passed with this composition,
   publication ended with this release, and since then only drafts and this
   version's own release and tag changed, compose-pages with this version as
   the new one passes every gate, and serves the room check's versions and it.
   */
  lemma DryRunFaithful(
    g: Gates, room: World, after: World, registry: Registry, version: Version, id: nat, c: Composition,
    files: map<AssetName, Content>, commit: Commit, body: string)
    requires InjectiveSha(g) && Follows(g, room, after, version, id)
    requires LocalAssets(g, files, version, commit, Some(body)).Some?
    requires var local := LocalAssets(g, files, version, commit, Some(body)).value;
             HasRoom(g, room, registry, version, local.size, c) && IsFinal(g, after, id, version, commit, body, local)
    ensures PublishedAs(g, files, version, commit, id).Some?
    ensures PagesPass(g, after, registry, version, Some(version),
                      WithPublished(c, version, PublishedAs(g, files, version, commit, id).value))
  {
    hide GateOf, Served, Honest, Composes, SiteBytes, LocalAssets, PublishedAs, AllRecorded, LiveAgrees, LiveAlike;
    hide OnlyRelease, IsNewest, Digests;
    PublicationPasses(g, after, files, version, commit, body, id);
    var published := PublishedAs(g, files, version, commit, id).value;
    ComposesAfter(g, room, after, registry, version, id, c, published);
    NewestAfter(g, room, registry, version, c, WithPublished(c, version, published));
    RecordedAfter(g, room, after, registry, version);
    LiveAfter(g, room, after, registry, version, c, published);
    SiteBytesAdd(g, c.output, version, published.site);
  }

  lemma LiveAfter(
    g: Gates, room: World, after: World, registry: Registry, version: Version, c: Composition, published: Composed)
    requires Composes(g, room, registry, Some(version), c)
    requires LiveAgrees(room, c.versions, None) && LiveAlike(room, after, version)
    ensures LiveAgrees(after, WithPublished(c, version, published).versions, Some(version))
    ensures version !in c.versions && version !in c.output
  {
    hide HoldsRelease;
    assert !HasCandidate(room, Some(version), version);
  }

  lemma NewestAfter(
    g: Gates, room: World, registry: Registry, version: Version, c: Composition, d: Composition)
    requires Composes(g, room, registry, Some(version), c) && d.versions.Keys == c.versions.Keys + {version}
    ensures IsNewest(version, d.versions.Keys)
  {
    hide HoldsRelease;
    forall v | v in c.versions ensures Older(v, version) {
      var i :| Candidate(room, Some(version), i) && room.releases[i].tag == VersionTag(v);
    }
  }

  lemma RecordedAfter(g: Gates, room: World, after: World, registry: Registry, version: Version)
    requires AllRecorded(room, registry, Some(version)) && Served(room, version) == Served(after, version)
    ensures AllRecorded(after, registry, Some(version))
  {
    hide Served;
    forall tag | tag in after.tags && tag.VersionTag? && tag.version != version ensures tag in room.tags {
      TagsAlike(g, room, after, version, tag);
    }
  }
}
