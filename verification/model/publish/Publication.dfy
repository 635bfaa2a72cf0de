/** What a publication may find on GitHub, and what each of its writes makes of it. */
module Publication {
  import opened Composition
  import opened DryRun
  import opened Hosting
  import opened Options
  import opened Versions

  /** One publication: the files in the assets directory, the notes, the release commit. */
  datatype Plan = Plan(version: Version, files: map<AssetName, Content>, body: string, commit: Commit)

  /** The state publish_state finds, with the matching release. */
  datatype State = Fresh | DraftResume(id: nat) | PublishedResume(id: nat)

  ghost predicate IsTagged(w: World, id: nat, version: Version) {
    id in w.releases && w.releases[id].tag == VersionTag(version)
  }

  predicate TagFits(g: Gates, w: World, p: Plan) {
    TagCommit(g, w, VersionTag(p.version)) in {Absent, Names(p.commit)}
  }

  predicate PartOf(assets: map<AssetName, Asset>, local: Local) {
    forall name :: name in assets ==> name in local.digests && assets[name].digest == local.digests[name]
  }

  /** A draft this publication can resume. */
  predicate Resumable(g: Gates, w: World, p: Plan, local: Local, id: nat) {
    && id in w.releases
    && var r := w.releases[id];
       && r.tag == VersionTag(p.version) && r.draft && !r.prerelease && r.target == p.commit
       && PartOf(r.assets, local) && TagFits(g, w, p)
  }

  /** This publication, already released. */
  predicate Released(g: Gates, w: World, p: Plan, local: Local, id: nat) {
    && id in w.releases
    && var r := w.releases[id];
       && r.tag == VersionTag(p.version) && !r.draft && !r.prerelease && r.immutable
       && Digests(r.assets) == local.digests && TagCommit(g, w, r.tag) == Names(p.commit)
  }

  /** The state of the publication: no trace of it, or its one release, in the making or out. */
  ghost predicate IsState(g: Gates, w: World, p: Plan, local: Local, s: State) {
    match s
    case Fresh => (forall id :: !IsTagged(w, id, p.version)) && TagCommit(g, w, VersionTag(p.version)) == Absent
    case DraftResume(id) => OnlyRelease(w, id, p.version) && Resumable(g, w, p, local, id)
    case PublishedResume(id) => OnlyRelease(w, id, p.version) && Released(g, w, p, local, id)
  }

  lemma DigestsPart(assets: map<AssetName, Asset>, local: Local)
    ensures Digests(assets) == local.digests <==> PartOf(assets, local) && assets.Keys == local.digests.Keys
  {
    var d := Digests(assets);
    assert d.Keys == assets.Keys;
    if PartOf(assets, local) && assets.Keys == local.digests.Keys {
      assert d == local.digests;
    }
  }

  /** The same, by the set of all releases with the tag. */
  ghost predicate IsStateOf(g: Gates, w: World, p: Plan, local: Local, matches: set<nat>, s: State) {
    match s
    case Fresh => matches == {} && TagCommit(g, w, VersionTag(p.version)) == Absent
    case DraftResume(id) => matches == {id} && Resumable(g, w, p, local, id)
    case PublishedResume(id) => matches == {id} && Released(g, w, p, local, id)
  }

  lemma StateMatches(g: Gates, w: World, p: Plan, local: Local, matches: set<nat>, s: State)
    requires forall id :: id in matches <==> IsTagged(w, id, p.version)
    ensures IsState(g, w, p, local, s) <==> IsStateOf(g, w, p, local, matches, s)
  {
    hide Resumable, Released;
    if !s.Fresh? {
      OnlyMatch(w, p.version, matches, s.id);
      StateTagged(g, w, p, local, s);
    } else if IsState(g, w, p, local, s) {
      assert forall id :: id !in matches;
    }
  }

  lemma OnlyMatch(w: World, version: Version, matches: set<nat>, id: nat)
    requires forall i :: i in matches <==> IsTagged(w, i, version)
    ensures matches == {id} <==> IsTagged(w, id, version) && OnlyRelease(w, id, version)
  {
    if IsTagged(w, id, version) && OnlyRelease(w, id, version) {
      assert forall i :: i in matches ==> i == id;
    }
    if matches == {id} {
      assert id in matches;
      forall i | i in w.releases && w.releases[i].tag == VersionTag(version) ensures i == id {
        assert IsTagged(w, i, version) && i in matches;
      }
    }
  }

  lemma StateTagged(g: Gates, w: World, p: Plan, local: Local, s: State)
    ensures s.DraftResume? && Resumable(g, w, p, local, s.id) ==> IsTagged(w, s.id, p.version)
    ensures s.PublishedResume? && Released(g, w, p, local, s.id) ==> IsTagged(w, s.id, p.version)
  {
  }

  /** publish_state: fresh, draft-resume or published-resume; anything else refuses. */
  method PublishState(g: Gates, w: World, p: Plan, local: Local) returns (r: Option<State>)
    ensures r.Some? ==> IsState(g, w, p, local, r.value)
    ensures r.None? ==> forall s :: !IsState(g, w, p, local, s)
  {
    var tag := VersionTag(p.version);
    var matches := set id | id in w.releases && w.releases[id].tag == tag;
    forall s: State ensures IsState(g, w, p, local, s) <==> IsStateOf(g, w, p, local, matches, s) {
      StateMatches(g, w, p, local, matches, s);
    }
    hide IsState;
    var found := TagCommit(g, w, tag);
    if matches == {} {
      return if found.Absent? then Some(Fresh) else None;
    }
    var id :| id in matches;
    if matches != {id} {
      return None;
    }
    var release := w.releases[id];
    DigestsPart(release.assets, local);
    if !PartOf(release.assets, local) || release.prerelease {
      return None;
    }
    if release.draft {
      return if release.target == p.commit && found in {Absent, Names(p.commit)} then Some(DraftResume(id)) else None;
    }
    return if release.assets.Keys == local.digests.Keys && release.immutable && found == Names(p.commit)
      then Some(PublishedResume(id)) else None;
  }

  /** At most one state fits. */
  lemma StateUnique(g: Gates, w: World, p: Plan, local: Local, s: State, t: State)
    requires IsState(g, w, p, local, s) && IsState(g, w, p, local, t)
    ensures s == t
  {
    assert s.DraftResume? ==> IsTagged(w, s.id, p.version);
    assert s.PublishedResume? ==> IsTagged(w, s.id, p.version);
    assert t.DraftResume? ==> IsTagged(w, t.id, p.version);
    assert t.PublishedResume? ==> IsTagged(w, t.id, p.version);
  }

  // ---- what GitHub makes of the writes ----

  function Created(g: Gates, w: World, p: Plan, id: nat): World {
    w.(releases := w.releases[id := Release(VersionTag(p.version), true, false, false, p.commit, g.title(p.version),
                                            p.body, map[])])
  }

  /** An update of title, notes, tag and commit; the tag and commit of a published release stay. */
  function Edited(g: Gates, w: World, p: Plan, id: nat): Option<World> {
    if id !in w.releases then None
    else
      var r := w.releases[id].(title := g.title(p.version), body := p.body);
      var s := if r.draft then r.(tag := VersionTag(p.version), target := p.commit) else r;
      Some(w.(releases := w.releases[id := s]))
  }

  /** An upload; the name must be free, and a published immutable release takes none. */
  function Uploaded(g: Gates, w: World, id: nat, name: AssetName, content: Content): Option<World> {
    if id !in w.releases || name in w.releases[id].assets
       || (!w.releases[id].draft && w.releases[id].immutable) then None
    else
      var r := w.releases[id];
      Some(w.(releases := w.releases[id := r.(assets := r.assets[name := Asset(g.sha(content), content)])]))
  }

  /** The update that publishes a draft: it creates the tag at the commit unless the tag exists. */
  function Undrafted(g: Gates, w: World, p: Plan, id: nat, immutability: bool): Option<World> {
    if id !in w.releases then None
    else if !w.releases[id].draft then Edited(g, w, p, id)
    else
      var tag := VersionTag(p.version);
      var r := w.releases[id].(draft := false, prerelease := false, immutable := immutability, tag := tag,
                               target := p.commit, title := g.title(p.version), body := p.body);
      Some(w.(releases := w.releases[id := r], tags := if tag in w.tags then w.tags else w.tags[tag := p.commit]))
  }

  // ---- what the writes keep ----

  predicate Elsewhere(w: World, id: nat, version: Version) {
    id in w.releases && w.releases[id].tag != VersionTag(version)
  }

  /** Everything but this version's releases and tag is the same. */
  ghost predicate OthersSame(a: World, b: World, version: Version) {
    && (forall id :: Elsewhere(a, id, version) <==> Elsewhere(b, id, version))
    && (forall id :: Elsewhere(a, id, version) && Elsewhere(b, id, version) ==> a.releases[id] == b.releases[id])
    && (forall tag :: tag != VersionTag(version) ==> (tag in a.tags <==> tag in b.tags))
    && (forall tag :: tag in a.tags && tag in b.tags && tag != VersionTag(version) ==> a.tags[tag] == b.tags[tag])
    && a.live == b.live
  }

  lemma OthersTransitive(a: World, b: World, c: World, version: Version)
    requires OthersSame(a, b, version) && OthersSame(b, c, version)
    ensures OthersSame(a, c, version)
  {
    forall id ensures Elsewhere(a, id, version) <==> Elsewhere(c, id, version)
              ensures Elsewhere(a, id, version) ==> a.releases[id] == c.releases[id]
    {
      assert Elsewhere(a, id, version) <==> Elsewhere(b, id, version);
    }
    forall tag | tag != VersionTag(version) ensures tag in a.tags <==> tag in c.tags {
      assert tag in a.tags <==> tag in b.tags;
    }
  }

  /**
   The publication is in this state, nothing else changed since w0, and the API
   reports true digests. Once released it has its title and notes.
   */
  ghost predicate Stage(g: Gates, w0: World, w: World, p: Plan, local: Local, s: State) {
    && IsState(g, w, p, local, s) && OthersSame(w0, w, p.version) && Honest(g, w)
    && (s.PublishedResume? ==> IsTitled(g, w, p, s.id))
  }

  lemma CreatedKeeps(g: Gates, w0: World, w: World, p: Plan, local: Local, id: nat)
    requires Stage(g, w0, w, p, local, Fresh) && id !in w.releases
    ensures Stage(g, w0, Created(g, w, p, id), p, local, DraftResume(id))
  {
    var after := Created(g, w, p, id);
    forall i | i in after.releases && after.releases[i].tag == VersionTag(p.version) ensures i == id {
      assert !IsTagged(w, i, p.version);
    }
    forall i ensures Elsewhere(w, i, p.version) <==> Elsewhere(after, i, p.version) {
    }
    assert OthersSame(w, after, p.version);
    OthersTransitive(w0, w, after, p.version);
  }

  /** Changing the one release of this version leaves the others alone. */
  lemma OwnReleaseChanged(w0: World, w: World, after: World, version: Version, id: nat)
    requires OthersSame(w0, w, version) && id in w.releases && w.releases[id].tag == VersionTag(version)
    requires after.releases.Keys == w.releases.Keys && after.releases[id].tag == VersionTag(version)
    requires forall i :: i in w.releases && i != id ==> after.releases[i] == w.releases[i]
    requires forall tag :: tag != VersionTag(version) ==> (tag in w.tags <==> tag in after.tags)
    requires forall tag :: tag in w.tags && tag in after.tags && tag != VersionTag(version) ==>
               after.tags[tag] == w.tags[tag]
    requires after.live == w.live
    ensures OthersSame(w0, after, version)
    ensures OnlyRelease(w, id, version) ==> OnlyRelease(after, id, version)
  {
    forall i ensures Elsewhere(w, i, version) <==> Elsewhere(after, i, version)
             ensures Elsewhere(w, i, version) ==> w.releases[i] == after.releases[i]
    {
      if i in w.releases && i != id {
        assert after.releases[i] == w.releases[i];
      }
    }
    assert OthersSame(w, after, version);
    OthersTransitive(w0, w, after, version);
  }

  lemma EditedKeeps(g: Gates, w0: World, w: World, p: Plan, local: Local, id: nat)
    requires Stage(g, w0, w, p, local, DraftResume(id))
    ensures Edited(g, w, p, id).Some?
    ensures Stage(g, w0, Edited(g, w, p, id).value, p, local, DraftResume(id))
    ensures Edited(g, w, p, id).value.releases[id].assets == w.releases[id].assets
    ensures IsTitled(g, Edited(g, w, p, id).value, p, id)
  {
    OwnReleaseChanged(w0, w, Edited(g, w, p, id).value, p.version, id);
  }

  lemma UploadedKeeps(g: Gates, w0: World, w: World, p: Plan, local: Local, id: nat, name: AssetName)
    requires Stage(g, w0, w, p, local, DraftResume(id))
    requires name in local.digests && name in p.files && local.digests[name] == g.sha(p.files[name])
    requires name !in w.releases[id].assets
    ensures Uploaded(g, w, id, name, p.files[name]).Some?
    ensures var after := Uploaded(g, w, id, name, p.files[name]).value;
            && Stage(g, w0, after, p, local, DraftResume(id))
            && after.releases[id].assets.Keys == w.releases[id].assets.Keys + {name}
            && (IsTitled(g, w, p, id) ==> IsTitled(g, after, p, id))
  {
    hide OthersSame;
    var after := Uploaded(g, w, id, name, p.files[name]).value;
    OwnReleaseChanged(w0, w, after, p.version, id);
    hide OnlyRelease;
    HonestKept(g, w, after, id);
    assert TagCommit(g, after, VersionTag(p.version)) == TagCommit(g, w, VersionTag(p.version));
  }

  lemma HonestKept(g: Gates, w: World, after: World, id: nat)
    requires Honest(g, w) && id in w.releases && after.releases.Keys == w.releases.Keys
    requires forall i :: i in w.releases && i != id ==> after.releases[i] == w.releases[i]
    requires HonestRelease(g, after.releases[id])
    ensures Honest(g, after)
  {
  }

  /** The draft carries the title and the notes of this publication. */
  predicate IsTitled(g: Gates, w: World, p: Plan, id: nat) {
    id in w.releases && w.releases[id].title == g.title(p.version) && w.releases[id].body == p.body
  }

  /** check_draft: still a draft of a full release of this tag, commit, title, notes and assets. */
  predicate IsReady(g: Gates, w: World, p: Plan, local: Local, id: nat) {
    && id in w.releases
    && var r := w.releases[id];
       && r.draft && !r.prerelease && r.tag == VersionTag(p.version) && r.target == p.commit
       && IsTitled(g, w, p, id) && Digests(r.assets) == local.digests && TagFits(g, w, p)
  }

  lemma UndraftedKeeps(g: Gates, w0: World, w: World, p: Plan, local: Local, id: nat)
    requires Stage(g, w0, w, p, local, DraftResume(id)) && IsReady(g, w, p, local, id)
    requires g.commitOf(p.commit) == Some(p.commit)
    ensures Undrafted(g, w, p, id, true).Some?
    ensures Stage(g, w0, Undrafted(g, w, p, id, true).value, p, local, PublishedResume(id))
    ensures IsFinal(g, Undrafted(g, w, p, id, true).value, id, p.version, p.commit, p.body, local)
  {
    OwnReleaseChanged(w0, w, Undrafted(g, w, p, id, true).value, p.version, id);
  }
}
