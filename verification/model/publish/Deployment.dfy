/** check-deploy, and what any run of checked deployments keeps. */
module Deployment {
  import opened Composition
  import opened Hosting
  import opened Options
  import opened Pages
  import opened Versions

  // ---- check_deploy ----

  /** The release is the one the record composed: same sums, same id, its tag at the same commit. */
  predicate MatchesRecord(g: Gates, w: World, record: Record, id: nat)
    requires id in w.releases && w.releases[id].tag.VersionTag?
  {
    var r := w.releases[id];
    && r.tag.version in record.versions
    && var entry := record.versions[r.tag.version];
       && Sums in r.assets && r.assets[Sums].digest == entry.sums && id == entry.releaseId
       && TagCommit(g, w, r.tag) == Names(entry.commit)
  }

  /** The committed version is the newest non-draft release, retired ones included. */
  ghost predicate NewestReleased(w: World, committed: Version) {
    && HasCandidate(w, None, committed)
    && forall id :: Candidate(w, None, id) ==>
         w.releases[id].tag.version == committed || Older(w.releases[id].tag.version, committed)
  }

  /** Everything check-deploy asks of the state right before a deployment. */
  ghost predicate ChecksDeploy(g: Gates, w: World, registry: Registry, committed: Version, record: Record) {
    && record.newVersion == Some(committed) && NewestReleased(w, committed)
    && (forall v :: v in record.versions ==> v !in registry.retired && HasCandidate(w, None, v))
    && (forall id :: Candidate(w, None, id) && w.releases[id].tag.version !in registry.retired ==>
          MatchesRecord(g, w, record, id))
    && AllRecorded(w, registry, Some(committed)) && LiveAgrees(w, record.versions, Some(committed))
  }

  /** The record serves exactly the released versions that are not retired. */
  lemma CheckedServes(g: Gates, w: World, registry: Registry, committed: Version, record: Record)
    requires ChecksDeploy(g, w, registry, committed, record)
    ensures forall v :: v in record.versions <==> v !in registry.retired && HasCandidate(w, None, v)
  {
    hide AllRecorded, LiveAgrees, NewestReleased, TagCommit;
    forall v | v !in registry.retired && HasCandidate(w, None, v) ensures v in record.versions {
      var id :| Candidate(w, None, id) && w.releases[id].tag == VersionTag(v);
      assert MatchesRecord(g, w, record, id);
    }
  }

  /** check_deploy reads the listings, the tags and the live sums. */
  method CheckDeploy(g: Gates, w: World, registry: Registry, committed: Version, record: Record) returns (ok: bool)
    ensures ok <==> ChecksDeploy(g, w, registry, committed, record)
  {
    hide MatchesRecord, AllRecorded, LiveAgrees, NewestReleased, HasCandidate, IsNewest;
    var releases := set id | id in w.releases && Candidate(w, None, id);
    var versions := set id | id in releases :: w.releases[id].tag.version;
    ReleasedVersions(w, releases, versions);
    if record.newVersion != Some(committed) || !IsNewest(committed, versions) {
      return false;
    }
    if record.versions.Keys != versions - registry.retired.Keys {
      if ChecksDeploy(g, w, registry, committed, record) {
        CheckedServes(g, w, registry, committed, record);
      }
      return false;
    }
    var todo := set id | id in releases && w.releases[id].tag.version !in registry.retired;
    ghost var served := todo;
    while todo != {}
      invariant todo <= served
      invariant forall id :: id in served - todo ==> MatchesRecord(g, w, record, id)
    {
      var id :| id in todo;
      if !MatchesRecord(g, w, record, id) {
        return false;
      }
      todo := todo - {id};
    }
    return AllRecorded(w, registry, Some(committed)) && LiveAgrees(w, record.versions, Some(committed));
  }

  lemma ReleasedVersions(w: World, releases: set<nat>, versions: set<Version>)
    requires releases == set id | id in w.releases && Candidate(w, None, id)
    requires versions == set id | id in releases :: w.releases[id].tag.version
    ensures forall v :: v in versions <==> HasCandidate(w, None, v)
    ensures forall v :: IsNewest(v, versions) <==> NewestReleased(w, v)
  {
    forall v ensures v in versions <==> HasCandidate(w, None, v) {
      if HasCandidate(w, None, v) {
        var id :| Candidate(w, None, id) && w.releases[id].tag == VersionTag(v);
        assert id in releases && w.releases[id].tag.version == v;
      }
    }
    forall v ensures IsNewest(v, versions) <==> NewestReleased(w, v) {
      assert forall id :: Candidate(w, None, id) ==> id in releases && w.releases[id].tag.version in versions;
      if NewestReleased(w, v) {
        forall other | other in versions && other != v ensures Older(other, v) {
          var id :| Candidate(w, None, id) && w.releases[id].tag == VersionTag(other);
        }
      }
    }
  }

  // ---- check-deploy agrees with composing again ----

  /** A release id keeps the assets of its immutable release. */
  ghost predicate KeepsAssets(a: World, b: World) {
    forall id :: id in a.releases && id in b.releases && a.releases[id].immutable ==>
      b.releases[id].assets == a.releases[id].assets
  }

  lemma ReleaseRecomposes(g: Gates, r: Release, s: Release, id: nat, before: TagLookup, after: TagLookup)
    requires r.tag.VersionTag? && s.tag == r.tag && s.assets == r.assets
    requires Gate(g, r, id, before).Some? && Gate(g, s, id, after).Some?
    requires before == after
    ensures Gate(g, s, id, after) == Gate(g, r, id, before)
  {
  }

  lemma GateTagged(g: Gates, w: World, id: nat)
    requires id in w.releases && w.releases[id].tag.VersionTag? && GateOf(g, w, id).Some?
    ensures var entry := GateOf(g, w, id).value.entry;
            entry.releaseId == id && TagCommit(g, w, w.releases[id].tag) == Names(entry.commit)
    ensures w.releases[id].immutable
  {
  }

  lemma VersionRecomposes(
    g: Gates, before: World, after: World, registry: Registry, committed: Version, record: Record, c: Composition,
    d: Composition, v: Version)
    requires KeepsAssets(before, after) && record.versions == c.versions
    requires Holds(g, before, registry, None, c) && Holds(g, after, registry, None, d)
    requires ChecksDeploy(g, after, registry, committed, record) && v in c.versions
    ensures v in d.versions && d.versions[v] == c.versions[v] && d.output[v] == c.output[v]
  {
    hide Gate, AllRecorded, LiveAgrees, NewestReleased, RetiredFiles, KeepsAssets;
    var i :| Candidate(before, None, i) && before.releases[i].tag == VersionTag(v);
    var j :| Candidate(after, None, j) && after.releases[j].tag == VersionTag(v);
    assert HoldsRelease(g, before, registry, c, i) && HoldsRelease(g, after, registry, d, j);
    assert MatchesRecord(g, after, record, j);
    GateTagged(g, before, i);
    GateTagged(g, after, j);
    assert i == j;
    SameAssets(before, after, i);
    ReleaseRecomposes(g, before.releases[i], after.releases[i], i, TagCommit(g, before, VersionTag(v)),
                      TagCommit(g, after, VersionTag(v)));
  }

  lemma SameAssets(before: World, after: World, id: nat)
    requires KeepsAssets(before, after) && id in before.releases && id in after.releases
    requires before.releases[id].immutable
    ensures after.releases[id].assets == before.releases[id].assets
  {
  }

  lemma RetiredRecomposes(g: Gates, r: Release, s: Release, recorded: Digest)
    requires InjectiveSha(g) && RetiredFiles(g, r, recorded).Some? && RetiredFiles(g, s, recorded).Some?
    ensures RetiredFiles(g, r, recorded) == RetiredFiles(g, s, recorded)
  {
    assert g.sha(r.assets[Sums].content) == g.sha(s.assets[Sums].content);
  }

  lemma GoneRecomposes(
    g: Gates, before: World, after: World, registry: Registry, c: Composition, d: Composition, v: Version)
    requires InjectiveSha(g)
    requires Holds(g, before, registry, None, c) && Holds(g, after, registry, None, d)
    requires v in c.gone && v in d.gone
    ensures c.gone[v] == d.gone[v]
  {
    hide GateOf, RetiredFiles;
    var i :| Candidate(before, None, i) && before.releases[i].tag == VersionTag(v);
    var j :| Candidate(after, None, j) && after.releases[j].tag == VersionTag(v);
    assert HoldsRelease(g, before, registry, c, i) && HoldsRelease(g, after, registry, d, j);
    RetiredRecomposes(g, before.releases[i], after.releases[j], registry.retired[v]);
  }

  /**
   A record that passes check-deploy in a later state is what composing again
   in that state gives, down to the bytes and the files left out.
   */
  lemma CheckedRecordRecomposes(
    g: Gates, before: World, after: World, registry: Registry, committed: Version, record: Record, again: Record)
    requires InjectiveSha(g) && KeepsAssets(before, after)
    requires IsRecord(g, before, registry, committed, Some(committed), record)
    requires ChecksDeploy(g, after, registry, committed, record)
    requires IsRecord(g, after, registry, committed, Some(committed), again)
    ensures again == record
  {
    hide Holds, ChecksDeploy, KeepsAssets, SiteBytes, AllRecorded, LiveAgrees, IsNewest;
    var c :| PagesPass(g, before, registry, committed, Some(committed), c)
             && record == RecordOf(c, SiteBytes(g, c.output), Some(committed));
    var d :| PagesPass(g, after, registry, committed, Some(committed), d)
             && again == RecordOf(d, SiteBytes(g, d.output), Some(committed));
    ComposedKeys(g, before, after, registry, committed, record, c, d);
    forall v | v in c.versions ensures d.versions[v] == c.versions[v] && d.output[v] == c.output[v] {
      VersionRecomposes(g, before, after, registry, committed, record, c, d, v);
    }
    forall v | v in c.gone ensures c.gone[v] == d.gone[v] {
      GoneRecomposes(g, before, after, registry, c, d, v);
    }
    assert c.versions == d.versions && c.output == d.output && c.gone == d.gone;
  }

  lemma ComposedKeys(
    g: Gates, before: World, after: World, registry: Registry, committed: Version, record: Record, c: Composition,
    d: Composition)
    requires Composes(g, before, registry, None, c) && Composes(g, after, registry, None, d)
    requires record.versions == c.versions && ChecksDeploy(g, after, registry, committed, record)
    ensures c.versions.Keys == d.versions.Keys == c.output.Keys == d.output.Keys && d.gone.Keys == c.gone.Keys
  {
    hide HasCandidate, ChecksDeploy, Composes;
    CheckedServes(g, after, registry, committed, record);
    ComposedServes(g, before, registry, c);
    ComposedServes(g, after, registry, d);
    assert forall v :: v in d.versions <==> v in c.versions;
  }

  lemma ComposedServes(g: Gates, w: World, registry: Registry, c: Composition)
    requires Composes(g, w, registry, None, c)
    ensures forall v :: v in c.versions <==> v !in registry.retired && HasCandidate(w, None, v)
    ensures c.gone.Keys == registry.retired.Keys && c.output.Keys == c.versions.Keys
  {
    hide HoldsRelease, HasCandidate, OnePerVersion, OlderThanPending;
  }

  // ---- runs of deployments ----

  /** One step: something elsewhere that leaves the live site alone, or a deployment of some record. */
  datatype Step = Elsewhere | Deployment(registry: Registry, committed: Version, record: Record)

  function DeployedSums(record: Record): map<Version, Digest> {
    map v | v in record.versions :: record.versions[v].sums
  }

  /** A deployment happens right after its check passed, and serves the record. */
  ghost predicate StepsTo(g: Gates, w: World, step: Step, after: World) {
    match step
    case Elsewhere => after.live == w.live
    case Deployment(registry, committed, record) =>
      ChecksDeploy(g, w, registry, committed, record) && after == w.(live := DeployedSums(record))
  }

  ghost predicate IsRun(g: Gates, worlds: seq<World>, steps: seq<Step>) {
    |worlds| == |steps| + 1 && forall i :: 0 <= i < |steps| ==> StepsTo(g, worlds[i], steps[i], worlds[i + 1])
  }

  /** A version is live with the same sums. */
  predicate SameLive(a: World, b: World, v: Version) {
    v in a.live && v in b.live && a.live[v] == b.live[v]
  }

  /** A step serves nothing new but the version it deploys, and that is the newest release. */
  lemma StepServes(g: Gates, w: World, step: Step, after: World, v: Version)
    requires StepsTo(g, w, step, after) && v in after.live
    ensures SameLive(w, after, v) || (step.Deployment? && step.committed == v && NewestReleased(w, v))
  {
    hide MatchesRecord, AllRecorded, NewestReleased;
  }

  /**
   Over any run: a version that is live with other sums than before, or that
   was not live before, has been deployed itself in between, as the newest
   release of that moment.
   */
  lemma {:induction false} OnlyItsOwnDeployment(
    g: Gates, worlds: seq<World>, steps: seq<Step>, i: nat, j: nat, v: Version)
    requires IsRun(g, worlds, steps) && i <= j <= |steps|
    requires v in worlds[j].live && !SameLive(worlds[i], worlds[j], v)
    ensures exists k :: i <= k < j && steps[k].Deployment? && steps[k].committed == v && NewestReleased(worlds[k], v)
    decreases j - i
  {
    hide StepsTo, NewestReleased;
    assert i < j;
    var k := j - 1;
    assert StepsTo(g, worlds[k], steps[k], worlds[k + 1]);
    StepServes(g, worlds[k], steps[k], worlds[j], v);
    if !(steps[k].Deployment? && steps[k].committed == v && NewestReleased(worlds[k], v)) {
      OnlyItsOwnDeployment(g, worlds, steps, i, k, v);
    }
  }

  /** A newer version than v is released, retired or not. */
  ghost predicate Superseded(w: World, v: Version) {
    exists id :: Candidate(w, None, id) && Older(v, w.releases[id].tag.version)
  }

  /** Once a version is off the site while a newer one is released, no deployment brings it back. */
  lemma DroppedStaysDropped(g: Gates, worlds: seq<World>, steps: seq<Step>, i: nat, j: nat, v: Version)
    requires IsRun(g, worlds, steps) && i <= j <= |steps| && v !in worlds[i].live
    requires forall k :: i <= k < j ==> Superseded(worlds[k], v)
    ensures v !in worlds[j].live
  {
    if v in worlds[j].live {
      OnlyItsOwnDeployment(g, worlds, steps, i, j, v);
      var k :| i <= k < j && steps[k].Deployment? && steps[k].committed == v && NewestReleased(worlds[k], v);
      NotNewest(worlds[k], v);
      assert false;
    }
  }

  lemma NotNewest(w: World, v: Version)
    requires Superseded(w, v)
    ensures !NewestReleased(w, v)
  {
    var id :| Candidate(w, None, id) && Older(v, w.releases[id].tag.version);
  }
}
