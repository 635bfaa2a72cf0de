/** publish_release against a GitHub that others use too and whose calls may fail. */
module Publisher {
  import opened Composition
  import opened DryRun
  import opened Histories
  import opened Hosting
  import opened Options
  import opened Pages
  import opened Publication
  import opened Versions

  /** What becomes of a call: it works, it never arrives, or it takes effect but its reply is lost. */
  datatype Fault = Works | LostRequest | LostReply

  /** The publication is in some state of its own, and nothing else changed. */
  ghost predicate Kept(g: Gates, w0: World, w: World, p: Plan, local: Local) {
    exists s :: Stage(g, w0, w, p, local, s)
  }

  /** compose-pages with the new version passes every gate. */
  ghost predicate Composable(g: Gates, w: World, registry: Registry, version: Version) {
    exists d :: PagesPass(g, w, registry, version, Some(version), d)
  }

  /** Others act before each call, and a request that is lost changes nothing. */
  ghost predicate IsRun(others: (nat, World) -> World, faults: nat -> Fault, start: World, h: History) {
    if h == [] then true
    else
      var k := |h| - 1;
      && IsRun(others, faults, start, h[..k])
      && h[k].before == others(k, if k == 0 then start else h[k - 1].after)
      && (faults(k).LostRequest? ==> h[k].after == h[k].before)
  }

  /** What the checks before the first write found. */
  datatype Opening = Opening(served: Snapshot, room: Composition, state: State, present: set<AssetName>)

  class GitHub {
    const g: Gates
    const others: (nat, World) -> World  // what everybody else does before each call
    const faults: nat -> Fault
    const immutability: bool             // the repository's setting for immutable releases
    var world: World
    var clock: nat                       // the calls so far
    ghost const start: World
    ghost var history: History

    constructor (g: Gates, others: (nat, World) -> World, faults: nat -> Fault, immutability: bool, world: World)
      ensures this.g == g && this.others == others && this.faults == faults && this.immutability == immutability
      ensures this.world == world && history == [] && Valid()
    {
      this.g, this.others, this.faults, this.immutability := g, others, faults, immutability;
      this.world, this.clock, this.start, this.history := world, 0, world, [];
    }

    ghost predicate Valid()
      reads this
    {
      |history| == clock && Ran()
    }

    /** The history is that of this run, and has led to this world. */
    ghost predicate Ran()
      reads this
    {
      && IsRun(others, faults, start, history)
      && world == if history == [] then start else history[|history| - 1].after
    }

    /** Calls were added to this history. */
    ghost predicate Grown(h: History)
      reads this
    {
      Valid() && h < history
    }

    /** Nobody else changes anything. */
    ghost predicate Quiet() {
      forall k: nat, w: World :: others(k, w) == w
    }

    /** No call fails from here on. */
    ghost predicate Faultless(from: nat) {
      forall k: nat :: from <= k ==> faults(k).Works?
    }

    /** One call: others act first. */
    method Call() returns (f: Fault)
      requires Valid()
      modifies this
      ensures Valid() && f == faults(old(clock)) && clock == old(clock) + 1
      ensures world == others(old(clock), old(world)) && history == old(history) + [Event(world, world)]
    {
      world := others(clock, world);
      f := faults(clock);
      assert (history + [Event(world, world)])[..clock] == history;
      history := history + [Event(world, world)];
      clock := clock + 1;
    }

    /** The call made last changes the hosting. */
    method TakeEffect(after: World)
      requires Valid() && clock > 0 && history[clock - 1] == Event(world, world) && !faults(clock - 1).LostRequest?
      modifies this
      ensures Valid() && world == after && clock == old(clock)
      ensures history == old(history)[clock - 1 := Event(old(world), after)]
    {
      assert history[clock - 1 := Event(world, after)][..clock - 1] == history[..clock - 1];
      history := history[clock - 1 := Event(world, after)];
      world := after;
    }

    // ---- the steps before anything is written ----

    method ReadServed(version: Version) returns (r: Option<Snapshot>)
      requires Valid()
      modifies this
      ensures Grown(old(history)) && OnlyReads(history, old(clock)) && (Quiet() ==> world == old(world))
      ensures r.Some? ==> clock == old(clock) + 2 && r.value == Served(Listed(history, old(clock)), version)
      ensures Quiet() && r.Some? ==> r.value == Served(world, version)
      ensures Faultless(old(clock)) ==> r.Some?
    {
      hide Ran, Served;
      var f := Call();
      if !f.Works? {
        return None;
      }
      var releases := world.releases;
      f := Call();
      return if f.Works? then Some(Served(World(releases, world.tags, world.live), version)) else None;
    }

    method ReadRoom(registry: Registry, version: Version, size: nat) returns (r: Option<Composition>)
      requires Valid()
      modifies this
      ensures Grown(old(history)) && OnlyReads(history, old(clock)) && (Quiet() ==> world == old(world))
      ensures r.Some? ==> clock == old(clock) + 3
                          && HasRoom(g, Surveyed(history, old(clock)), registry, version, size, r.value)
      ensures Quiet() && r.Some? ==> HasRoom(g, world, registry, version, size, r.value)
      ensures Quiet() && Faultless(old(clock)) && r.None? ==> forall c :: !HasRoom(g, world, registry, version, size, c)
    {
      hide Ran, HasRoom;
      var f := Call();
      if !f.Works? {
        return None;
      }
      var releases := world.releases;
      f := Call();
      if !f.Works? {
        return None;
      }
      var tags := world.tags;
      f := Call();
      if !f.Works? {
        return None;
      }
      r := CheckPagesRoom(g, World(releases, tags, world.live), registry, version, size);
    }

    /** The state, and the assets its release has in the listing. */
    method ReadState(p: Plan, local: Local) returns (r: Option<State>, present: set<AssetName>)
      requires Valid()
      modifies this
      ensures Grown(old(history)) && OnlyReads(history, old(clock)) && (Quiet() ==> world == old(world))
      ensures r.Some? ==>
                && clock == old(clock) + 2 && IsState(g, Listed(history, old(clock)), p, local, r.value)
                && IsPresent(Listed(history, old(clock)), r.value, present)
      ensures Quiet() && r.Some? ==> IsState(g, world, p, local, r.value) && IsPresent(world, r.value, present)
      ensures Quiet() && Faultless(old(clock)) && r.None? ==> forall s :: !IsState(g, world, p, local, s)
    {
      hide Ran, IsState;
      r, present := None, {};
      var f := Call();
      if !f.Works? {
        return;
      }
      var releases := world.releases;
      f := Call();
      if !f.Works? {
        return;
      }
      var seen := World(releases, world.tags, world.live);
      r := PublishState(g, seen, p, local);
      if r.Some? && !r.value.Fresh? {
        StateHas(g, seen, p, local, r.value);
        present := releases[r.value.id].assets.Keys;
      }
    }

    // ---- the writes ----

    /** POST /releases: a new draft with a new id. */
    method CreateDraft(p: Plan, local: Local, ghost w0: World) returns (r: Option<nat>)
      requires Valid()
      modifies this
      ensures Grown(old(history)) && clock == old(clock) + 1 && NothingPublished(history, old(clock))
      ensures r.Some? ==> world == Created(g, history[old(clock)].before, p, r.value)
      ensures r.Some? ==> r.value !in history[old(clock)].before.releases && HasAssets(world, r.value, {})
      ensures Quiet() && Stage(g, w0, old(world), p, local, Fresh) ==>
                if r.Some? then Stage(g, w0, world, p, local, DraftResume(r.value))
                else Kept(g, w0, world, p, local)
      ensures Faultless(old(clock)) ==> r.Some?
    {
      hide Ran, Stage, Kept, Created, Publishes;
      var f := Call();
      ReadPublishesNothing(world);
      StageKept(g, w0, world, p, local, Fresh);
      if f.LostRequest? {
        return None;
      }
      var id := NewId(world.releases.Keys);
      CreatePublishesNothing(g, world, p, id);
      if Stage(g, w0, world, p, local, Fresh) {
        CreatedKeeps(g, w0, world, p, local, id);
        StageKept(g, w0, Created(g, world, p, id), p, local, DraftResume(id));
      }
      TakeEffect(Created(g, world, p, id));
      return if f.Works? then Some(id) else None;
    }

    /** PATCH of a draft: title, notes, tag and commit. */
    method EditDraft(p: Plan, local: Local, id: nat, ghost w0: World) returns (ok: bool)
      requires Valid()
      modifies this
      ensures Grown(old(history)) && NothingPublished(history, old(clock))
      ensures ok ==> Edited(g, history[old(clock)].before, p, id) == Some(world)
      ensures Quiet() && Stage(g, w0, old(world), p, local, DraftResume(id)) ==>
                && Stage(g, w0, world, p, local, DraftResume(id))
                && world.releases[id].assets == old(world).releases[id].assets
                && (ok ==> IsTitled(g, world, p, id)) && (Faultless(old(clock)) ==> ok)
    {
      hide Ran, Stage, IsTitled, Edited, Publishes;
      var f := Call();
      ReadPublishesNothing(world);
      EditPublishesNothing(g, world, p, id);
      StageHas(g, w0, world, p, local, DraftResume(id));
      if Stage(g, w0, world, p, local, DraftResume(id)) {
        EditedKeeps(g, w0, world, p, local, id);
      }
      var edited := Edited(g, world, p, id);
      if f.LostRequest? || edited.None? {
        return false;
      }
      TakeEffect(edited.value);
      return f.Works?;
    }

    method UploadAsset(p: Plan, local: Local, id: nat, name: AssetName, ghost w0: World) returns (ok: bool)
      requires Valid() && name in p.files && name in local.digests && local.digests[name] == g.sha(p.files[name])
      modifies this
      ensures Grown(old(history)) && NothingPublished(history, old(clock))
      ensures ok ==> Uploaded(g, history[old(clock)].before, id, name, p.files[name]) == Some(world)
      ensures Quiet() && Stage(g, w0, old(world), p, local, DraftResume(id))
              && name !in old(world).releases[id].assets ==>
                && Stage(g, w0, world, p, local, DraftResume(id))
                && (IsTitled(g, old(world), p, id) ==> IsTitled(g, world, p, id))
                && (ok ==> world.releases[id].assets.Keys == old(world).releases[id].assets.Keys + {name})
                && (Faultless(old(clock)) ==> ok)
    {
      hide Ran, Stage, IsTitled, Uploaded, Publishes;
      var f := Call();
      ReadPublishesNothing(world);
      UploadPublishesNothing(g, world, id, name, p.files[name]);
      StageHas(g, w0, world, p, local, DraftResume(id));
      if Stage(g, w0, world, p, local, DraftResume(id)) && name !in world.releases[id].assets {
        UploadedKeeps(g, w0, world, p, local, id, name);
      }
      var uploaded := Uploaded(g, world, id, name, p.files[name]);
      if f.LostRequest? || uploaded.None? {
        return false;
      }
      TakeEffect(uploaded.value);
      return f.Works?;
    }

    // ---- filling and publishing the draft ----

    /** The resumed draft has the title and notes, and these files. */
    ghost predicate Filled(w0: World, p: Plan, local: Local, id: nat, have: set<AssetName>)
      reads this
    {
      && Stage(g, w0, world, p, local, DraftResume(id)) && IsTitled(g, world, p, id)
      && world.releases[id].assets.Keys == have
    }

    /** Uploads the missing files, in order. */
    method UploadMissing(p: Plan, local: Local, id: nat, present: set<AssetName>, ghost w0: World) returns (ok: bool)
      requires Valid() && IsVerified(g, p, local)
      modifies this
      ensures Valid() && old(history) <= history && NothingPublished(history, old(clock))
      ensures Quiet() && old(Filled(w0, p, local, id, present)) ==>
                && Stage(g, w0, world, p, local, DraftResume(id))
                && (ok ==> Filled(w0, p, local, id, present + ReleaseAssets(p.version)))
                && (Faultless(old(clock)) ==> ok)
    {
      hide Ran, Stage, IsTitled, NothingPublished;
      ghost var calm := Quiet() && Filled(w0, p, local, id, present);
      NothingYet(history);
      VerifiedFiles(g, p, local);
      for i := 0 to 4
        invariant Valid() && old(history) <= history && NothingPublished(history, old(clock))
        invariant calm ==> Filled(w0, p, local, id, present + FirstAssets(p.version, i))
      {
        var name := AssetAt(p.version, i);
        AssetNotFirst(p.version, i);
        assert present + FirstAssets(p.version, i) + {name} == present + FirstAssets(p.version, i + 1);
        if name in present {
          assert present + FirstAssets(p.version, i) == present + FirstAssets(p.version, i + 1);
        } else {
          ghost var before := history;
          ok := UploadAsset(p, local, id, name, w0);
          NothingFurther(before, history, old(clock));
          if !ok {
            return;
          }
        }
      }
      AllAssets(p.version);
      return true;
    }

    /** Sets title and notes, uploads what is missing, and reads everything back. */
    method FillDraft(p: Plan, local: Local, id: nat, present: set<AssetName>, ghost w0: World) returns (ok: bool)
      requires Valid() && IsVerified(g, p, local)
      modifies this
      ensures Grown(old(history)) && NothingPublished(history, old(clock))
      ensures ok ==> history[clock - 1].before == world && ReadsBack(g, world, p, local, id)
      ensures Quiet() && Stage(g, w0, old(world), p, local, DraftResume(id))
              && old(HasAssets(world, id, present)) ==>
                && Stage(g, w0, world, p, local, DraftResume(id))
                && (ok ==> IsReady(g, world, p, local, id)) && (Faultless(old(clock)) ==> ok)
    {
      hide Ran, Stage, IsReady, ReadsBack, Publishes;
      ghost var calm := Quiet() && Stage(g, w0, world, p, local, DraftResume(id)) && HasAssets(world, id, present);
      StageHas(g, w0, world, p, local, DraftResume(id));
      ok := EditDraft(p, local, id, w0);
      StageHas(g, w0, world, p, local, DraftResume(id));
      if !ok {
        return;
      }
      assert calm ==> Filled(w0, p, local, id, present);
      ok := UploadMissing(p, local, id, present, w0);
      if !ok {
        return;
      }
      var f := Call();
      ReadPublishesNothing(world);
      ok := f.Works? && ReadsBack(g, world, p, local, id);
      if calm {
        FilledIsReady(w0, p, local, id, present);
      }
    }

    /** A draft with all files reads back, and is ready to be published. */
    ghost method FilledIsReady(w0: World, p: Plan, local: Local, id: nat, present: set<AssetName>)
      requires IsVerified(g, p, local) && Filled(w0, p, local, id, present + ReleaseAssets(p.version))
      ensures ReadsBack(g, world, p, local, id) && IsReady(g, world, p, local, id)
    {
      VerifiedFiles(g, p, local);
      DigestsPart(world.releases[id].assets, local);
      HonestAt(g, world, id);
      assert forall name :: name in present ==> name in local.digests;
    }

    /** check_draft: the release, then its tag. */
    method CheckDraft(p: Plan, local: Local, id: nat) returns (ok: bool)
      requires Valid()
      modifies this
      ensures Grown(old(history)) && OnlyReads(history, old(clock)) && (Quiet() ==> world == old(world))
      ensures ok ==> clock == old(clock) + 2 && IsReady(g, Listed(history, old(clock)), p, local, id)
      ensures Quiet() ==> (Faultless(old(clock)) && IsReady(g, world, p, local, id) ==> ok)
                          && (ok ==> IsReady(g, world, p, local, id))
    {
      hide Ran, IsReady;
      var f := Call();
      if !f.Works? {
        return false;
      }
      var releases := world.releases;
      f := Call();
      return f.Works? && IsReady(g, World(releases, world.tags, world.live), p, local, id);
    }

    /** Checks the draft, the listings and the live sums once more, in five calls. */
    method Recheck(p: Plan, local: Local, id: nat, served: Snapshot, room: Composition) returns (ok: bool)
      requires Valid()
      modifies this
      ensures Grown(old(history)) && OnlyReads(history, old(clock)) && (Quiet() ==> world == old(world))
      ensures ok ==> Rechecked(g, p, local, id, room, served, history, clock) && clock == old(clock) + 5
      ensures Quiet() ==>
                && (ok ==> IsReady(g, world, p, local, id))
                && (&& Faultless(old(clock)) && IsReady(g, world, p, local, id)
                    && Served(world, p.version) == served && LiveAgrees(world, room.versions, None)
                    ==> ok)
    {
      hide Ran, IsReady, Served, LiveAgrees, Listed;
      ghost var from := clock;
      ok := CheckDraft(p, local, id);
      if !ok {
        return;
      }
      ghost var checked := history;
      var listed := ReadServed(p.version);
      if listed != Some(served) {
        return false;
      }
      SeenKept(checked, history, from);
      ghost var asked := history;
      var f := Call();
      SeenKept(asked, history, from);
      SeenKept(asked, history, from + 2);
      return f.Works? && LiveAgrees(world, room.versions, None);
    }

    /** The PATCH that makes the draft a release. */
    method Undraft(p: Plan, local: Local, id: nat, ghost w0: World) returns (ok: bool)
      requires Valid()
      modifies this
      ensures Grown(old(history)) && clock == old(clock) + 1
      ensures ok || Publishes(history[old(clock)]) ==>
                Undrafted(g, history[old(clock)].before, p, id, immutability) == Some(history[old(clock)].after)
      ensures Quiet() && Stage(g, w0, old(world), p, local, DraftResume(id)) ==>
                && (ok ==> Confined(g, w0, world, p.version, id))
                && (!Publishes(history[old(clock)]) ==> !ok && Stage(g, w0, world, p, local, DraftResume(id)))
                && (Lawful(p) && IsReady(g, old(world), p, local, id) && Publishes(history[old(clock)]) ==>
                      Stage(g, w0, world, p, local, PublishedResume(id)))
                && (Faultless(old(clock)) ==> ok)
    {
      hide Ran, Stage, IsReady, IsFinal, Undrafted, Confined, Publishes;
      var f := Call();
      ReadPublishesNothing(world);
      var undrafted := Undrafted(g, world, p, id, immutability);
      if Stage(g, w0, world, p, local, DraftResume(id)) {
        UndraftedConfined(g, w0, world, p, local, id, immutability);
        if Lawful(p) && IsReady(g, world, p, local, id) {
          UndraftedKeeps(g, w0, world, p, local, id);
        }
      }
      if f.LostRequest? || undrafted.None? {
        return false;
      }
      TakeEffect(undrafted.value);
      assert old(history) <= history;
      return f.Works?;
    }

    /** Checks everything once more, and publishes. */
    method PublishDraft(p: Plan, local: Local, id: nat, served: Snapshot, room: Composition, ghost w0: World)
      returns (ok: bool)
      requires Valid() && clock > 0 && ReadsBack(g, history[clock - 1].before, p, local, id)
      modifies this
      ensures Grown(old(history)) && NothingPublished(history[..clock - 1], old(clock))
      ensures ok || Publishes(history[clock - 1]) ==>
                clock == old(clock) + 6 && Closed(g, immutability, p, local, id, room, served, history, clock - 1)
      ensures Quiet() && Stage(g, w0, old(world), p, local, DraftResume(id)) ==>
                && (ok ==> Confined(g, w0, world, p.version, id))
                && (!Publishes(history[clock - 1]) ==> !ok && Stage(g, w0, world, p, local, DraftResume(id)))
                && (Lawful(p) && Publishes(history[clock - 1]) ==> Stage(g, w0, world, p, local, PublishedResume(id)))
                && (&& Faultless(old(clock)) && IsReady(g, old(world), p, local, id)
                    && Served(old(world), p.version) == served && LiveAgrees(old(world), room.versions, None)
                    ==> ok)
    {
      hide Ran, Stage, IsReady, Served, LiveAgrees, Undrafted, ReadsBack, Confined, Publishes, Rechecked;
      hide NothingPublished;
      ghost var from, before := clock, history;
      ok := Recheck(p, local, id, served, room);
      ReadsPublishNothing(history, from);
      ghost var checked := history;
      if !ok {
        NothingShorter(history, from);
        return;
      }
      ok := Undraft(p, local, id, w0);
      assert history[..clock - 1] == checked;
      RecheckedKept(g, p, local, id, room, served, checked, |checked|, history);
    }

    /** The release commit is a commit, and the repository makes releases immutable. */
    ghost predicate Lawful(p: Plan) {
      immutability && g.commitOf(p.commit) == Some(p.commit)
    }

    /** The last read: the release is this publication, immutable, its tag at the commit. */
    method Confirm(p: Plan, local: Local, id: nat) returns (ok: bool)
      requires Valid()
      modifies this
      ensures Grown(old(history)) && OnlyReads(history, old(clock)) && (Quiet() ==> world == old(world))
      ensures ok ==> clock == old(clock) + 2
                     && IsFinal(g, Listed(history, old(clock)), id, p.version, p.commit, p.body, local)
      ensures Quiet() ==>
                && (ok ==> IsFinal(g, world, id, p.version, p.commit, p.body, local))
                && (Faultless(old(clock)) && IsFinal(g, world, id, p.version, p.commit, p.body, local) ==> ok)
    {
      hide Ran, IsFinal;
      var f := Call();
      if !f.Works? {
        return false;
      }
      var releases := world.releases;
      f := Call();
      return f.Works? && IsFinal(g, World(releases, world.tags, world.live), id, p.version, p.commit, p.body, local);
    }

    /** Nobody interferes, the publication is lawful, and the API reports true digests. */
    ghost predicate Undisturbed(p: Plan)
      reads this
    {
      Quiet() && Lawful(p) && Honest(g, world)
    }

    /** Whatever happened since w0, this publication can be resumed, or it is the one released. */
    ghost predicate Recovered(w0: World, p: Plan, local: Local, r: Option<nat>)
      reads this
    {
      && Kept(g, w0, world, p, local)
      && (r.Some? ==> Stage(g, w0, world, p, local, PublishedResume(r.value)))
      && ((exists id :: IsState(g, w0, p, local, PublishedResume(id))) ==> world == w0)
    }

    /** The notes fit and the site has room. */
    ghost predicate Publishable(w: World, p: Plan, registry: Registry, local: Local) {
      NotesFit(p) && exists c :: HasRoom(g, w, registry, p.version, local.size, c)
    }

    /** Fills the draft, which has these assets, and publishes it. */
    method FillAndPublish(
      p: Plan, local: Local, id: nat, present: set<AssetName>, served: Snapshot, room: Composition, ghost w0: World)
      returns (ok: bool)
      requires Valid() && IsVerified(g, p, local)
      modifies this
      ensures Grown(old(history)) && NothingPublished(history[..clock - 1], old(clock))
      ensures ok || Publishes(history[clock - 1]) ==>
                clock >= old(clock) + 7 && Closed(g, immutability, p, local, id, room, served, history, clock - 1)
      ensures Quiet() && Stage(g, w0, old(world), p, local, DraftResume(id)) && old(HasAssets(world, id, present)) ==>
                && (ok ==> Confined(g, w0, world, p.version, id))
                && (!Publishes(history[clock - 1]) ==> !ok && Stage(g, w0, world, p, local, DraftResume(id)))
                && (Lawful(p) && Publishes(history[clock - 1]) ==> Stage(g, w0, world, p, local, PublishedResume(id)))
                && (Faultless(old(clock)) && LiveAgrees(w0, room.versions, None) && Served(w0, p.version) == served
                    ==> ok)
    {
      hide Ran, Stage, IsReady, Served, LiveAgrees, HasAssets, ReadsBack, Confined, Closed, NothingPublished;
      ghost var from := clock;
      ghost var calm := Quiet() && Stage(g, w0, world, p, local, DraftResume(id)) && HasAssets(world, id, present);
      ok := FillDraft(p, local, id, present, w0);
      ghost var filled := history;
      if !ok {
        NothingShorter(history, from);
        return;
      }
      if calm {
        OthersServed(g, w0, world, p, local, DraftResume(id));
      }
      LiveSame(w0, world, room.versions);
      ok := PublishDraft(p, local, id, served, room, w0);
      assert filled <= history[..clock - 1];
      NothingFurther(filled, history[..clock - 1], from);
    }

    /** Creates or resumes the draft, fills it and publishes it. */
    method Proceed(
      p: Plan, local: Local, state: State, present: set<AssetName>, served: Snapshot, room: Composition,
      ghost w0: World)
      returns (r: Option<nat>)
      requires Valid() && IsVerified(g, p, local)
      modifies this
      ensures Grown(old(history)) && (state.PublishedResume? ==> OnlyReads(history, old(clock)))
      ensures PublishedClosed(g, immutability, p, local, state, room, served, history, old(clock))
      ensures r.Some? ==>
                && clock >= old(clock) + 2
                && IsFinal(g, Listed(history, clock - 2), r.value, p.version, p.commit, p.body, local)
                && (state.PublishedResume? ==> state.id == r.value)
                && (!state.PublishedResume? ==>
                      && clock >= 3
                      && ClosedFor(
                           g, immutability, p, local, state, r.value, room, served, history, old(clock), clock - 3))
      ensures Quiet() && state.PublishedResume? ==>
                && world == old(world)
                && (r.Some? ==> state.id == r.value && IsFinal(g, world, r.value, p.version, p.commit, p.body, local))
      ensures Quiet() && Stage(g, w0, old(world), p, local, state) && IsPresent(old(world), state, present) ==>
                && (r.Some? ==> Stage(g, w0, world, p, local, PublishedResume(r.value)))
                && (Lawful(p) ==>
                      && Kept(g, w0, world, p, local)
                      && (NothingPublished(history, old(clock)) || IsReleased(g, w0, world, p, local))
                      && (&& Faultless(old(clock)) && LiveAgrees(w0, room.versions, None)
                          && Served(w0, p.version) == served
                          ==> r.Some?))
    {
      hide Ran, Stage, HasAssets, Served, LiveAgrees, IsFinal, IsVerified, Confined, Publishes, Closed, PublishedClosed;
      ghost var from := clock;
      ghost var calm := Quiet() && Stage(g, w0, world, p, local, state) && IsPresent(world, state, present);
      var id, assets := 0, present;
      if state.Fresh? {
        var created := CreateDraft(p, local, w0);
        if created.None? {
          NothingClosed(g, immutability, p, local, state, room, served, history, from);
          return None;
        }
        id, assets := created.value, {};
      } else {
        id := state.id;
      }
      ghost var begun := history;
      if !state.PublishedResume? {
        var done := FillAndPublish(p, local, id, assets, served, room, w0);
        assert begun <= history[..clock - 1];
        NothingFurther(begun, history[..clock - 1], from);
        LastClosed(g, immutability, p, local, state, id, room, served, history, from);
        if !done {
          NothingLonger(history, from);
          return None;
        }
      } else {
        NothingClosed(g, immutability, p, local, state, room, served, history, from);
        if calm {
          StagePublished(g, w0, world, p, local, id);
        }
      }
      ghost var published := history;
      var confirmed := Confirm(p, local, id);
      ReadsPublishNothing(history, |published|);
      ClosedFurther(g, immutability, p, local, state, room, served, published, from, history);
      if !state.PublishedResume? {
        ClosedKept(g, immutability, p, local, id, room, served, published, |published| - 1, history);
        if calm && confirmed {
          ConfinedFinal(g, w0, world, p, local, id);
        }
        if calm && Lawful(p) {
          StagePublished(g, w0, world, p, local, id);
        }
      }
      return if confirmed then Some(id) else None;
    }

    /** The checks before anything is written: the room check between two equal listings, and the classification. */
    method Open(p: Plan, registry: Registry, local: Local) returns (r: Option<Opening>)
      requires Valid() && IsVerified(g, p, local) && NotesFit(p)
      modifies this
      ensures Grown(old(history)) && OnlyReads(history, old(clock)) && (Quiet() ==> world == old(world))
      ensures r.Some? ==>
                && clock == old(clock) + 9
                && Opened(g, p, registry, local, r.value.room, r.value.state, history, old(clock))
                && r.value.served == Served(Listed(history, old(clock)), p.version)
                && IsPresent(Listed(history, old(clock) + 7), r.value.state, r.value.present)
      ensures Quiet() && r.Some? ==>
                && HasRoom(g, world, registry, p.version, local.size, r.value.room)
                && r.value.served == Served(world, p.version) && IsState(g, world, p, local, r.value.state)
                && IsPresent(world, r.value.state, r.value.present)
      ensures Quiet() && Faultless(old(clock)) && r.None? ==>
                || (forall c :: !HasRoom(g, world, registry, p.version, local.size, c))
                || (forall s :: !IsState(g, world, p, local, s))
    {
      hide Ran, HasRoom, Served, IsVerified, IsState, Listed, Surveyed;
      ghost var from := clock;
      var served := ReadServed(p.version);
      if served.None? {
        return None;
      }
      ghost var before := history;
      var room := ReadRoom(registry, p.version, local.size);
      if room.None? {
        return None;
      }
      SeenKept(before, history, from);
      ghost var surveyed := history;
      var again := ReadServed(p.version);
      if again != served {
        return None;
      }
      SeenKept(surveyed, history, from);
      SeenKept(surveyed, history, from + 2);
      ghost var settled := history;
      var state, present := ReadState(p, local);
      if state.None? {
        return None;
      }
      SeenKept(settled, history, from);
      SeenKept(settled, history, from + 2);
      SeenKept(settled, history, from + 5);
      return Some(Opening(served.value, room.value, state.value, present));
    }

    /** What follows the checks, in a run whose calls from s on were those checks. */
    method Conclude(p: Plan, registry: Registry, local: Local, o: Opening, ghost s: nat) returns (r: Option<nat>)
      requires Valid() && clock == s + 9 && OnlyReads(history, s) && o.served == Served(Listed(history, s), p.version)
      requires Opened(g, p, registry, local, o.room, o.state, history, s)
      modifies this
      ensures Grown(old(history)) && PublishedGated(g, immutability, p, registry, history, s)
      ensures r.Some? ==> Succeeded(g, immutability, p, registry, local, o.room, o.state, r.value, history, s)
      ensures Quiet() && o.state.PublishedResume? ==>
                && world == old(world) && NothingPublished(history, s)
                && (r.Some? ==>
                      o.state.id == r.value && IsFinal(g, world, r.value, p.version, p.commit, p.body, local))
      ensures Quiet() && old(Stage(g, world, world, p, local, o.state)) && IsPresent(old(world), o.state, o.present) ==>
                && (r.Some? ==> Stage(g, old(world), world, p, local, PublishedResume(r.value)))
                && (Lawful(p) ==>
                      && Kept(g, old(world), world, p, local)
                      && (NothingPublished(history, s) || IsReleased(g, old(world), world, p, local))
                      && (&& Faultless(old(clock)) && LiveAgrees(old(world), o.room.versions, None)
                          && Served(old(world), p.version) == o.served
                          ==> r.Some?))
    {
      hide Ran, Stage, Kept, IsReleased, HasRoom, Served, LiveAgrees, IsFinal, IsState, Publishes, ClosedFor, Listed;
      hide IsPresent, PublishedGated, PublishedClosed, NothingPublished, Succeeded, IsVerified, Surveyed;
      ghost var w0, found := world, history;
      ReadsPublishNothing(history, s);
      r := Proceed(p, local, o.state, o.present, o.served, o.room, w0);
      ClosedGated(g, immutability, p, registry, local, o.room, o.state, found, s, history);
      if r.Some? {
        OpenedSucceeds(g, immutability, p, registry, local, o.room, o.state, r.value, found, s, history);
      }
      if o.state.PublishedResume? {
        ReadsPublishNothing(history, |found|);
      }
      if NothingPublished(history, |found|) {
        NothingFurther(found, history, s);
      }
    }

    /**
     publish_release. Whatever others do and whichever call fails, and whether
     or not the run then succeeds, a call that publishes comes after every
     gate: the room check passed, nothing it composed from had changed when the
     draft, checked once more, was published. Success means moreover that the
     release read last is this publication. Undisturbed, a run that fails
     anywhere leaves a state the next run resumes, one that finds the release
     published writes nothing, one without failures succeeds, and whatever was
     published can be composed and served.
     */
    method PublishRelease(p: Plan, registry: Registry) returns (r: Option<nat>)
      requires Valid()
      modifies this
      ensures Valid() && old(history) <= history
      ensures NotesFit(p) && (exists local :: IsVerified(g, p, local)) ==> clock > old(clock)
      ensures PublishedGated(g, immutability, p, registry, history, old(clock))
      ensures r.Some? ==> exists local, c, state ::
                Succeeded(g, immutability, p, registry, local, c, state, r.value, history, old(clock))
      ensures forall local :: IsVerified(g, p, local) && old(Undisturbed(p)) && old(Kept(g, world, world, p, local)) ==>
                && Recovered(old(world), p, local, r)
                && (Faultless(old(clock)) && old(Publishable(world, p, registry, local)) ==> r.Some?)
      ensures Quiet() && old(Honest(g, world)) && InjectiveSha(g)
              && (r.Some? || (Lawful(p) && !NothingPublished(history, old(clock))))
              ==> Composable(g, world, registry, p.version)
    {
      hide Ran, Stage, HasRoom, Served, LiveAgrees, IsFinal, LocalAssets, IsState, Honest, Opened, Succeeded, Listed;
      hide PublishedGated, NothingPublished, Composable, IsPresent;
      ghost var w0, from := world, clock;
      var verified := LocalAssets(g, p.files, p.version, p.commit, Some(p.body));
      NothingYet(history);
      NothingGated(g, immutability, p, registry, history, from);
      if verified.None? || p.body == "" || |p.body| > MAX_NOTES {
        return None;
      }
      var local := verified.value;
      var opening := Open(p, registry, local);
      ReadsPublishNothing(history, from);
      NothingGated(g, immutability, p, registry, history, from);
      ghost var calm := Undisturbed(p) && Kept(g, w0, w0, p, local);
      if calm {
        StageFound(g, w0, p, local, if opening.Some? then Some(opening.value.state) else None);
      }
      if opening.None? {
        return None;
      }
      var o := opening.value;
      if Quiet() && Honest(g, w0) {
        OpenedStage(g, w0, p, local, o.state);
        RoomAgrees(g, w0, registry, p.version, local.size, o.room);
      }
      r := Conclude(p, registry, local, o, from);
      if calm {
        OnlyPublishedState(g, w0, p, local, o.state);
      }
      if Quiet() && Honest(g, w0) {
        if r.Some? && o.state.PublishedResume? {
          FinalStage(g, w0, p, local, r.value);
        }
        if InjectiveSha(g) && IsReleased(g, w0, world, p, local) {
          ReleasedComposes(g, w0, world, p, registry, local, o.room);
        }
      }
    }

    /**
     Runs of the publication one after the other, until one succeeds. Crashes
     do not add up: however the first n runs went, when no call fails after n
     more calls one of n + 1 runs reaches the one final release. Nothing else
     has changed, and every run publishes behind its own gates only.
     */
    method PublishWithRetries(p: Plan, registry: Registry, runs: nat) returns (r: Option<nat>)
      requires Valid()
      modifies this
      ensures Valid() && old(history) <= history
      ensures forall k :: old(clock) <= k < clock && Publishes(history[k]) ==>
                exists s, local, c, state, id ::
                  old(clock) <= s && Gated(g, immutability, p, registry, local, c, state, id, history, s, k)
      ensures forall local :: IsVerified(g, p, local) && old(Undisturbed(p)) && old(Kept(g, world, world, p, local)) ==>
                && Kept(g, old(world), world, p, local)
                && (r.Some? ==> Stage(g, old(world), world, p, local, PublishedResume(r.value)))
                && ((exists n: nat :: old(clock) <= n < old(clock) + runs && Faultless(n))
                    && old(Publishable(world, p, registry, local))
                    ==> r.Some?)
    {
      hide Ran, Stage, HasRoom, Kept, LocalAssets, Publishes, Gated, Honest;
      ghost var w0, from, verified := world, clock, LocalAssets(g, p.files, p.version, p.commit, Some(p.body));
      ghost var local := if verified.Some? then verified.value else Local(map[], 0);
      ghost var calm := IsVerified(g, p, local) && Undisturbed(p) && Kept(g, w0, w0, p, local);
      ghost var room := Publishable(w0, p, registry, local);
      r := None;
      var done := 0;
      while done < runs && r.None?
        invariant done <= runs && Valid() && old(history) <= history
        invariant calm ==>
          && Kept(g, w0, world, p, local)
          && (r.Some? ==> Stage(g, w0, world, p, local, PublishedResume(r.value)))
          && (room && r.None? ==> clock >= from + done && forall n: nat :: from <= n < from + done ==> !Faultless(n))
        invariant forall k :: from <= k < clock && Publishes(history[k]) ==>
          exists s, local, c, state, id ::
            from <= s && Gated(g, immutability, p, registry, local, c, state, id, history, s, k)
      {
        ghost var w1, before := world, history;
        if calm {
          KeptAgain(g, w0, w1, p, local);
          RoomsKept(g, w0, w1, registry, p.version, local.size);
        }
        r := PublishRelease(p, registry);
        if calm {
          KeptFurther(g, w0, w1, world, p, local);
        }
        forall k, s, local, c, state, id
          | Gated(g, immutability, p, registry, local, c, state, id, before, s, k)
          ensures Gated(g, immutability, p, registry, local, c, state, id, history, s, k)
        {
          GatedKept(g, immutability, p, registry, local, c, state, id, before, s, k, history);
        }
        done := done + 1;
      }
    }
  }

  /** A call that changes nothing publishes nothing. */
  lemma ReadPublishesNothing(w: World)
    ensures !Publishes(Event(w, w))
  {
  }

  lemma StageKept(g: Gates, w0: World, w: World, p: Plan, local: Local, s: State)
    ensures Stage(g, w0, w, p, local, s) ==> Kept(g, w0, w, p, local)
  {
  }

  lemma CreatePublishesNothing(g: Gates, w: World, p: Plan, id: nat)
    requires id !in w.releases
    ensures !Publishes(Event(w, Created(g, w, p, id))) && HasAssets(Created(g, w, p, id), id, {})
  {
  }

  lemma EditPublishesNothing(g: Gates, w: World, p: Plan, id: nat)
    ensures Edited(g, w, p, id).Some? ==> !Publishes(Event(w, Edited(g, w, p, id).value))
  {
  }

  lemma UploadPublishesNothing(g: Gates, w: World, id: nat, name: AssetName, content: Content)
    ensures Uploaded(g, w, id, name, content).Some? ==> !Publishes(Event(w, Uploaded(g, w, id, name, content).value))
  {
  }

  /** This publication is released, and nothing else changed. */
  ghost predicate IsReleased(g: Gates, w0: World, w: World, p: Plan, local: Local) {
    exists id :: Stage(g, w0, w, p, local, PublishedResume(id))
  }

  /** Nothing but this version's release and tag changed, and it has no other release. */
  ghost predicate Confined(g: Gates, w0: World, w: World, version: Version, id: nat) {
    OthersSame(w0, w, version) && Honest(g, w) && OnlyRelease(w, id, version)
  }

  /** Publishing the draft, immutable or not, touches nothing else. */
  lemma UndraftedConfined(g: Gates, w0: World, w: World, p: Plan, local: Local, id: nat, immutability: bool)
    requires Stage(g, w0, w, p, local, DraftResume(id))
    ensures Undrafted(g, w, p, id, immutability).Some?
    ensures Confined(g, w0, Undrafted(g, w, p, id, immutability).value, p.version, id)
    ensures Publishes(Event(w, Undrafted(g, w, p, id, immutability).value))
  {
    var after := Undrafted(g, w, p, id, immutability).value;
    OwnReleaseChanged(w0, w, after, p.version, id);
    assert w.releases[id].draft && !after.releases[id].draft;
  }

  /** What the last read confirms is the released publication. */
  lemma ConfinedFinal(g: Gates, w0: World, w: World, p: Plan, local: Local, id: nat)
    requires Confined(g, w0, w, p.version, id) && IsFinal(g, w, id, p.version, p.commit, p.body, local)
    ensures Stage(g, w0, w, p, local, PublishedResume(id))
  {
  }

  /** The state read in an honest hosting, unless published under another title, is one the publication keeps. */
  lemma OpenedStage(g: Gates, w: World, p: Plan, local: Local, state: State)
    requires Honest(g, w) && IsState(g, w, p, local, state)
    ensures !state.PublishedResume? ==> Stage(g, w, w, p, local, state)
  {
  }

  lemma FinalStage(g: Gates, w: World, p: Plan, local: Local, id: nat)
    requires Honest(g, w) && IsState(g, w, p, local, PublishedResume(id))
    requires IsFinal(g, w, id, p.version, p.commit, p.body, local)
    ensures IsReleased(g, w, w, p, local)
  {
    assert Stage(g, w, w, p, local, PublishedResume(id));
  }

  lemma ReleasedComposes(
    g: Gates, w0: World, w: World, p: Plan, registry: Registry, local: Local, c: Composition)
    requires InjectiveSha(g) && Honest(g, w0) && IsVerified(g, p, local)
    requires HasRoom(g, w0, registry, p.version, local.size, c) && IsReleased(g, w0, w, p, local)
    ensures Composable(g, w, registry, p.version)
  {
    hide Stage, HasRoom, PagesPass, LocalAssets, Honest;
    var id :| Stage(g, w0, w, p, local, PublishedResume(id));
    PublishedThenComposes(g, w0, w, p, registry, local, id, c);
  }

  /** What the listing shows of the state's release. */
  predicate IsPresent(w: World, state: State, present: set<AssetName>) {
    !state.Fresh? ==> HasAssets(w, state.id, present)
  }

  /** The listings of the other releases and tags do not depend on this version's own. */
  lemma OthersServed(g: Gates, w0: World, w: World, p: Plan, local: Local, s: State)
    requires Stage(g, w0, w, p, local, s)
    ensures Served(w0, p.version) == Served(w, p.version) && w.live == w0.live
  {
    ServedSame(w0, w, p.version);
  }

  lemma ServedSame(a: World, b: World, version: Version)
    requires OthersSame(a, b, version)
    ensures Served(a, version) == Served(b, version)
  {
    forall id ensures Candidate(a, Some(version), id) <==> Candidate(b, Some(version), id)
              ensures Candidate(a, Some(version), id) ==> a.releases[id] == b.releases[id]
    {
      assert Elsewhere(a, id, version) <==> Elsewhere(b, id, version);
    }
    var s, t := Served(a, version), Served(b, version);
    assert s.releases == t.releases;
    assert s.tags == t.tags;
  }

  lemma LiveSame(a: World, b: World, versions: map<Version, Entry>)
    ensures a.live == b.live ==> (LiveAgrees(a, versions, None) <==> LiveAgrees(b, versions, None))
  {
  }

  /** The state read is the one the publication is in. */
  lemma StageFound(g: Gates, w: World, p: Plan, local: Local, found: Option<State>)
    requires exists s :: Stage(g, w, w, p, local, s)
    requires found.Some? ==> IsState(g, w, p, local, found.value)
    ensures found.Some? ==> Stage(g, w, w, p, local, found.value)
    ensures found.None? ==> exists s :: IsState(g, w, p, local, s)
  {
    var s :| Stage(g, w, w, p, local, s);
    if found.Some? {
      StateUnique(g, w, p, local, s, found.value);
    }
  }

  lemma OnlyPublishedState(g: Gates, w: World, p: Plan, local: Local, s: State)
    requires IsState(g, w, p, local, s)
    ensures (exists id :: IsState(g, w, p, local, PublishedResume(id))) ==> s.PublishedResume?
  {
    if id :| IsState(g, w, p, local, PublishedResume(id)) {
      StateUnique(g, w, p, local, s, PublishedResume(id));
    }
  }

  lemma KeptAgain(g: Gates, w0: World, w: World, p: Plan, local: Local)
    requires Kept(g, w0, w, p, local)
    ensures Honest(g, w) && Kept(g, w, w, p, local) && OthersSame(w0, w, p.version)
  {
    var s :| Stage(g, w0, w, p, local, s);
    assert OthersSame(w, w, p.version);
    assert Stage(g, w, w, p, local, s);
  }

  lemma KeptFurther(g: Gates, w0: World, w1: World, w: World, p: Plan, local: Local)
    requires OthersSame(w0, w1, p.version) && Kept(g, w1, w, p, local)
    ensures Kept(g, w0, w, p, local)
    ensures forall s :: Stage(g, w1, w, p, local, s) ==> Stage(g, w0, w, p, local, s)
  {
    hide IsState;
    forall s | Stage(g, w1, w, p, local, s) ensures Stage(g, w0, w, p, local, s) {
      OthersTransitive(w0, w1, w, p.version);
    }
    var s :| Stage(g, w1, w, p, local, s);
    assert Stage(g, w0, w, p, local, s);
  }

  lemma RoomsKept(g: Gates, a: World, b: World, registry: Registry, version: Version, size: nat)
    requires OthersSame(a, b, version)
    ensures (exists c :: HasRoom(g, a, registry, version, size, c)) ==>
              exists c :: HasRoom(g, b, registry, version, size, c)
  {
    if c :| HasRoom(g, a, registry, version, size, c) {
      RoomKept(g, a, b, registry, version, size, c);
    }
  }

  /** The room check does not depend on this version's own release and tag. */
  lemma RoomKept(g: Gates, a: World, b: World, registry: Registry, version: Version, size: nat, c: Composition)
    requires OthersSame(a, b, version) && HasRoom(g, a, registry, version, size, c)
    ensures HasRoom(g, b, registry, version, size, c)
  {
    hide Holds, SiteBytes, OthersSame, Recorded, AllRecorded, LiveAgrees, Served;
    CandidatesSame(a, b, version);
    HoldsKept(g, a, b, registry, version, c);
    ServedSame(a, b, version);
    RecordedAfter(g, a, b, registry, version);
    LiveKept(a, b, version);
    LiveSame(a, b, c.versions);
  }

  lemma LiveKept(a: World, b: World, version: Version)
    requires OthersSame(a, b, version)
    ensures a.live == b.live
  {
  }

  lemma CandidatesSame(a: World, b: World, version: Version)
    requires OthersSame(a, b, version)
    ensures forall id :: Candidate(a, Some(version), id) <==> Candidate(b, Some(version), id)
    ensures forall id :: Candidate(a, Some(version), id) && Candidate(b, Some(version), id) ==>
              a.releases[id] == b.releases[id]
  {
    forall id ensures Candidate(a, Some(version), id) <==> Candidate(b, Some(version), id)
              ensures Candidate(a, Some(version), id) ==> a.releases[id] == b.releases[id]
    {
      assert Elsewhere(a, id, version) <==> Elsewhere(b, id, version);
    }
  }

  lemma HoldsKept(g: Gates, a: World, b: World, registry: Registry, version: Version, c: Composition)
    requires OthersSame(a, b, version) && Holds(g, a, registry, Some(version), c)
    ensures Holds(g, b, registry, Some(version), c)
  {
    hide HoldsRelease, OthersSame, HasCandidate;
    CandidatesSame(a, b, version);
    forall v ensures HasCandidate(a, Some(version), v) <==> HasCandidate(b, Some(version), v) {
      HasCandidateSame(a, b, version, v);
    }
    forall id | Candidate(b, Some(version), id) ensures HoldsRelease(g, b, registry, c, id) {
      ReleaseKept(g, a, b, registry, version, c, id);
    }
  }

  lemma ReleaseKept(
    g: Gates, a: World, b: World, registry: Registry, version: Version, c: Composition, id: nat)
    requires OthersSame(a, b, version) && Candidate(a, Some(version), id) && Candidate(b, Some(version), id)
    requires a.releases[id] == b.releases[id] && HoldsRelease(g, a, registry, c, id)
    ensures HoldsRelease(g, b, registry, c, id)
  {
    hide OthersSame, Candidate, GateOf, RetiredFiles;
    GateKept(g, a, b, version, id);
  }

  lemma HasCandidateSame(a: World, b: World, version: Version, v: Version)
    requires OthersSame(a, b, version)
    ensures HasCandidate(a, Some(version), v) <==> HasCandidate(b, Some(version), v)
  {
    CandidatesSame(a, b, version);
    if HasCandidate(a, Some(version), v) {
      var id :| Candidate(a, Some(version), id) && a.releases[id].tag == VersionTag(v);
      assert Candidate(b, Some(version), id) && b.releases[id].tag == VersionTag(v);
    }
    if HasCandidate(b, Some(version), v) {
      var id :| Candidate(b, Some(version), id) && b.releases[id].tag == VersionTag(v);
      assert Candidate(a, Some(version), id) && a.releases[id].tag == VersionTag(v);
    }
  }

  lemma GateKept(g: Gates, a: World, b: World, version: Version, id: nat)
    requires OthersSame(a, b, version) && Candidate(a, Some(version), id) && Candidate(b, Some(version), id)
    requires a.releases[id] == b.releases[id]
    ensures GateOf(g, a, id) == GateOf(g, b, id)
  {
    hide Gate;
    assert a.releases[id].tag in a.tags <==> a.releases[id].tag in b.tags;
  }

  /**
   What publish-release leaves undisturbed is what compose-pages takes: the
   versions of the room check, and the new one.
   */
  lemma PublishedThenComposes(
    g: Gates, w0: World, w: World, p: Plan, registry: Registry, local: Local, id: nat, c: Composition)
    requires InjectiveSha(g) && Honest(g, w0) && IsVerified(g, p, local)
    requires HasRoom(g, w0, registry, p.version, local.size, c)
    requires Stage(g, w0, w, p, local, PublishedResume(id))
    ensures exists d :: PagesPass(g, w, registry, p.version, Some(p.version), d)
                        && d.versions.Keys == c.versions.Keys + {p.version}
  {
    hide LocalAssets, HasRoom, PagesPass, Served, Honest, PublishedAs, OthersSame;
    OthersServed(g, w0, w, p, local, PublishedResume(id));
    StagePublished(g, w0, w, p, local, id);
    DryRunFaithful(g, w0, w, registry, p.version, id, c, p.files, p.commit, p.body);
    var d := WithPublished(c, p.version, PublishedAs(g, p.files, p.version, p.commit, id).value);
    assert d.versions.Keys == c.versions.Keys + {p.version};
  }

  lemma RoomAgrees(g: Gates, w: World, registry: Registry, version: Version, size: nat, c: Composition)
    requires HasRoom(g, w, registry, version, size, c)
    ensures LiveAgrees(w, c.versions, None)
  {
  }

  lemma StagePublished(g: Gates, w0: World, w: World, p: Plan, local: Local, id: nat)
    requires Stage(g, w0, w, p, local, PublishedResume(id))
    ensures IsFinal(g, w, id, p.version, p.commit, p.body, local)
  {
  }

  lemma VerifiedFiles(g: Gates, p: Plan, local: Local)
    requires IsVerified(g, p, local)
    ensures local.digests.Keys == ReleaseAssets(p.version) && ReleaseAssets(p.version) <= p.files.Keys
    ensures forall name :: name in local.digests ==> name in p.files && local.digests[name] == g.sha(p.files[name])
  {
  }

  predicate HasAssets(w: World, id: nat, names: set<AssetName>) {
    id in w.releases && w.releases[id].assets.Keys == names
  }

  lemma StateHas(g: Gates, w: World, p: Plan, local: Local, s: State)
    requires IsState(g, w, p, local, s)
    ensures !s.Fresh? ==> s.id in w.releases
  {
  }

  lemma StageHas(g: Gates, w0: World, w: World, p: Plan, local: Local, s: State)
    ensures Stage(g, w0, w, p, local, s) && !s.Fresh? ==> s.id in w.releases
  {
  }

  /** release_assets, in the order of the uploads. */
  function AssetAt(version: Version, i: nat): AssetName {
    if i == 0 then Archive(version) else if i == 1 then Sums else if i == 2 then SumsSignature else Manifest
  }

  function FirstAssets(version: Version, n: nat): set<AssetName> {
    if n == 0 then {} else FirstAssets(version, n - 1) + {AssetAt(version, n - 1)}
  }

  lemma AssetNotFirst(version: Version, i: nat)
    requires i < 4
    ensures AssetAt(version, i) !in FirstAssets(version, i) && AssetAt(version, i) in ReleaseAssets(version)
  {
    assert FirstAssets(version, 1) == {Archive(version)};
    assert FirstAssets(version, 2) == {Archive(version), Sums};
    assert FirstAssets(version, 3) == {Archive(version), Sums, SumsSignature};
  }

  lemma AllAssets(version: Version)
    ensures FirstAssets(version, 4) == ReleaseAssets(version)
  {
    assert FirstAssets(version, 1) == {Archive(version)};
    assert FirstAssets(version, 2) == {Archive(version), Sums};
    assert FirstAssets(version, 3) == {Archive(version), Sums, SumsSignature};
  }

  method NewId(ids: set<nat>) returns (id: nat)
    ensures id !in ids
  {
    FreshId(ids);
    id :| id !in ids;
  }

  lemma FreshId(ids: set<nat>)
    ensures exists id: nat :: id !in ids
  {
    if ids == {} {
      assert 0 !in ids;
    } else {
      var top := Greatest(ids);
      assert top + 1 !in ids;
    }
  }

  ghost function Greatest(ids: set<nat>): (m: nat)
    requires ids != {}
    ensures m in ids && forall id :: id in ids ==> id <= m
  {
    var id :| id in ids;
    if ids == {id} then id
    else
      var rest := Greatest(ids - {id});
      assert forall i :: i in ids ==> i == id || i in ids - {id};
      if rest > id then rest else id
  }
}
