/** What the calls of a publication found and left, and the gates before its publishing request. */
module Histories {
  import opened Composition
  import opened DryRun
  import opened Hosting
  import opened Options
  import opened Pages
  import opened Publication
  import opened Versions

  const MAX_NOTES: nat := 120000

  /** One call: the hosting as the call found it and as the call left it. */
  datatype Event = Event(before: World, after: World)

  type History = seq<Event>

  /** Two requests from call i on: the releases, then the tags. */
  function Listed(h: History, i: nat): World
    requires i + 1 < |h|
  {
    World(h[i].before.releases, h[i + 1].before.tags, h[i + 1].before.live)
  }

  /** Three requests from call i on: the releases, then the tags, then the live sums. */
  function Surveyed(h: History, i: nat): World
    requires i + 2 < |h|
  {
    World(h[i].before.releases, h[i + 1].before.tags, h[i + 2].before.live)
  }

  ghost predicate OnlyReads(h: History, from: nat) {
    forall k :: from <= k < |h| ==> h[k].before == h[k].after
  }

  /** A draft became a release through this call. */
  ghost predicate Publishes(e: Event) {
    exists id ::
      && id in e.before.releases && e.before.releases[id].draft
      && id in e.after.releases && !e.after.releases[id].draft
  }

  ghost predicate NothingPublished(h: History, from: nat) {
    forall k :: from <= k < |h| ==> !Publishes(h[k])
  }

  lemma ReadsPublishNothing(h: History, from: nat)
    requires OnlyReads(h, from)
    ensures NothingPublished(h, from)
  {
  }

  lemma NothingYet(h: History)
    ensures NothingPublished(h, |h|)
  {
  }

  lemma NothingFurther(h: History, more: History, from: nat)
    requires h <= more && NothingPublished(h, from) && NothingPublished(more, |h|)
    ensures NothingPublished(more, from)
  {
  }

  lemma NothingShorter(h: History, from: nat)
    requires h != [] && NothingPublished(h, from)
    ensures NothingPublished(h[..|h| - 1], from) && (from < |h| ==> !Publishes(h[|h| - 1]))
  {
  }

  lemma NothingLonger(h: History, from: nat)
    requires h != [] && NothingPublished(h[..|h| - 1], from)
    ensures !Publishes(h[|h| - 1]) ==> NothingPublished(h, from)
  {
    forall k | from <= k < |h| - 1 ensures h[..|h| - 1][k] == h[k] {
    }
  }

  // ---- the gates of a run ----

  /** The files are this publication's, checked as local_assets does, with their notes. */
  ghost predicate IsVerified(g: Gates, p: Plan, local: Local) {
    LocalAssets(g, p.files, p.version, p.commit, Some(p.body)) == Some(local)
  }

  predicate NotesFit(p: Plan) {
    0 < |p.body| <= MAX_NOTES
  }

  /** The release is a draft with this title and these notes and files, and every file reads back as itself. */
  predicate ReadsBack(g: Gates, w: World, p: Plan, local: Local, id: nat) {
    && id in w.releases && w.releases[id].draft && IsTitled(g, w, p, id)
    && Digests(w.releases[id].assets) == local.digests && HonestRelease(g, w.releases[id])
  }

  /**
   The first nine calls, from call s on, passed the gates before anything is
   written: the room check between two equal listings, and the classification.
   */
  ghost predicate Opened(
    g: Gates, p: Plan, registry: Registry, local: Local, c: Composition, state: State, h: History, s: nat)
  {
    && s + 9 <= |h| && IsVerified(g, p, local) && NotesFit(p)
    && HasRoom(g, Surveyed(h, s + 2), registry, p.version, local.size, c)
    && Served(Listed(h, s + 5), p.version) == Served(Listed(h, s), p.version)
    && IsState(g, Listed(h, s + 7), p, local, state)
  }

  /** The five calls right before call k checked the draft, the listings and the live sums once more. */
  ghost predicate Rechecked(
    g: Gates, p: Plan, local: Local, id: nat, c: Composition, served: Snapshot, h: History, k: nat)
  {
    && 5 <= k <= |h| && IsReady(g, Listed(h, k - 5), p, local, id)
    && Served(Listed(h, k - 3), p.version) == served
    && LiveAgrees(h[k - 1].before, c.versions, None)
  }

  /**
   Call k publishes the release, and the six calls right before it passed their
   gates: the files read back, the draft was checked once more, the listings
   were those of the room check, and what it composed was still live.
   */
  ghost predicate Closed(
    g: Gates, immutability: bool, p: Plan, local: Local, id: nat, c: Composition, served: Snapshot, h: History, k: nat)
  {
    && 6 <= k < |h| && ReadsBack(g, h[k - 6].before, p, local, id)
    && Rechecked(g, p, local, id, c, served, h, k)
    && Undrafted(g, h[k].before, p, id, immutability) == Some(h[k].after)
  }

  /** The same for a run that found this state before call n. */
  ghost predicate ClosedFor(
    g: Gates, immutability: bool, p: Plan, local: Local, state: State, id: nat, c: Composition, served: Snapshot,
    h: History, n: nat, k: nat)
  {
    && n + 6 <= k && (state == Fresh || state == DraftResume(id))
    && Closed(g, immutability, p, local, id, c, served, h, k)
  }

  ghost predicate PublishedClosed(
    g: Gates, immutability: bool, p: Plan, local: Local, state: State, c: Composition, served: Snapshot, h: History,
    n: nat)
  {
    forall k :: n <= k < |h| && Publishes(h[k]) ==>
      exists id :: ClosedFor(g, immutability, p, local, state, id, c, served, h, n, k)
  }

  /** A run from call s on reached its publishing request, call k, through every gate, in order. */
  ghost predicate Gated(
    g: Gates, immutability: bool, p: Plan, registry: Registry, local: Local, c: Composition, state: State, id: nat,
    h: History, s: nat, k: nat)
  {
    && Opened(g, p, registry, local, c, state, h, s)
    && ClosedFor(g, immutability, p, local, state, id, c, Served(Listed(h, s), p.version), h, s + 9, k)
  }

  /** Every call from call s on that published something came after every gate. */
  ghost predicate PublishedGated(g: Gates, immutability: bool, p: Plan, registry: Registry, h: History, s: nat) {
    forall k :: s <= k < |h| && Publishes(h[k]) ==>
      exists local, c, state, id :: Gated(g, immutability, p, registry, local, c, state, id, h, s, k)
  }

  /** The run from call s to the end of the history succeeded with this release. */
  ghost predicate Succeeded(
    g: Gates, immutability: bool, p: Plan, registry: Registry, local: Local, c: Composition, state: State, id: nat,
    h: History, s: nat)
  {
    && s + 11 <= |h| && Opened(g, p, registry, local, c, state, h, s)
    && IsFinal(g, Listed(h, |h| - 2), id, p.version, p.commit, p.body, local)
    && if state.PublishedResume? then state.id == id && OnlyReads(h, s)
       else Gated(g, immutability, p, registry, local, c, state, id, h, s, |h| - 3)
  }

  // ---- what is known of a history stays known as it grows ----

  lemma SeenKept(h: History, more: History, i: nat)
    requires h <= more
    ensures i + 1 < |h| ==> Listed(more, i) == Listed(h, i)
    ensures i + 2 < |h| ==> Surveyed(more, i) == Surveyed(h, i)
  {
  }

  lemma OpenedKept(
    g: Gates, p: Plan, registry: Registry, local: Local, c: Composition, state: State, h: History, s: nat,
    more: History)
    requires h <= more && Opened(g, p, registry, local, c, state, h, s)
    ensures Opened(g, p, registry, local, c, state, more, s)
  {
    hide HasRoom, Served, IsState, IsVerified, Listed, Surveyed;
    SeenKept(h, more, s);
    SeenKept(h, more, s + 2);
    SeenKept(h, more, s + 5);
    SeenKept(h, more, s + 7);
  }

  lemma RecheckedKept(
    g: Gates, p: Plan, local: Local, id: nat, c: Composition, served: Snapshot, h: History, k: nat, more: History)
    requires h <= more && Rechecked(g, p, local, id, c, served, h, k)
    ensures Rechecked(g, p, local, id, c, served, more, k)
  {
    hide Served, IsReady, LiveAgrees, Listed;
    SeenKept(h, more, k - 5);
    SeenKept(h, more, k - 3);
  }

  lemma ClosedKept(
    g: Gates, immutability: bool, p: Plan, local: Local, id: nat, c: Composition, served: Snapshot, h: History, k: nat,
    more: History)
    requires h <= more && Closed(g, immutability, p, local, id, c, served, h, k)
    ensures Closed(g, immutability, p, local, id, c, served, more, k)
  {
    hide Rechecked, ReadsBack, Undrafted;
    RecheckedKept(g, p, local, id, c, served, h, k, more);
  }

  lemma GatedKept(
    g: Gates, immutability: bool, p: Plan, registry: Registry, local: Local, c: Composition, state: State, id: nat,
    h: History, s: nat, k: nat, more: History)
    requires h <= more && Gated(g, immutability, p, registry, local, c, state, id, h, s, k)
    ensures Gated(g, immutability, p, registry, local, c, state, id, more, s, k)
  {
    hide HasRoom, IsState, IsVerified, Closed, Listed, Surveyed, Served;
    OpenedKept(g, p, registry, local, c, state, h, s, more);
    ClosedKept(g, immutability, p, local, id, c, Served(Listed(h, s), p.version), h, k, more);
    SeenKept(h, more, s);
  }

  lemma NothingClosed(
    g: Gates, immutability: bool, p: Plan, local: Local, state: State, c: Composition, served: Snapshot, h: History,
    n: nat)
    requires NothingPublished(h, n)
    ensures PublishedClosed(g, immutability, p, local, state, c, served, h, n)
  {
  }

  lemma NothingGated(g: Gates, immutability: bool, p: Plan, registry: Registry, h: History, s: nat)
    requires NothingPublished(h, s)
    ensures PublishedGated(g, immutability, p, registry, h, s)
  {
  }

  lemma LastClosed(
    g: Gates, immutability: bool, p: Plan, local: Local, state: State, id: nat, c: Composition, served: Snapshot,
    h: History, n: nat)
    requires n < |h| && NothingPublished(h[..|h| - 1], n)
    requires Publishes(h[|h| - 1]) ==> ClosedFor(g, immutability, p, local, state, id, c, served, h, n, |h| - 1)
    ensures PublishedClosed(g, immutability, p, local, state, c, served, h, n)
  {
    hide ClosedFor, Publishes;
    forall k | n <= k < |h| - 1 ensures !Publishes(h[k]) {
      assert h[..|h| - 1][k] == h[k];
    }
  }

  lemma ClosedFurther(
    g: Gates, immutability: bool, p: Plan, local: Local, state: State, c: Composition, served: Snapshot, h: History,
    n: nat, more: History)
    requires PublishedClosed(g, immutability, p, local, state, c, served, h, n)
    requires h <= more && NothingPublished(more, |h|)
    ensures PublishedClosed(g, immutability, p, local, state, c, served, more, n)
  {
    hide Closed, Publishes;
    forall k | n <= k < |more| && Publishes(more[k])
      ensures exists id :: ClosedFor(g, immutability, p, local, state, id, c, served, more, n, k)
    {
      assert k < |h| && h[k] == more[k];
      var id :| ClosedFor(g, immutability, p, local, state, id, c, served, h, n, k);
      ClosedKept(g, immutability, p, local, id, c, served, h, k, more);
      assert ClosedFor(g, immutability, p, local, state, id, c, served, more, n, k);
    }
  }

  /** What an opened run then publishes behind the last gates is gated. */
  lemma ClosedGated(
    g: Gates, immutability: bool, p: Plan, registry: Registry, local: Local, c: Composition, state: State,
    found: History, s: nat, h: History)
    requires Opened(g, p, registry, local, c, state, found, s) && NothingPublished(found, s) && |found| == s + 9
    requires found <= h
    requires PublishedClosed(g, immutability, p, local, state, c, Served(Listed(found, s), p.version), h, s + 9)
    ensures PublishedGated(g, immutability, p, registry, h, s)
  {
    hide Opened, ClosedFor, Publishes, Listed, Served;
    OpenedKept(g, p, registry, local, c, state, found, s, h);
    SeenKept(found, h, s);
    forall k | s <= k < s + 9 ensures !Publishes(h[k]) {
      assert found[k] == h[k];
    }
    forall k | s <= k < |h| && Publishes(h[k])
      ensures exists id :: Gated(g, immutability, p, registry, local, c, state, id, h, s, k)
    {
      var id :| ClosedFor(
        g, immutability, p, local, state, id, c, Served(Listed(found, s), p.version), h, s + 9, k);
      assert Gated(g, immutability, p, registry, local, c, state, id, h, s, k);
    }
  }

  /** An opened run that published behind the last gates, or found the release published, and confirmed it. */
  lemma OpenedSucceeds(
    g: Gates, immutability: bool, p: Plan, registry: Registry, local: Local, c: Composition, state: State, id: nat,
    found: History, s: nat, h: History)
    requires Opened(g, p, registry, local, c, state, found, s) && |found| == s + 9 && found <= h && s + 11 <= |h|
    requires IsFinal(g, Listed(h, |h| - 2), id, p.version, p.commit, p.body, local)
    requires state.PublishedResume? ==> state.id == id && OnlyReads(found, s) && OnlyReads(h, s + 9)
    requires !state.PublishedResume? ==>
      ClosedFor(g, immutability, p, local, state, id, c, Served(Listed(found, s), p.version), h, s + 9, |h| - 3)
    ensures Succeeded(g, immutability, p, registry, local, c, state, id, h, s)
  {
    hide Opened, ClosedFor, Served, IsFinal;
    OpenedKept(g, p, registry, local, c, state, found, s, h);
    SeenKept(found, h, s);
    if state.PublishedResume? {
      forall k | s <= k < |h| ensures h[k].before == h[k].after {
        assert k < s + 9 ==> found[k] == h[k];
      }
    }
  }
}
