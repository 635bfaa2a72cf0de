/** Resolving the hardlinks of an RPM payload. */
module Hardlinks {
  import opened Options

  type Name = string

  /** The digest and the size of a regular file. */
  datatype File = File(digest: nat, size: nat)

  /** Where k steps along the links lead; a name that is no link stays. */
  function Follow(links: map<Name, Name>, name: Name, k: nat): Name
    decreases k
  {
    if k > 0 && name in links then Follow(links, links[name], k - 1) else name
  }

  /** The chain from here ends at a regular file. */
  ghost predicate EndsAtFile(files: map<Name, File>, links: map<Name, Name>, name: Name) {
    exists k: nat :: Follow(links, name, k) in files
  }

  /** Every chain ends at a regular file: no cycle, and no link to nothing. */
  ghost predicate Resolvable(files: map<Name, File>, links: map<Name, Name>) {
    forall name :: name in links ==> EndsAtFile(files, links, name)
  }

  /** A chain has one file at most. */
  lemma {:induction false} OneEnd(files: map<Name, File>, links: map<Name, Name>, name: Name, j: nat, k: nat)
    requires files.Keys !! links.Keys
    requires Follow(links, name, j) in files && Follow(links, name, k) in files
    ensures Follow(links, name, j) == Follow(links, name, k)
    decreases j
  {
    if name in links && j > 0 && k > 0 {
      OneEnd(files, links, links[name], j - 1, k - 1);
    }
  }

  /** name has the file at the end of its chain. */
  ghost predicate HasEnd(files: map<Name, File>, links: map<Name, Name>, name: Name, file: File) {
    exists k: nat :: Follow(links, name, k) in files && files[Follow(links, name, k)] == file
  }

  /** The links that are resolved have the files at their ends, and the files are as they were. */
  ghost predicate Resolved(
    files: map<Name, File>, links: map<Name, Name>, rest: map<Name, Name>, all: map<Name, File>)
  {
    && (forall name :: name in rest ==> name in links && rest[name] == links[name])
    && all.Keys == files.Keys + (links.Keys - rest.Keys)
    && (forall name :: name in files ==> all[name] == files[name])
    && forall name :: name in links && name !in rest ==> HasEnd(files, links, name, all[name])
  }

  /** A link to a file, or to a link that has its file, has that file. */
  lemma LinkHasEnd(
    files: map<Name, File>, links: map<Name, Name>, rest: map<Name, Name>, all: map<Name, File>, name: Name)
    requires files.Keys !! links.Keys && Resolved(files, links, rest, all)
    requires name in rest && rest[name] in all
    ensures HasEnd(files, links, name, all[rest[name]])
  {
    var target := rest[name];
    if target in files {
      assert Follow(links, name, 1) == Follow(links, target, 0) == target;
    } else {
      var k: nat :| Follow(links, target, k) in files && files[Follow(links, target, k)] == all[target];
      assert Follow(links, name, k + 1) == Follow(links, target, k);
    }
  }

  /** When no remaining link leads to a file, none of their chains ever does. */
  lemma {:induction false} StuckNeverEnds(
    files: map<Name, File>, links: map<Name, Name>, rest: map<Name, Name>, all: map<Name, File>, name: Name, k: nat)
    requires files.Keys !! links.Keys && Resolved(files, links, rest, all)
    requires forall n :: n in rest ==> rest[n] !in all
    requires name in rest
    ensures Follow(links, name, k) !in files
    decreases k
  {
    if k > 0 {
      var target := rest[name];
      if target in rest {
        StuckNeverEnds(files, links, rest, all, target, k - 1);
      } else {
        assert target !in links;
      }
    }
  }

  /** A round without a ready link, or with a cycle left: some chain ends at no file. */
  lemma StuckRefuses(files: map<Name, File>, links: map<Name, Name>, rest: map<Name, Name>, all: map<Name, File>)
    requires files.Keys !! links.Keys && Resolved(files, links, rest, all) && rest.Keys != {}
    requires forall n :: n in rest ==> rest[n] !in all
    ensures !Resolvable(files, links)
  {
    var name :| name in rest.Keys;
    forall k: nat ensures Follow(links, name, k) !in files {
      StuckNeverEnds(files, links, rest, all, name, k);
    }
    assert name in links && !EndsAtFile(files, links, name);
  }

  /** What a successful resolution returns. */
  ghost predicate Ends(files: map<Name, File>, links: map<Name, Name>, all: map<Name, File>) {
    && all.Keys == files.Keys + links.Keys
    && (forall name :: name in files ==> all[name] == files[name])
    && forall name, k: nat :: name in links && Follow(links, name, k) in files ==>
         all[name] == files[Follow(links, name, k)]
  }

  lemma AllResolved(files: map<Name, File>, links: map<Name, Name>, rest: map<Name, Name>, all: map<Name, File>)
    requires files.Keys !! links.Keys && Resolved(files, links, rest, all) && rest.Keys == {}
    ensures Resolvable(files, links) && Ends(files, links, all)
  {
    forall name | name in links ensures EndsAtFile(files, links, name) {
      assert HasEnd(files, links, name, all[name]);
    }
    forall name, k: nat | name in links && Follow(links, name, k) in files
      ensures all[name] == files[Follow(links, name, k)]
    {
      assert HasEnd(files, links, name, all[name]);
      var j: nat :| Follow(links, name, j) in files && files[Follow(links, name, j)] == all[name];
      OneEnd(files, links, name, j, k);
    }
  }

  lemma OneResolved(
    files: map<Name, File>, links: map<Name, Name>, rest: map<Name, Name>, all: map<Name, File>, name: Name)
    requires files.Keys !! links.Keys && Resolved(files, links, rest, all)
    requires name in rest && rest[name] in all
    ensures Resolved(files, links, rest - {name}, all[name := all[rest[name]]]) && |rest - {name}| == |rest| - 1
  {
    hide HasEnd;
    LinkHasEnd(files, links, rest, all, name);
    assert (rest - {name}).Keys == rest.Keys - {name};
  }

  /** One round: every ready link gets its target's file. */
  method ResolveReady(
    ghost files: map<Name, File>, ghost links: map<Name, Name>, all: map<Name, File>, rest: map<Name, Name>,
    ready: set<Name>)
    returns (allAfter: map<Name, File>, restAfter: map<Name, Name>)
    requires files.Keys !! links.Keys && Resolved(files, links, rest, all)
    requires ready != {} && forall name :: name in ready ==> name in rest && rest[name] in all
    ensures Resolved(files, links, restAfter, allAfter) && |restAfter| < |rest|
  {
    hide Resolved;
    var todo := ready;
    allAfter, restAfter := all, rest;
    while todo != {}
      invariant Resolved(files, links, restAfter, allAfter)
      invariant forall name :: name in todo ==> name in restAfter && restAfter[name] in allAfter
      invariant |restAfter| <= |rest| && (todo != ready ==> |restAfter| < |rest|)
      decreases |todo|
    {
      var name :| name in todo;
      OneResolved(files, links, restAfter, allAfter, name);
      todo := todo - {name};
      allAfter, restAfter := allAfter[name := allAfter[restAfter[name]]], restAfter - {name};
    }
  }

  /**
   The loop of payload: rounds that give every ready link its target's file. It
   succeeds exactly when every chain ends at a regular file, gives every link
   the file at the end of its chain, and leaves the files alone.
   */
  method Resolve(files: map<Name, File>, links: map<Name, Name>) returns (r: Option<map<Name, File>>)
    requires files.Keys !! links.Keys
    ensures r.Some? <==> Resolvable(files, links)
    ensures r.Some? ==> Ends(files, links, r.value)
  {
    hide Resolvable, Ends;
    var all, rest := files, links;
    while rest.Keys != {}
      invariant Resolved(files, links, rest, all)
      decreases |rest|
    {
      hide Resolved;
      var ready := set name | name in rest && rest[name] in all;
      if ready == {} {
        assert forall n :: n in rest && rest[n] in all ==> n in ready;
        StuckRefuses(files, links, rest, all);
        return None;
      }
      all, rest := ResolveReady(files, links, all, rest, ready);
    }
    AllResolved(files, links, rest, all);
    return Some(all);
  }
}
