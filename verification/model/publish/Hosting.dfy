/** GitHub and the live site as publication sees them. */
module Hosting {
  import opened Options
  import opened Versions

  /** The bytes of a file; Gates.sha gives their digest. */
  datatype Content = Content(bytes: nat)
  type Digest = nat

  /** An unpacked site directory. */
  datatype Site = Site(files: nat)

  type Commit = nat
  type Object = nat

  datatype Tag = VersionTag(version: Version) | OtherTag(name: string)

  /** The four assets of a release, and any other file somebody attached. */
  datatype AssetName = Archive(version: Version) | Sums | SumsSignature | Manifest | OtherAsset(name: string)

  /** An uploaded file: the digest the API reports, and the bytes a download returns. */
  datatype Asset = Asset(digest: Digest, content: Content)

  datatype Release = Release(
    tag: Tag, draft: bool, prerelease: bool, immutable: bool, target: Commit, title: string, body: string,
    assets: map<AssetName, Asset>)

  /** The releases by id, the v tags with the object each names, and the live SHA256SUMS of each served version. */
  datatype World = World(releases: map<nat, Release>, tags: map<Tag, Object>, live: map<Version, Digest>)

  /**
   The checks that publication and composition both run, as functions of the
   bytes they read: hashing, signature policy, parsing, unpacking, the signed
   identity, packing, rendering, sizes, and the commit an object leads to. The
   release key, the base URL and the fingerprint are the committed ones.
   */
  datatype Gates = Gates(
    sha: Content -> Digest,
    signed: (Content, Content) -> bool,
    paths: Content -> Option<set<string>>,
    unpack: (Content, Version, Content, Content) -> Option<Site>,
    standalone: (Content, Version, Content, Content, Content) -> bool,
    identity: (Site, Version, Commit) -> bool,
    installerSigned: Site -> bool,
    pack: Site -> Content,
    notes: (Site, Content, Version) -> Option<string>,
    bytes: Site -> nat,
    members: Site -> nat,
    commitOf: Object -> Option<Commit>,
    title: Version -> string)

  function ReleaseAssets(v: Version): set<AssetName> {
    {Archive(v), Sums, SumsSignature, Manifest}
  }

  /** No two files share a digest. */
  ghost predicate InjectiveSha(g: Gates) {
    forall a, b :: g.sha(a) == g.sha(b) ==> a == b
  }

  /** Every digest the API reports is the digest of the bytes a download returns. */
  ghost predicate Honest(g: Gates, w: World) {
    forall id, name :: id in w.releases && name in w.releases[id].assets ==>
      w.releases[id].assets[name].digest == g.sha(w.releases[id].assets[name].content)
  }

  /** What tag_commit finds: no tag, the commit it leads to, or something it refuses. */
  datatype TagLookup = Absent | Names(commit: Commit) | Unresolvable

  function TagCommit(g: Gates, w: World, tag: Tag): TagLookup {
    if tag !in w.tags then Absent
    else
      match g.commitOf(w.tags[tag])
      case None => Unresolvable
      case Some(commit) => Names(commit)
  }

  function Digests(assets: map<AssetName, Asset>): map<AssetName, Digest> {
    map name | name in assets :: assets[name].digest
  }
}
