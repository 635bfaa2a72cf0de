/** Release versions in the order they are published. */
module Versions {
  /** The three numbers of vX.Y.Z; the tag pattern admits exactly one spelling of each. */
  datatype Version = Version(major: nat, minor: nat, patch: nat)

  predicate Older(a: Version, b: Version) {
    || a.major < b.major
    || (a.major == b.major && (a.minor < b.minor || (a.minor == b.minor && a.patch < b.patch)))
  }

  /** v is the greatest of the versions: max with version_key. */
  predicate IsNewest(v: Version, versions: set<Version>) {
    v in versions && forall other :: other in versions && other != v ==> Older(other, v)
  }
}
