/** The one-string identity of an RPM that native transactions use. */
module Identities {
  import opened Options
  import Sequences

  predicate IsAlphanumeric(c: char) {
    '0' <= c <= '9' || 'A' <= c <= 'Z' || 'a' <= c <= 'z'
  }

  predicate IsDecimal(s: string) {
    s != "" && forall i :: 0 <= i < |s| ==> '0' <= s[i] <= '9'
  }

  /** rpm_name: names may hold dashes and dots. */
  predicate ValidName(s: string) {
    0 < |s| <= 128 && forall i :: 0 <= i < |s| ==> IsAlphanumeric(s[i]) || s[i] in "-_.+"
  }

  /** A version or a release: no dash and no colon. */
  predicate IsScalar(s: string) {
    s != "" && forall i :: 0 <= i < |s| ==> IsAlphanumeric(s[i]) || s[i] in "._+~^"
  }

  /** The number of a digit string. */
  function Value(s: string): nat
    requires forall i :: 0 <= i < |s| ==> '0' <= s[i] <= '9'
  {
    if s == "" then 0 else 10 * Value(s[..|s| - 1]) + (s[|s| - 1] as int - '0' as int)
  }

  predicate ValidEpoch(s: string) {
    IsDecimal(s) && Value(s) < 0x1_0000_0000 && (|s| == 1 || s[0] != '0')
  }

  /** What is before and after the first c. */
  function SplitOnce(s: string, c: char): (r: Option<(string, string)>)
    ensures r.Some? ==> s == r.value.0 + [c] + r.value.1 && c !in r.value.0
    ensures r.None? ==> c !in s
  {
    if s == "" then None
    else if s[0] == c then
      assert s == [] + [c] + s[1..];
      Some(("", s[1..]))
    else
      match SplitOnce(s[1..], c)
      case None => None
      case Some(parts) =>
        assert s == [s[0]] + s[1..];
        Some(([s[0]] + parts.0, parts.1))
  }

  /** valid_evr: epoch, colon, version, dash, release. */
  predicate ValidEvr(s: string) {
    |s| <= 256
    && match SplitOnce(s, ':')
       case None => false
       case Some(outer) =>
         match SplitOnce(outer.1, '-')
         case None => false
         case Some(inner) => ValidEpoch(outer.0) && IsScalar(inner.0) && IsScalar(inner.1)
  }

  predicate ValidArch(name: string, arch: string) {
    && 0 < |arch| <= 32
    && ((forall i :: 0 <= i < |arch| ==> IsAlphanumeric(arch[i]) || arch[i] == '_')
        || (name == "gpg-pubkey" && arch == "(none)"))
  }

  /** A name, a full version and an architecture as the validators admit them. */
  predicate ValidTriple(name: string, evr: string, arch: string) {
    ValidName(name) && ValidEvr(evr) && ValidArch(name, arch)
  }

  /** An epoch of zero is dropped. */
  function Shown(evr: string): string {
    if "0:" <= evr then evr[2..] else evr
  }

  /** native_identity. */
  function NativeIdentity(name: string, evr: string, arch: string): string {
    name + "-" + Shown(evr) + "." + arch
  }

  // ---- reading an identity back ----

  /** What is before and after the last c. */
  function SplitLast(s: string, c: char): (r: Option<(string, string)>)
    ensures r.Some? ==> s == r.value.0 + [c] + r.value.1
  {
    if s == "" then None
    else if s[|s| - 1] == c then
      assert s == s[..|s| - 1] + [c] + "";
      Some((s[..|s| - 1], ""))
    else
      match SplitLast(s[..|s| - 1], c)
      case None => None
      case Some(parts) =>
        assert s == s[..|s| - 1] + [s[|s| - 1]];
        Some((parts.0, parts.1 + [s[|s| - 1]]))
  }

  lemma {:induction false} SplitLastAt(a: string, c: char, b: string)
    requires c !in b
    ensures SplitLast(a + [c] + b, c) == Some((a, b))
  {
    var s := a + [c] + b;
    if b == "" {
      assert s[..|s| - 1] == a;
    } else {
      var front := b[..|b| - 1];
      assert s[..|s| - 1] == a + [c] + front && s[|s| - 1] == b[|b| - 1];
      assert b == front + [b[|b| - 1]];
      SplitLastAt(a, c, front);
    }
  }

  datatype Triple = Triple(name: string, evr: string, arch: string)

  /** The triple an identity stands for: split at the last dot, then at the last two dashes. */
  function Denoted(nevra: string): Option<Triple> {
    match SplitLast(nevra, '.')
    case None => None
    case Some(dot) =>
      match SplitLast(dot.0, '-')
      case None => None
      case Some(second) =>
        match SplitLast(second.0, '-')
        case None => None
        case Some(first) =>
          var version := if ':' in first.1 then first.1 else "0:" + first.1;
          Some(Triple(first.0, version + "-" + second.1, dot.1))
  }

  lemma ScalarHas(s: string, c: char)
    requires IsScalar(s) && (c == '-' || c == ':')
    ensures c !in s
  {
  }

  /** An admitted version is an epoch, a version and a release, in one way. */
  lemma EvrParts(evr: string) returns (epoch: string, version: string, release: string)
    requires ValidEvr(evr)
    ensures evr == epoch + ":" + version + "-" + release
    ensures ValidEpoch(epoch) && IsScalar(version) && IsScalar(release)
  {
    var outer := SplitOnce(evr, ':').value;
    var inner := SplitOnce(outer.1, '-').value;
    epoch, version, release := outer.0, inner.0, inner.1;
    assert evr == epoch + ":" + (version + "-" + release);
  }

  lemma ShownParts(epoch: string, version: string, release: string)
    requires ValidEpoch(epoch)
    ensures var evr := epoch + ":" + version + "-" + release;
            Shown(evr) == if epoch == "0" then version + "-" + release else evr
  {
    var evr := epoch + ":" + version + "-" + release;
    assert evr[0] == epoch[0];
    if |epoch| == 1 {
      assert evr[1] == ':';
      assert evr[2..] == version + "-" + release;
      assert evr[..2] == epoch + ":";
      assert "0:" <= evr <==> epoch == "0";
    } else {
      assert evr[1] == epoch[1] && evr[1] != ':';
      assert "0:"[1] == ':';
    }
  }

  lemma ArchHasNoDot(name: string, arch: string)
    requires ValidArch(name, arch)
    ensures '.' !in arch
  {
  }

  lemma DenotedParts(name: string, shown: string, release: string, arch: string)
    requires '-' !in shown && '-' !in release && '.' !in arch
    ensures Denoted(name + "-" + (shown + "-" + release) + "." + arch)
         == Some(Triple(name, (if ':' in shown then shown else "0:" + shown) + "-" + release, arch))
  {
    hide SplitLast;
    Sequences.Assoc(name + "-", shown + "-", release);
    Sequences.Assoc(name + "-", shown, "-");
    SplitLastAt(name + "-" + (shown + "-" + release), '.', arch);
    SplitLastAt(name + "-" + shown, '-', release);
    SplitLastAt(name, '-', shown);
  }

  /** The identity of an admitted triple denotes that triple, so no two triples share one. */
  lemma IdentityDenotes(name: string, evr: string, arch: string)
    requires ValidTriple(name, evr, arch)
    ensures Denoted(NativeIdentity(name, evr, arch)) == Some(Triple(name, evr, arch))
  {
    hide ValidName, ValidEvr, ValidArch, ValidEpoch, IsScalar, SplitLast, Shown, Denoted;
    var epoch, version, release := EvrParts(evr);
    var shown := if epoch == "0" then version else epoch + ":" + version;
    ShownParts(epoch, version, release);
    ScalarHas(version, '-');
    ScalarHas(version, ':');
    ScalarHas(release, '-');
    ArchHasNoDot(name, arch);
    EpochHas(epoch);
    DenotedParts(name, shown, release, arch);
    assert epoch != "0" ==> shown[|epoch|] == ':';
    assert evr == (if ':' in shown then shown else "0:" + shown) + "-" + release;
  }

  lemma EpochHas(epoch: string)
    requires ValidEpoch(epoch)
    ensures '-' !in epoch && ':' !in epoch
  {
  }

  /** native_identity is injective on what the validators admit. */
  lemma IdentityInjective(a: Triple, b: Triple)
    requires ValidTriple(a.name, a.evr, a.arch) && ValidTriple(b.name, b.evr, b.arch)
    requires NativeIdentity(a.name, a.evr, a.arch) == NativeIdentity(b.name, b.evr, b.arch)
    ensures a == b
  {
    hide ValidTriple, Denoted, NativeIdentity;
    IdentityDenotes(a.name, a.evr, a.arch);
    IdentityDenotes(b.name, b.evr, b.arch);
  }
}
