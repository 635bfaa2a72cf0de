/** The observed package database and the packages of a release. */
module Inventories {
  import opened Identities
  import opened Options

  /** One installed record; the same name may be installed for several architectures or in several versions. */
  datatype InstalledRpm = InstalledRpm(name: string, evr: string, arch: string, installTime: nat)

  /** The observed records. The source keeps them sorted, so its list is the set in one order. */
  type Inventory = set<InstalledRpm>

  predicate SameRecord(a: InstalledRpm, b: InstalledRpm) {
    a.name == b.name && a.evr == b.evr && a.arch == b.arch
  }

  predicate ValidRecord(r: InstalledRpm) {
    ValidTriple(r.name, r.evr, r.arch)
  }

  /** What parse_query admits: valid records, none twice. */
  ghost predicate ValidInventory(inventory: Inventory) {
    && (forall r :: r in inventory ==> ValidRecord(r))
    && forall a, b :: a in inventory && b in inventory && SameRecord(a, b) ==> a == b
  }

  // ---- parse_query ----

  /** A line of the query as its fields. */
  type Line = seq<string>

  predicate ReadableLine(fields: Line) {
    && |fields| == 4 && ValidTriple(fields[0], fields[1], fields[2])
    && IsDecimal(fields[3]) && Value(fields[3]) < 0x1_0000_0000_0000_0000
  }

  function RecordOf(fields: Line): InstalledRpm
    requires ReadableLine(fields)
  {
    InstalledRpm(fields[0], fields[1], fields[2], Value(fields[3]))
  }

  const MAX_RECORDS: nat := 100_000

  function TripleOf(r: InstalledRpm): Triple {
    Triple(r.name, r.evr, r.arch)
  }

  predicate Readable(lines: seq<Line>) {
    forall i :: 0 <= i < |lines| ==> ReadableLine(lines[i])
  }

  predicate NoneRepeated(lines: seq<Line>)
    requires Readable(lines)
  {
    forall i, j :: 0 <= i < j < |lines| ==> !SameRecord(RecordOf(lines[i]), RecordOf(lines[j]))
  }

  /** The records of the lines. */
  function Records(lines: seq<Line>): (rs: seq<InstalledRpm>)
    requires Readable(lines)
    ensures |rs| == |lines| && forall i :: 0 <= i < |rs| ==> rs[i] == RecordOf(lines[i])
  {
    if lines == [] then [] else Records(lines[..|lines| - 1]) + [RecordOf(lines[|lines| - 1])]
  }

  /** The loop of parse_query: every line a record, none repeated. */
  method ParseLines(lines: seq<Line>) returns (r: Option<Inventory>)
    ensures r.Some? <==> |lines| <= MAX_RECORDS && Readable(lines) && NoneRepeated(lines)
    ensures r.Some? ==> ValidInventory(r.value) && |r.value| == |lines|
    ensures r.Some? ==> forall x :: x in r.value <==> x in Records(lines)
  {
    hide ReadableLine, RecordOf, Collected;
    var packages: Inventory := {};
    var identities: set<Triple> := {};
    NothingCollected(lines);
    for i := 0 to |lines|
      invariant i <= MAX_RECORDS && Collected(lines, i, packages, identities)
    {
      CollectedMeans(lines, i, packages, identities);
      if !ReadableLine(lines[i]) {
        return None;
      }
      var record := RecordOf(lines[i]);
      if TripleOf(record) in identities {
        Repeats(lines, i, packages);
        return None;
      }
      CollectedNext(lines, i, packages, identities);
      identities := identities + {TripleOf(record)};
      packages := packages + {record};
      if i + 1 > MAX_RECORDS {
        return None;
      }
    }
    assert lines[..|lines|] == lines;
    CollectedMeans(lines, |lines|, packages, identities);
    LinesValid(lines, packages);
    return Some(packages);
  }

  /** The pieces of a text between the occurrences of a character. */
  function Split(s: string, c: char): (parts: seq<string>)
    ensures parts != []
    decreases |s|
  {
    match SplitOnce(s, c)
    case None => [s]
    case Some(first) => [first.0] + Split(first.1, c)
  }

  function Join(parts: seq<string>, c: char): string
    requires parts != []
  {
    if |parts| == 1 then parts[0] else parts[0] + [c] + Join(parts[1..], c)
  }

  /** Splitting finds exactly the pieces without the character that make up the text. */
  lemma {:induction false} SplitIffJoins(s: string, c: char, parts: seq<string>)
    requires parts != []
    ensures parts == Split(s, c) <==> s == Join(parts, c) && forall i :: 0 <= i < |parts| ==> c !in parts[i]
    decreases |s|
  {
    var first := SplitOnce(s, c);
    if first.Some? {
      if |parts| > 1 {
        SplitIffJoins(first.value.1, c, parts[1..]);
      }
      if s == Join(parts, c) && forall i :: 0 <= i < |parts| ==> c !in parts[i] {
        assert |parts| > 1;
        FirstPiece(parts[0], Join(parts[1..], c), first.value.0, first.value.1, c);
        assert parts == [parts[0]] + parts[1..];
      }
      if parts == Split(s, c) {
        assert parts[1..] == Split(first.value.1, c);
        assert forall i :: 0 < i < |parts| ==> parts[i] == parts[1..][i - 1];
      }
    } else if |parts| > 1 {
      assert Join(parts, c)[|parts[0]|] == c;
    }
  }

  lemma FirstPiece(a: string, b: string, a': string, b': string, c: char)
    requires a + [c] + b == a' + [c] + b' && c !in a && c !in a'
    ensures a == a' && b == b'
  {
    var s := a + [c] + b;
    assert s[|a|] == c && s[|a'|] == c;
    assert a == s[..|a|] && b == s[|a| + 1..] && a' == s[..|a'|] && b' == s[|a'| + 1..];
  }

  const MAX_INVENTORY_BYTES: nat := 8_388_608

  /** The query's output ends its last line, and is not too long. */
  predicate IsOutput(text: string) {
    text != "" && |text| <= MAX_INVENTORY_BYTES && text[|text| - 1] == '\n'
  }

  function AllFields(lines: seq<string>): (fields: seq<Line>)
    ensures |fields| == |lines| && forall i :: 0 <= i < |lines| ==> fields[i] == Split(lines[i], '|')
  {
    seq(|lines|, i requires 0 <= i < |lines| => Split(lines[i], '|'))
  }

  /** The fields of the lines of the query's output. */
  function QueryLines(text: string): seq<Line>
    requires IsOutput(text)
  {
    AllFields(Split(text[..|text| - 1], '\n'))
  }

  /** parse_query: complete lines, each a record, none repeated. */
  method ParseQuery(text: string) returns (r: Option<Inventory>)
    ensures r.Some? <==> IsOutput(text) && |QueryLines(text)| <= MAX_RECORDS && Readable(QueryLines(text))
                         && NoneRepeated(QueryLines(text))
    ensures r.Some? ==> ValidInventory(r.value) && |r.value| == |QueryLines(text)| > 0
    ensures r.Some? ==> forall x :: x in r.value <==> x in Records(QueryLines(text))
  {
    hide ReadableLine, RecordOf;
    if !IsOutput(text) {
      return None;
    }
    r := ParseLines(QueryLines(text));
  }

  /** The first n lines are in. */
  ghost predicate Collected(lines: seq<Line>, n: nat, packages: Inventory, identities: set<Triple>)
    requires n <= |lines|
  {
    && Readable(lines[..n]) && NoneRepeated(lines[..n]) && |packages| == n
    && (forall x :: x in packages <==> x in Records(lines[..n]))
    && forall t :: t in identities <==> exists x :: x in packages && TripleOf(x) == t
  }

  lemma NothingCollected(lines: seq<Line>)
    ensures Collected(lines, 0, {}, {})
  {
    assert lines[..0] == [];
  }

  lemma CollectedMeans(lines: seq<Line>, n: nat, packages: Inventory, identities: set<Triple>)
    requires n <= |lines| && Collected(lines, n, packages, identities)
    ensures Readable(lines[..n]) && NoneRepeated(lines[..n]) && |packages| == n
    ensures forall x :: x in packages <==> x in Records(lines[..n])
    ensures forall t :: t in identities <==> exists x :: x in packages && TripleOf(x) == t
  {
  }

  lemma CollectedNext(lines: seq<Line>, i: nat, packages: Inventory, identities: set<Triple>)
    requires i < |lines| && Collected(lines, i, packages, identities) && ReadableLine(lines[i])
    requires TripleOf(RecordOf(lines[i])) !in identities
    ensures var record := RecordOf(lines[i]);
            Collected(lines, i + 1, packages + {record}, identities + {TripleOf(record)})
  {
    hide ReadableLine, RecordOf;
    assert lines[..i + 1] == lines[..i] + [lines[i]] && lines[..i + 1][..i] == lines[..i];
    assert Records(lines[..i + 1]) == Records(lines[..i]) + [RecordOf(lines[i])];
    RecordIsNew(lines, i, packages, identities);
  }

  lemma Repeats(lines: seq<Line>, i: nat, packages: Inventory)
    requires i < |lines| && Readable(lines[..i]) && ReadableLine(lines[i])
    requires forall x :: x in packages ==> x in Records(lines[..i])
    requires exists x :: x in packages && TripleOf(x) == TripleOf(RecordOf(lines[i]))
    ensures Readable(lines) ==> !NoneRepeated(lines)
  {
    hide ReadableLine, RecordOf;
    var x :| x in packages && TripleOf(x) == TripleOf(RecordOf(lines[i]));
    var k :| 0 <= k < i && Records(lines[..i])[k] == x;
    assert RecordOf(lines[k]) == x;
  }

  lemma RecordIsNew(lines: seq<Line>, i: nat, packages: Inventory, identities: set<Triple>)
    requires i < |lines| && Readable(lines[..i]) && ReadableLine(lines[i]) && NoneRepeated(lines[..i])
    requires Readable(lines[..i + 1])
    requires forall x :: x in packages <==> x in Records(lines[..i])
    requires forall t :: t in identities <==> exists x :: x in packages && TripleOf(x) == t
    requires TripleOf(RecordOf(lines[i])) !in identities
    ensures NoneRepeated(lines[..i + 1]) && RecordOf(lines[i]) !in packages
  {
    hide ReadableLine, RecordOf;
    forall k | 0 <= k < i ensures !SameRecord(RecordOf(lines[k]), RecordOf(lines[i])) {
      assert RecordOf(lines[k]) == Records(lines[..i])[k];
      assert RecordOf(lines[k]) in packages;
    }
  }

  lemma LinesValid(lines: seq<Line>, packages: Inventory)
    requires Readable(lines) && NoneRepeated(lines) && forall x :: x in packages <==> x in Records(lines)
    ensures ValidInventory(packages)
  {
    hide ValidTriple;
    forall x | x in packages ensures ValidRecord(x) {
      var k :| 0 <= k < |lines| && Records(lines)[k] == x;
    }
    forall a, b | a in packages && b in packages && SameRecord(a, b) ensures a == b {
      var i :| 0 <= i < |lines| && Records(lines)[i] == a;
      var k :| 0 <= k < |lines| && Records(lines)[k] == b;
    }
  }

  // ---- the packages of a release ----

  datatype Role = Runtime | Python | Devel | ProfileRole

  /** A release package; nevr is its epoch, version and release. */
  datatype Package = Package(
    name: string, nevr: string, arch: string, filename: string, sha256: string, role: Role)

  predicate IsIdentifier(s: string) {
    ValidName(s) && IsAlphanumeric(s[0])
  }

  predicate IsHexDigest(s: string) {
    |s| == 64 && forall i :: 0 <= i < 64 ==> '0' <= s[i] <= '9' || 'a' <= s[i] <= 'f'
  }

  predicate EndsWith(s: string, suffix: string) {
    |suffix| <= |s| && s[|s| - |suffix|..] == suffix
  }

  /** validate_package: an exact identity of this Fedora release, and the file name that goes with it. */
  predicate ValidPackage(p: Package) {
    && IsIdentifier(p.name) && IsHexDigest(p.sha256) && (p.arch == "x86_64" || p.arch == "noarch")
    && ValidEvr(p.nevr)
    && var vr := SplitOnce(p.nevr, ':').value.1;
       && EndsWith(vr, ".fc44") && p.filename == p.name + "-" + vr + "." + p.arch + ".rpm"
  }

  /** What a plan binds: a validated release package or an authenticated Fedora one. */
  predicate ValidInput(p: Package) {
    ValidTriple(p.name, p.nevr, p.arch) && (p.arch == "x86_64" || p.arch == "noarch")
  }

  lemma ValidPackageIsInput(p: Package)
    requires ValidPackage(p)
    ensures ValidInput(p)
  {
    hide ValidEvr;
    assert p.arch == "x86_64" ==> forall i :: 0 <= i < |p.arch| ==> IsAlphanumeric(p.arch[i]) || p.arch[i] == '_';
  }
}
