/** release/published-versions.json: the versions that were published and those that were retired. */
module Registries {
  import opened Composition
  import opened Hosting
  import opened Options
  import opened Versions

  /** One entry of the file; the tests of its fields decide whether it can be read at all. */
  datatype Row =
    | Unreadable
    | Row(version: Version, sums: Digest, reason: string)

  /** The file as its two lists. */
  datatype RegistryFile = RegistryFile(published: seq<Row>, retired: seq<Row>)

  /** The white space that strip removes from a text. */
  predicate IsSpace(c: char) {
    || '\U{09}' <= c <= '\U{0D}' || '\U{1C}' <= c <= '\U{20}' || c == '\U{85}' || c == '\U{A0}' || c == '\U{1680}'
    || '\U{2000}' <= c <= '\U{200A}' || c == '\U{2028}' || c == '\U{2029}' || c == '\U{202F}' || c == '\U{205F}'
    || c == '\U{3000}'
  }

  /** Something is left of the text once it is stripped. */
  predicate SaysSomething(s: string) {
    exists i :: 0 <= i < |s| && !IsSpace(s[i])
  }

  predicate Readable(rows: seq<Row>, needsReason: bool) {
    forall i :: 0 <= i < |rows| ==> rows[i].Row? && (needsReason ==> SaysSomething(rows[i].reason))
  }

  predicate NamesOnce(rows: seq<Row>)
    requires Readable(rows, false)
  {
    forall i, j :: 0 <= i < j < |rows| ==> rows[i].version != rows[j].version
  }

  /** The registry is the file's rows as maps. */
  predicate Lists(rows: seq<Row>, entries: map<Version, Digest>)
    requires Readable(rows, false)
  {
    && (forall i :: 0 <= i < |rows| ==> MapsTo(entries, rows[i].version, rows[i].sums))
    && (forall v :: v in entries ==> exists i :: 0 <= i < |rows| && rows[i].version == v)
  }

  /** The rows of one list, added to the versions seen before it. */
  method LoadRows(rows: seq<Row>, needsReason: bool, seen: set<Version>) returns (r: Option<map<Version, Digest>>)
    ensures r.Some? <==> Readable(rows, needsReason) && Readable(rows, false) && NamesOnce(rows)
                         && forall i :: 0 <= i < |rows| ==> rows[i].version !in seen
    ensures r.Some? ==> Lists(rows, r.value) && r.value.Keys !! seen
  {
    hide SaysSomething;
    var entries: map<Version, Digest> := map[];
    for i := 0 to |rows|
      invariant forall k :: 0 <= k < i ==> rows[k].Row? && (needsReason ==> SaysSomething(rows[k].reason))
      invariant forall k :: 0 <= k < i ==> rows[k].version !in seen && MapsTo(entries, rows[k].version, rows[k].sums)
      invariant forall j, k :: 0 <= j < k < i ==> rows[j].version != rows[k].version
      invariant forall v :: v in entries ==> v !in seen && exists k :: 0 <= k < i && rows[k].version == v
    {
      var row := rows[i];
      if row.Unreadable? || (needsReason && !SaysSomething(row.reason)) || row.version in seen
         || row.version in entries {
        return None;
      }
      entries := entries[row.version := row.sums];
    }
    return Some(entries);
  }

  predicate MapsTo(entries: map<Version, Digest>, v: Version, sums: Digest) {
    v in entries && entries[v] == sums
  }

  /** load_registry: every version stands in one entry only, and a retired one has a reason. */
  method LoadRegistry(file: RegistryFile) returns (r: Option<Registry>)
    ensures r.Some? ==>
              && ValidRegistry(r.value) && Readable(file.published, false) && Readable(file.retired, true)
              && Readable(file.retired, false)
              && Lists(file.published, r.value.published) && Lists(file.retired, r.value.retired)
    ensures r.Some? <==> (&& Readable(file.published, false) && Readable(file.retired, true)
                          && Readable(file.retired, false) && NamesOnce(file.published + file.retired))
  {
    hide SaysSomething;
    var published := LoadRows(file.published, false, {});
    if published.None? {
      if Readable(file.published, false) && Readable(file.retired, false) {
        assert forall i :: 0 <= i < |file.published| ==> (file.published + file.retired)[i] == file.published[i];
      }
      return None;
    }
    var retired := LoadRows(file.retired, true, published.value.Keys);
    if retired.None? {
      if Readable(file.retired, true) && Readable(file.retired, false) {
        RepeatedSomewhere(file, published.value);
      }
      return None;
    }
    NoneRepeated(file, published.value);
    return Some(Registry(published.value, retired.value));
  }

  lemma NoneRepeated(file: RegistryFile, published: map<Version, Digest>)
    requires Readable(file.published, false) && Readable(file.retired, false) && Lists(file.published, published)
    requires NamesOnce(file.published) && NamesOnce(file.retired)
    requires forall i :: 0 <= i < |file.retired| ==> file.retired[i].version !in published
    ensures NamesOnce(file.published + file.retired)
  {
    var all, n := file.published + file.retired, |file.published|;
    forall i, j | 0 <= i < j < |all| ensures all[i].version != all[j].version {
      assert all[i] == if i < n then file.published[i] else file.retired[i - n];
      assert all[j] == if j < n then file.published[j] else file.retired[j - n];
      assert i < n ==> all[i].version in published;
    }
  }

  lemma RepeatedSomewhere(file: RegistryFile, published: map<Version, Digest>)
    requires Readable(file.published, false) && Readable(file.retired, false) && Lists(file.published, published)
    requires !(NamesOnce(file.retired) && forall i :: 0 <= i < |file.retired| ==> file.retired[i].version !in published)
    ensures !NamesOnce(file.published + file.retired)
  {
    var all, n := file.published + file.retired, |file.published|;
    if i :| 0 <= i < |file.retired| && file.retired[i].version in published {
      var k :| 0 <= k < n && file.published[k].version == file.retired[i].version;
      assert all[k].version == all[n + i].version;
    } else {
      var i, j :| 0 <= i < j < |file.retired| && file.retired[i].version == file.retired[j].version;
      assert all[n + i].version == all[n + j].version;
    }
  }
}
