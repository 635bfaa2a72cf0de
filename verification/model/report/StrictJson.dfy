/** The reader's JSON value: no object repeats a key, at any depth. */
module StrictJson {
  import opened Bytes
  import opened Json
  import opened Options

  datatype StrictValue =
    | NullValue
    | BoolValue(b: bool)
    | NumberValue(text: bytes)
    | StringValue(s: bytes)
    | ArrayValue(items: seq<StrictValue>)
    | ObjectValue(fields: map<bytes, StrictValue>)

  function Strict(v: Json): Option<StrictValue>
    decreases v, 1
  {
    match v
    case Null => Some(NullValue)
    case Bool(b) => Some(BoolValue(b))
    case Number(text) => Some(NumberValue(text))
    case String(s) => Some(StringValue(s))
    case Array(items) =>
      var r := StrictItems(items);
      if r.None? then None else Some(ArrayValue(r.value))
    case Object(members) =>
      var r := StrictMembers(members);
      if r.None? then None else Some(ObjectValue(r.value))
  }

  function StrictItems(items: seq<Json>): (r: Option<seq<StrictValue>>)
    ensures r.Some? ==> |r.value| == |items|
    decreases items, 0
  {
    if items == [] then Some([])
    else
      var front, last := StrictItems(items[..|items| - 1]), Strict(items[|items| - 1]);
      if front.None? || last.None? then None else Some(front.value + [last.value])
  }

  function StrictMembers(members: seq<Member>): Option<map<bytes, StrictValue>>
    decreases members, 0
  {
    if members == [] then Some(map[])
    else
      var m := members[|members| - 1];
      var front, last := StrictMembers(members[..|members| - 1]), Strict(m.value);
      if front.None? || m.key in front.value || last.None? then None else Some(front.value[m.key := last.value])
  }

  /** The independent reading: no two members of one object, anywhere in the tree, share a key. */
  predicate Unrepeated(v: Json)
    decreases v, 1
  {
    match v
    case Array(items) => forall x :: x in items ==> Unrepeated(x)
    case Object(members) => UnrepeatedMembers(members) && DistinctKeys(members)
    case _ => true
  }

  predicate DistinctKeys(members: seq<Member>) {
    forall i, j :: 0 <= i < j < |members| ==> members[i].key != members[j].key
  }

  predicate UnrepeatedMembers(members: seq<Member>)
    decreases members, 0
  {
    forall m :: m in members ==> UnrepeatedMember(m)
  }

  predicate UnrepeatedMember(m: Member)
    decreases m, 0
  {
    Unrepeated(m.value)
  }

  /** A value is refused exactly for a repeated key. */
  lemma {:induction false} StrictIffUnrepeated(v: Json)
    ensures Strict(v).Some? <==> Unrepeated(v)
    decreases v, 1
  {
    match v {
      case Array(items) => StrictItemsIff(items);
      case Object(members) => StrictMembersIff(members);
      case _ =>
    }
  }

  lemma {:induction false} StrictItemsIff(items: seq<Json>)
    ensures StrictItems(items).Some? <==> forall x :: x in items ==> Unrepeated(x)
    ensures StrictItems(items).Some? ==>
              forall i :: 0 <= i < |items| ==> Strict(items[i]) == Some(StrictItems(items).value[i])
    decreases items, 0
  {
    if items != [] {
      var n := |items| - 1;
      StrictItemsIff(items[..n]);
      StrictIffUnrepeated(items[n]);
      assert items == items[..n] + [items[n]];
    }
  }

  /** An object keeps each member under its key, and has no other key. */
  ghost predicate Holds(fields: map<bytes, StrictValue>, members: seq<Member>) {
    && |fields| == |members|
    && (forall i :: 0 <= i < |members| ==>
          members[i].key in fields && Strict(members[i].value) == Some(fields[members[i].key]))
    && (forall k :: k in fields ==> HasKey(members, k))
  }

  ghost predicate HasKey(members: seq<Member>, k: bytes) {
    exists i :: 0 <= i < |members| && members[i].key == k
  }

  lemma {:induction false} StrictMembersHolds(members: seq<Member>)
    requires StrictMembers(members).Some?
    ensures Holds(StrictMembers(members).value, members) && DistinctKeys(members)
    decreases members, 0
  {
    hide Strict, Holds, DistinctKeys;
    if members == [] {
      NoMembersHold();
    } else {
      var n := |members| - 1;
      StrictMembersHolds(members[..n]);
      HoldsAppend(StrictMembers(members[..n]).value, members[..n], members[n], Strict(members[n].value).value);
      assert members == members[..n] + [members[n]];
    }
  }

  lemma NoMembersHold()
    ensures Holds(map[], []) && DistinctKeys([])
  {
  }

  lemma HoldsAppend(fields: map<bytes, StrictValue>, members: seq<Member>, m: Member, value: StrictValue)
    requires Holds(fields, members) && DistinctKeys(members) && m.key !in fields && Strict(m.value) == Some(value)
    ensures Holds(fields[m.key := value], members + [m]) && DistinctKeys(members + [m])
  {
    var all := members + [m];
    forall k | k in fields[m.key := value] ensures HasKey(all, k) {
      if k == m.key {
        assert all[|members|].key == k;
      } else {
        assert HasKey(members, k);
        var i :| 0 <= i < |members| && members[i].key == k;
        assert all[i].key == k;
      }
    }
  }

  lemma {:induction false} StrictMembersIff(members: seq<Member>)
    ensures StrictMembers(members).Some? <==> UnrepeatedMembers(members) && DistinctKeys(members)
    decreases members, 0
  {
    if members != [] {
      var n := |members| - 1;
      var last := members[n];
      StrictMembersIff(members[..n]);
      assert members == members[..n] + [last];
      StrictIffUnrepeated(last.value);
      if StrictMembers(members[..n]).Some? {
        StrictMembersHolds(members[..n]);
        LastKeyFresh(members, StrictMembers(members[..n]).value);
      }
      PrefixDistinct(members, n);
      UnrepeatedAppend(members[..n], last);
    }
  }

  lemma LastKeyFresh(members: seq<Member>, fields: map<bytes, StrictValue>)
    requires members != [] && Holds(fields, members[..|members| - 1]) && DistinctKeys(members[..|members| - 1])
    ensures members[|members| - 1].key !in fields <==> DistinctKeys(members)
  {
    var n := |members| - 1;
    var front := members[..n];
    if members[n].key in fields {
      assert HasKey(front, members[n].key);
      var i :| 0 <= i < n && front[i].key == members[n].key;
      assert members[i].key == members[n].key;
    } else {
      forall i, j | 0 <= i < j < |members| ensures members[i].key != members[j].key {
        assert front[i].key in fields;
        if j < n {
          assert front[i].key != front[j].key;
        }
      }
    }
  }

  lemma UnrepeatedAppend(members: seq<Member>, m: Member)
    ensures UnrepeatedMembers(members + [m]) <==> UnrepeatedMembers(members) && Unrepeated(m.value)
  {
    var all := members + [m];
    assert UnrepeatedMember(m) <==> Unrepeated(m.value);
    assert all[|members|] == m;
    forall x | x in members ensures x in all {
    }
  }

  lemma PrefixDistinct(members: seq<Member>, n: nat)
    requires n <= |members|
    ensures DistinctKeys(members) ==> DistinctKeys(members[..n])
  {
  }

  // ---- the visitor ----

  method Visit(v: Json) returns (r: Option<StrictValue>)
    ensures r == Strict(v)
    ensures r.Some? <==> Unrepeated(v)
    decreases v, 1
  {
    StrictIffUnrepeated(v);
    match v {
      case Null => r := Some(NullValue);
      case Bool(b) => r := Some(BoolValue(b));
      case Number(text) => r := Some(NumberValue(text));
      case String(s) => r := Some(StringValue(s));
      case Array(items) =>
        var values := VisitSeq(items);
        r := if values.None? then None else Some(ArrayValue(values.value));
      case Object(members) =>
        var fields := VisitMap(members);
        r := if fields.None? then None else Some(ObjectValue(fields.value));
    }
  }

  method VisitSeq(items: seq<Json>) returns (r: Option<seq<StrictValue>>)
    ensures r == StrictItems(items)
    decreases items, 0
  {
    var values := [];
    for i := 0 to |items|
      invariant StrictItems(items[..i]) == Some(values)
    {
      assert items[..i + 1][..i] == items[..i];
      var value := Visit(items[i]);
      if value.None? {
        ItemRefused(items, i);
        return None;
      }
      values := values + [value.value];
    }
    assert items[..|items|] == items;
    return Some(values);
  }

  /** A repeated key is refused before its value is read. */
  method VisitMap(members: seq<Member>) returns (r: Option<map<bytes, StrictValue>>)
    ensures r == StrictMembers(members)
    decreases members, 0
  {
    var fields: map<bytes, StrictValue> := map[];
    for i := 0 to |members|
      invariant StrictMembers(members[..i]) == Some(fields)
    {
      assert members[..i + 1][..i] == members[..i];
      if members[i].key in fields {
        MemberRefused(members, i + 1);
        return None;
      }
      var value := VisitMember(members[i]);
      if value.None? {
        MemberRefused(members, i + 1);
        return None;
      }
      fields := fields[members[i].key := value.value];
    }
    assert members[..|members|] == members;
    return Some(fields);
  }

  method VisitMember(m: Member) returns (r: Option<StrictValue>)
    ensures r == Strict(m.value)
    decreases m, 0
  {
    r := Visit(m.value);
  }

  lemma ItemRefused(items: seq<Json>, i: nat)
    requires i < |items| && Strict(items[i]).None?
    ensures StrictItems(items).None?
  {
    StrictItemsIff(items);
  }

  lemma {:induction false} MemberRefused(members: seq<Member>, i: nat)
    requires i <= |members| && StrictMembers(members[..i]).None?
    ensures StrictMembers(members).None?
    decreases |members| - i
  {
    if i < |members| {
      assert members[..i + 1][..i] == members[..i];
      MemberRefused(members, i + 1);
    } else {
      assert members[..i] == members;
    }
  }
}
