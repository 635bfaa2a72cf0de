/** How many bytes the text of a tree takes. */
module Sizes {
  import opened Bytes
  import opened Json

  /** Bytes that are written as they are. */
  predicate Plain(s: bytes) {
    forall i :: 0 <= i < |s| ==> 0x20 <= s[i] < 0x80 && s[i] != QUOTE && s[i] != BACKSLASH
  }

  lemma {:induction false} PlainCharsLength(s: bytes, rest: bytes)
    requires Plain(s)
    ensures |PrintChars(s, rest)| == |s| + |rest|
  {
    if s != [] {
      PlainCharsLength(s[1..], rest);
    }
  }

  lemma PlainStringLength(s: bytes, rest: bytes)
    requires Plain(s)
    ensures |PrintString(s, rest)| == |s| + 2 + |rest|
  {
    PlainCharsLength(s, [QUOTE] + rest);
  }

  /** An upper bound on the text of a tree whose strings and keys are plain. */
  function Size(v: Json): nat
    decreases v, 1
  {
    match v
    case Null => 4
    case Bool(_) => 5
    case Number(text) => |text|
    case String(s) => |s| + 2
    case Array(items) => 2 + ItemsSize(items)
    case Object(members) => 2 + MembersSize(members)
  }

  function ItemsSize(items: seq<Json>): nat
    decreases items, 0
  {
    if items == [] then 0 else Size(items[0]) + 1 + ItemsSize(items[1..])
  }

  function MembersSize(members: seq<Member>): nat
    decreases members, 0
  {
    if members == [] then 0 else MemberSize(members[0]) + 1 + MembersSize(members[1..])
  }

  function MemberSize(m: Member): nat
    decreases m, 0
  {
    |m.key| + 3 + Size(m.value)
  }

  predicate PlainTree(v: Json)
    decreases v, 1
  {
    match v
    case String(s) => Plain(s)
    case Array(items) => PlainItems(items)
    case Object(members) => PlainMembers(members)
    case _ => true
  }

  predicate PlainItems(items: seq<Json>)
    decreases items, 0
  {
    items == [] || (PlainTree(items[0]) && PlainItems(items[1..]))
  }

  predicate PlainMembers(members: seq<Member>)
    decreases members, 0
  {
    members == [] || (PlainMember(members[0]) && PlainMembers(members[1..]))
  }

  predicate PlainMember(m: Member)
    decreases m, 0
  {
    Plain(m.key) && PlainTree(m.value)
  }

  lemma {:induction false} PrintLength(v: Json, rest: bytes)
    requires PlainTree(v)
    ensures |Print(v, rest)| <= Size(v) + |rest|
    decreases v, 1
  {
    match v {
      case String(s) => PlainStringLength(s, rest);
      case Array(items) => PrintItemsLength(items, [RIGHT_BRACKET] + rest);
      case Object(members) => PrintMembersLength(members, [RIGHT_BRACE] + rest);
      case _ =>
    }
  }

  lemma {:induction false} PrintItemsLength(items: seq<Json>, rest: bytes)
    requires PlainItems(items)
    ensures |PrintItems(items, rest)| <= ItemsSize(items) + |rest|
    decreases items, 0
  {
    if |items| == 1 {
      PrintLength(items[0], rest);
    } else if items != [] {
      PrintItemsLength(items[1..], rest);
      PrintLength(items[0], [COMMA] + PrintItems(items[1..], rest));
    }
  }

  lemma {:induction false} PrintMembersLength(members: seq<Member>, rest: bytes)
    requires PlainMembers(members)
    ensures |PrintMembers(members, rest)| <= MembersSize(members) + |rest|
    decreases members, 0
  {
    if |members| == 1 {
      PrintMemberLength(members[0], rest);
    } else if members != [] {
      PrintMembersLength(members[1..], rest);
      PrintMemberLength(members[0], [COMMA] + PrintMembers(members[1..], rest));
    }
  }

  lemma {:induction false} PrintMemberLength(m: Member, rest: bytes)
    requires PlainMember(m)
    ensures |PrintMember(m, rest)| <= MemberSize(m) + |rest|
    decreases m, 0
  {
    PrintLength(m.value, rest);
    PlainStringLength(m.key, [COLON] + Print(m.value, rest));
  }

  /** A list of values of bounded size. */
  lemma {:induction false} ItemsSizeBound(items: seq<Json>, each: nat)
    requires forall i :: 0 <= i < |items| ==> Size(items[i]) <= each
    ensures ItemsSize(items) <= |items| * (each + 1)
  {
    if items != [] {
      ItemsSizeBound(items[1..], each);
      assert |items| * (each + 1) == (|items| - 1) * (each + 1) + each + 1;
    }
  }
}
