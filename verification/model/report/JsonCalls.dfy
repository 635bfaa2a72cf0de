/**
 What a sequence of JSON writer calls means.

 A call names an event of a document (a container opens, a key, a scalar...).
 A tree has exactly one event sequence. The partial document below is what the
 calls so far describe; the writer's own bytes and flags are tied to it in
 module JsonWriter.
 */
module JsonCalls {
  import opened Bytes
  import opened Json
  import opened Options
  import Sequences
  import Utf8

  type u64 = n: nat | n < 0x1_0000_0000_0000_0000
  type NumberText = t: bytes | IsNumber(t) witness [0x30]

  /** What std::to_chars makes of a double; a non-finite double has no text. */
  datatype Double = NonFinite | Finite(text: NumberText)

  datatype Call =
    | BeginObject
    | EndObject
    | BeginArray
    | EndArray
    | Key(key: bytes)
    | NullValue
    | Boolean(b: bool)
    | UnsignedInteger(n: u64)
    | DecimalNumber(d: Double)
    | Str(s: bytes)
    | Finish

  // ---- the events of a call and of a tree ----

  datatype Event =
    | OpenObject
    | CloseObject
    | OpenArray
    | CloseArray
    | KeyEvent(key: bytes)
    | Scalar(value: Json)
    | NotANumber
    | EndOfText

  function EventOf(c: Call): Event {
    match c
    case BeginObject => OpenObject
    case EndObject => CloseObject
    case BeginArray => OpenArray
    case EndArray => CloseArray
    case Key(k) => KeyEvent(k)
    case NullValue => Scalar(Null)
    case Boolean(b) => Scalar(Bool(b))
    case UnsignedInteger(n) => Scalar(Number(Decimal(n)))
    case DecimalNumber(NonFinite) => NotANumber
    case DecimalNumber(Finite(text)) => Scalar(Number(text))
    case Str(s) => Scalar(String(s))
    case Finish => EndOfText
  }

  function Events(calls: seq<Call>): (es: seq<Event>)
    ensures |es| == |calls|
  {
    if calls == [] then [] else Events(calls[..|calls| - 1]) + [EventOf(calls[|calls| - 1])]
  }

  function TreeEvents(v: Json): seq<Event>
    decreases v, 1
  {
    match v
    case Array(items) => [OpenArray] + ItemEvents(items) + [CloseArray]
    case Object(members) => [OpenObject] + MemberEvents(members) + [CloseObject]
    case _ => [Scalar(v)]
  }

  function ItemEvents(items: seq<Json>): seq<Event>
    decreases items, 0
  {
    if items == [] then [] else TreeEvents(items[0]) + ItemEvents(items[1..])
  }

  function MemberEvents(members: seq<Member>): seq<Event>
    decreases members, 0
  {
    if members == [] then []
    else [KeyEvent(members[0].key)] + TreeEvents(members[0].value) + MemberEvents(members[1..])
  }

  /** Every string and key is UTF-8 of at most n bytes, and every number follows the grammar. */
  predicate Admissible(v: Json, n: nat)
    decreases v, 1
  {
    match v
    case Null => true
    case Bool(_) => true
    case Number(text) => IsNumber(text)
    case String(s) => Utf8.Valid(s) && |s| <= n
    case Array(items) => AdmissibleItems(items, n)
    case Object(members) => AdmissibleMembers(members, n)
  }

  predicate AdmissibleItems(items: seq<Json>, n: nat)
    decreases items, 0
  {
    items == [] || (Admissible(items[0], n) && AdmissibleItems(items[1..], n))
  }

  predicate AdmissibleMembers(members: seq<Member>, n: nat)
    decreases members, 0
  {
    members == []
    || (AdmissibleMember(members[0], n) && AdmissibleMembers(members[1..], n))
  }

  predicate AdmissibleMember(m: Member, n: nat)
    decreases m, 0
  {
    Utf8.Valid(m.key) && |m.key| <= n && Admissible(m.value, n)
  }

  lemma {:induction false} AdmissibleIsWellFormed(v: Json, n: nat)
    requires Admissible(v, n)
    ensures WellFormed(v)
    decreases v, 1
  {
    match v {
      case Array(items) => AdmissibleItemsWellFormed(items, n);
      case Object(members) => AdmissibleMembersWellFormed(members, n);
      case _ =>
    }
  }

  lemma {:induction false} AdmissibleItemsWellFormed(items: seq<Json>, n: nat)
    requires AdmissibleItems(items, n)
    ensures WellFormedItems(items)
    decreases items, 0
  {
    if items != [] {
      AdmissibleIsWellFormed(items[0], n);
      AdmissibleItemsWellFormed(items[1..], n);
    }
  }

  lemma {:induction false} AdmissibleMembersWellFormed(members: seq<Member>, n: nat)
    requires AdmissibleMembers(members, n)
    ensures WellFormedMembers(members)
    decreases members, 0
  {
    if members != [] {
      AdmissibleIsWellFormed(members[0].value, n);
      AdmissibleMembersWellFormed(members[1..], n);
    }
  }

  // ---- the partial document ----

  /** An unfinished document: the innermost open container, in its parents, or the finished root. */
  datatype Partial =
    | Start
    | InArray(parent: Partial, items: seq<Json>)
    | InObject(parent: Partial, members: seq<Member>)
    | AfterKey(parent: Partial, members: seq<Member>, key: bytes)
    | Closed(root: Json)
    | Finished(root: Json)

  predicate AcceptsValue(p: Partial) {
    p.Start? || p.InArray? || p.AfterKey?
  }

  /** Every container is the value its parent waits for. */
  predicate Nested(p: Partial) {
    p.InArray? || p.InObject? || p.AfterKey? ==> AcceptsValue(p.parent) && Nested(p.parent)
  }

  function Add(p: Partial, v: Json): Partial
    requires AcceptsValue(p)
  {
    match p
    case Start => Closed(v)
    case InArray(q, items) => InArray(q, items + [v])
    case AfterKey(q, members, key) => InObject(q, members + [Member(key, v)])
  }

  /** The partial document after one more event, or None when the event does not fit. */
  function Apply(p: Partial, e: Event): Option<Partial>
    requires Nested(p)
  {
    match e
    case OpenObject => if AcceptsValue(p) then Some(InObject(p, [])) else None
    case OpenArray => if AcceptsValue(p) then Some(InArray(p, [])) else None
    case CloseObject => if p.InObject? then Some(Add(p.parent, Object(p.members))) else None
    case CloseArray => if p.InArray? then Some(Add(p.parent, Array(p.items))) else None
    case KeyEvent(k) => if p.InObject? then Some(AfterKey(p.parent, p.members, k)) else None
    case Scalar(v) => if AcceptsValue(p) then Some(Add(p, v)) else None
    case NotANumber => None
    case EndOfText => if p.Closed? then Some(Finished(p.root)) else None
  }

  lemma ApplyNested(p: Partial, e: Event)
    requires Nested(p) && Apply(p, e).Some?
    ensures Nested(Apply(p, e).value)
  {
  }

  // ---- the events of a partial document ----

  function PartialEvents(p: Partial): seq<Event> {
    match p
    case Start => []
    case InArray(q, items) => PartialEvents(q) + ([OpenArray] + ItemEvents(items))
    case InObject(q, members) => PartialEvents(q) + ([OpenObject] + MemberEvents(members))
    case AfterKey(q, members, key) => PartialEvents(q) + ([OpenObject] + MemberEvents(members)) + [KeyEvent(key)]
    case Closed(root) => TreeEvents(root)
    case Finished(root) => TreeEvents(root) + [EndOfText]
  }

  lemma {:induction false} ItemEventsAppend(items: seq<Json>, v: Json)
    ensures ItemEvents(items + [v]) == ItemEvents(items) + TreeEvents(v)
  {
    if items == [] {
      OneItemEvents(v);
      Sequences.Units(TreeEvents(v));
      Sequences.Units([v]);
    } else {
      ItemEventsAppend(items[1..], v);
      assert items + [v] == [items[0]] + (items[1..] + [v]);
      ItemEventsCons(items[0], items[1..] + [v]);
      Sequences.Assoc(TreeEvents(items[0]), ItemEvents(items[1..]), TreeEvents(v));
    }
  }

  lemma OneItemEvents(v: Json)
    ensures ItemEvents([v]) == TreeEvents(v)
  {
    assert [v][1..] == [];
  }

  lemma ItemEventsCons(v: Json, items: seq<Json>)
    ensures ItemEvents([v] + items) == TreeEvents(v) + ItemEvents(items)
  {
    assert ([v] + items)[1..] == items;
  }

  lemma MemberEventsCons(m: Member, members: seq<Member>)
    ensures MemberEvents([m] + members) == [KeyEvent(m.key)] + TreeEvents(m.value) + MemberEvents(members)
  {
    assert ([m] + members)[1..] == members;
  }

  lemma {:induction false} MemberEventsAppend(members: seq<Member>, m: Member)
    ensures MemberEvents(members + [m]) == MemberEvents(members) + [KeyEvent(m.key)] + TreeEvents(m.value)
  {
    if members == [] {
      MemberEventsCons(m, []);
      Sequences.Units([m]);
      Sequences.Units([KeyEvent(m.key)] + TreeEvents(m.value));
    } else {
      var head, last := [KeyEvent(members[0].key)] + TreeEvents(members[0].value), [KeyEvent(m.key)];
      MemberEventsAppend(members[1..], m);
      assert members + [m] == [members[0]] + (members[1..] + [m]);
      MemberEventsCons(members[0], members[1..] + [m]);
      Sequences.Assoc4(head, MemberEvents(members[1..]), last, TreeEvents(m.value));
    }
  }

  lemma AddEvents(p: Partial, v: Json)
    requires AcceptsValue(p)
    ensures PartialEvents(Add(p, v)) == PartialEvents(p) + TreeEvents(v)
  {
    match p {
      case Start =>
        Sequences.Units(TreeEvents(v));
      case InArray(q, items) =>
        ItemEventsAppend(items, v);
        Sequences.Assoc([OpenArray], ItemEvents(items), TreeEvents(v));
        Sequences.Assoc(PartialEvents(q), [OpenArray] + ItemEvents(items), TreeEvents(v));
      case AfterKey(q, members, key) =>
        MemberEventsAppend(members, Member(key, v));
        Sequences.Assoc4([OpenObject], MemberEvents(members), [KeyEvent(key)], TreeEvents(v));
        Sequences.Assoc4(PartialEvents(q), [OpenObject] + MemberEvents(members), [KeyEvent(key)], TreeEvents(v));
    }
  }

  /** One more event extends the events of the partial document by exactly that event. */
  lemma ApplyEvents(p: Partial, e: Event)
    requires Nested(p) && Apply(p, e).Some? && (e.Scalar? ==> !e.value.Array? && !e.value.Object?)
    ensures PartialEvents(Apply(p, e).value) == PartialEvents(p) + [e]
  {
    match e {
      case OpenObject =>
        Sequences.Units([OpenObject]);
      case OpenArray =>
        Sequences.Units([OpenArray]);
      case CloseObject =>
        AddEvents(p.parent, Object(p.members));
        Sequences.Assoc(PartialEvents(p.parent), [OpenObject] + MemberEvents(p.members), [CloseObject]);
      case CloseArray =>
        AddEvents(p.parent, Array(p.items));
        Sequences.Assoc(PartialEvents(p.parent), [OpenArray] + ItemEvents(p.items), [CloseArray]);
      case Scalar(v) => AddEvents(p, v);
      case _ =>
    }
  }

  // ---- what the writer lets into a partial document ----

  predicate AdmissiblePartial(p: Partial, n: nat) {
    match p
    case Start => true
    case InArray(q, items) => AdmissiblePartial(q, n) && AdmissibleItems(items, n)
    case InObject(q, members) => AdmissiblePartial(q, n) && AdmissibleMembers(members, n)
    case AfterKey(q, members, key) =>
      AdmissiblePartial(q, n) && AdmissibleMembers(members, n) && Utf8.Valid(key) && |key| <= n
    case Closed(root) => Admissible(root, n)
    case Finished(root) => Admissible(root, n)
  }

  predicate AdmissibleEvent(e: Event, n: nat) {
    match e
    case KeyEvent(k) => Utf8.Valid(k) && |k| <= n
    case Scalar(v) => Admissible(v, n)
    case NotANumber => false
    case _ => true
  }

  lemma {:induction false} AdmissibleItemsAppend(items: seq<Json>, v: Json, n: nat)
    requires AdmissibleItems(items, n) && Admissible(v, n)
    ensures AdmissibleItems(items + [v], n)
  {
    if items != [] {
      AdmissibleItemsAppend(items[1..], v, n);
      assert (items + [v])[1..] == items[1..] + [v];
    }
  }

  lemma {:induction false} AdmissibleMembersAppend(members: seq<Member>, m: Member, n: nat)
    requires AdmissibleMembers(members, n) && AdmissibleMember(m, n)
    ensures AdmissibleMembers(members + [m], n)
  {
    if members != [] {
      AdmissibleMembersAppend(members[1..], m, n);
      assert (members + [m])[1..] == members[1..] + [m];
    }
  }

  lemma AddAdmissible(p: Partial, v: Json, n: nat)
    requires AcceptsValue(p) && AdmissiblePartial(p, n) && Admissible(v, n)
    ensures AdmissiblePartial(Add(p, v), n)
  {
    match p {
      case Start =>
      case InArray(_, items) => AdmissibleItemsAppend(items, v, n);
      case AfterKey(_, members, key) => AdmissibleMembersAppend(members, Member(key, v), n);
    }
  }

  lemma ApplyAdmissible(p: Partial, e: Event, n: nat)
    requires Nested(p) && Apply(p, e).Some? && AdmissiblePartial(p, n) && AdmissibleEvent(e, n)
    ensures AdmissiblePartial(Apply(p, e).value, n)
  {
    match e {
      case CloseObject => AddAdmissible(p.parent, Object(p.members), n);
      case CloseArray => AddAdmissible(p.parent, Array(p.items), n);
      case Scalar(v) => AddAdmissible(p, v, n);
      case _ =>
    }
  }
}
