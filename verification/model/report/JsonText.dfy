/** The unfinished text of a partial document, and how each event extends it. */
module JsonText {
  import opened Bytes
  import opened Json
  import opened JsonCalls
  import opened Options
  import Sequences

  function Comma<T>(s: seq<T>): bytes {
    if s == [] then [] else [COMMA]
  }

  /** The text up to the place where the next value goes. */
  function LeadText(p: Partial): bytes {
    match p
    case InArray(q, items) => LeadText(q) + ([LEFT_BRACKET] + PrintItems(items, Comma(items)))
    case AfterKey(q, members, key) =>
      LeadText(q) + ([LEFT_BRACE] + PrintMembers(members, Comma(members) + PrintKey(key, [])))
    case _ => []
  }

  function PartialText(p: Partial): bytes {
    match p
    case Start => []
    case InArray(q, items) => LeadText(q) + ([LEFT_BRACKET] + PrintItems(items, []))
    case InObject(q, members) => LeadText(q) + ([LEFT_BRACE] + PrintMembers(members, []))
    case AfterKey(_, _, _) => LeadText(p)
    case Closed(root) => Text(root)
    case Finished(root) => Text(root)
  }

  /** The comma an event needs in front of it: before a later array item or a later key. */
  function Separator(p: Partial, e: Event): bytes {
    if e.KeyEvent? && p.InObject? then Comma(p.members)
    else if StartsAValue(e) && p.InArray? then Comma(p.items)
    else []
  }

  predicate StartsAValue(e: Event) {
    e.OpenObject? || e.OpenArray? || e.Scalar?
  }

  function Token(e: Event): bytes {
    match e
    case OpenObject => [LEFT_BRACE]
    case CloseObject => [RIGHT_BRACE]
    case OpenArray => [LEFT_BRACKET]
    case CloseArray => [RIGHT_BRACKET]
    case KeyEvent(k) => PrintKey(k, [])
    case Scalar(v) => Text(v)
    case NotANumber => []
    case EndOfText => []
  }

  lemma {:induction false} PrintItemsAppend(items: seq<Json>, v: Json, rest: bytes)
    ensures PrintItems(items + [v], rest) == PrintItems(items, Comma(items) + Print(v, rest))
  {
    if items == [] {
      Sequences.Units([v]);
      Sequences.Units(Print(v, rest));
    } else {
      PrintItemsAppend(items[1..], v, rest);
      assert (items + [v])[1..] == items[1..] + [v];
      if |items| == 1 {
        Sequences.Units(Print(v, rest));
      }
    }
  }

  lemma {:induction false} PrintMembersAppend(members: seq<Member>, m: Member, rest: bytes)
    ensures PrintMembers(members + [m], rest) == PrintMembers(members, Comma(members) + PrintMember(m, rest))
  {
    if members == [] {
      Sequences.Units([m]);
      Sequences.Units(PrintMember(m, rest));
    } else {
      PrintMembersAppend(members[1..], m, rest);
      assert (members + [m])[1..] == members[1..] + [m];
      if |members| == 1 {
        Sequences.Units(PrintMember(m, rest));
      }
    }
  }

  /** Writing the separator of a value brings the text to the place of that value. */
  lemma SeparatorText(p: Partial, e: Event)
    requires AcceptsValue(p) && StartsAValue(e)
    ensures PartialText(p) + Separator(p, e) == LeadText(p)
  {
    if p.InArray? {
      PrintItemsConcat(p.items, [], Comma(p.items));
      Sequences.Units(Comma(p.items));
      Sequences.Assoc([LEFT_BRACKET], PrintItems(p.items, []), Comma(p.items));
      Sequences.Assoc(LeadText(p.parent), [LEFT_BRACKET] + PrintItems(p.items, []), Comma(p.items));
    } else {
      Sequences.Units(LeadText(p));
    }
  }

  lemma ArrayGrows(lead: bytes, items: seq<Json>, v: Json)
    ensures lead + ([LEFT_BRACKET] + PrintItems(items + [v], []))
         == lead + ([LEFT_BRACKET] + PrintItems(items, Comma(items))) + Text(v)
  {
    PrintItemsAppend(items, v, []);
    PrintItemsConcat(items, Comma(items), Text(v));
    Sequences.Assoc([LEFT_BRACKET], PrintItems(items, Comma(items)), Text(v));
    Sequences.Assoc(lead, [LEFT_BRACKET] + PrintItems(items, Comma(items)), Text(v));
  }

  lemma ObjectGrows(lead: bytes, members: seq<Member>, key: bytes, v: Json)
    ensures lead + ([LEFT_BRACE] + PrintMembers(members + [Member(key, v)], []))
         == lead + ([LEFT_BRACE] + PrintMembers(members, Comma(members) + PrintKey(key, []))) + Text(v)
  {
    var more := Comma(members) + PrintKey(key, []);
    PrintMembersAppend(members, Member(key, v), []);
    PrintKeyConcat(key, [], Text(v));
    Sequences.Units(Text(v));
    Sequences.Assoc(Comma(members), PrintKey(key, []), Text(v));
    PrintMembersConcat(members, more, Text(v));
    Sequences.Assoc([LEFT_BRACE], PrintMembers(members, more), Text(v));
    Sequences.Assoc(lead, [LEFT_BRACE] + PrintMembers(members, more), Text(v));
  }

  lemma KeyGrows(lead: bytes, members: seq<Member>, key: bytes)
    ensures lead + ([LEFT_BRACE] + PrintMembers(members, Comma(members) + PrintKey(key, [])))
         == lead + ([LEFT_BRACE] + PrintMembers(members, [])) + Comma(members) + PrintKey(key, [])
  {
    var more := Comma(members) + PrintKey(key, []);
    PrintMembersConcat(members, [], more);
    Sequences.Units(more);
    Sequences.Assoc([LEFT_BRACE], PrintMembers(members, []), more);
    Sequences.Assoc(lead, [LEFT_BRACE] + PrintMembers(members, []), more);
    Sequences.Assoc(lead + ([LEFT_BRACE] + PrintMembers(members, [])), Comma(members), PrintKey(key, []));
  }

  lemma AddText(p: Partial, v: Json)
    requires AcceptsValue(p)
    ensures PartialText(Add(p, v)) == LeadText(p) + Text(v)
  {
    match p {
      case Start => Sequences.Units(Text(v));
      case InArray(q, items) => ArrayGrows(LeadText(q), items, v);
      case AfterKey(q, members, key) => ObjectGrows(LeadText(q), members, key, v);
    }
  }

  lemma CloseArrayText(lead: bytes, items: seq<Json>)
    ensures lead + ([LEFT_BRACKET] + PrintItems(items, [])) + [RIGHT_BRACKET] == lead + Text(Array(items))
  {
    PrintItemsConcat(items, [], [RIGHT_BRACKET]);
    Sequences.Units([RIGHT_BRACKET]);
    Sequences.Assoc([LEFT_BRACKET], PrintItems(items, []), [RIGHT_BRACKET]);
    Sequences.Assoc(lead, [LEFT_BRACKET] + PrintItems(items, []), [RIGHT_BRACKET]);
  }

  lemma CloseObjectText(lead: bytes, members: seq<Member>)
    ensures lead + ([LEFT_BRACE] + PrintMembers(members, [])) + [RIGHT_BRACE] == lead + Text(Object(members))
  {
    PrintMembersConcat(members, [], [RIGHT_BRACE]);
    Sequences.Units([RIGHT_BRACE]);
    Sequences.Assoc([LEFT_BRACE], PrintMembers(members, []), [RIGHT_BRACE]);
    Sequences.Assoc(lead, [LEFT_BRACE] + PrintMembers(members, []), [RIGHT_BRACE]);
  }

  /** Each event extends the text by its separator and its token, and by nothing else. */
  lemma ApplyText(p: Partial, e: Event)
    requires Nested(p) && Apply(p, e).Some?
    ensures PartialText(Apply(p, e).value) == PartialText(p) + Separator(p, e) + Token(e)
  {
    match e {
      case OpenObject =>
        SeparatorText(p, e);
        Sequences.Units([LEFT_BRACE]);
      case OpenArray =>
        SeparatorText(p, e);
        Sequences.Units([LEFT_BRACKET]);
      case CloseObject =>
        AddText(p.parent, Object(p.members));
        CloseObjectText(LeadText(p.parent), p.members);
        Sequences.Units(PartialText(p));
      case CloseArray =>
        AddText(p.parent, Array(p.items));
        CloseArrayText(LeadText(p.parent), p.items);
        Sequences.Units(PartialText(p));
      case KeyEvent(k) =>
        KeyGrows(LeadText(p.parent), p.members, k);
      case Scalar(v) =>
        SeparatorText(p, e);
        AddText(p, v);
      case EndOfText =>
        Sequences.Units(PartialText(p));
    }
  }
}
