/** The calls that write a given tree. */
module JsonPlans {
  import opened Bytes
  import opened Folds
  import opened Json
  import opened JsonCalls
  import opened JsonRuns
  import opened Options
  import opened Reports
  import Sequences
  import Utf8

  predicate IsInteger(text: bytes) {
    AllDigits(text) && DecimalValue(text) < 0x1_0000_0000_0000_0000 && Decimal(DecimalValue(text)) == text
  }

  /** The call that writes a value that is no container; no call writes a number that is none. */
  function CallFor(v: Json): Call {
    match v
    case Bool(b) => Boolean(b)
    case Number(text) =>
      if !IsNumber(text) then DecimalNumber(NonFinite)
      else if IsInteger(text) then UnsignedInteger(DecimalValue(text))
      else DecimalNumber(Finite(text))
    case String(s) => Str(s)
    case _ => NullValue
  }

  /** The calls that write v, followed by rest. */
  function TreeCalls(v: Json, rest: seq<Call>): seq<Call>
    decreases v, 1
  {
    match v
    case Array(items) => [BeginArray] + ItemCalls(items, [EndArray] + rest)
    case Object(members) => [BeginObject] + MemberCalls(members, [EndObject] + rest)
    case _ => [CallFor(v)] + rest
  }

  function ItemCalls(items: seq<Json>, rest: seq<Call>): seq<Call>
    decreases items, 0
  {
    if items == [] then rest else TreeCalls(items[0], ItemCalls(items[1..], rest))
  }

  function MemberCalls(members: seq<Member>, rest: seq<Call>): seq<Call>
    decreases members, 0
  {
    if members == [] then rest
    else [Key(members[0].key)] + TreeCalls(members[0].value, MemberCalls(members[1..], rest))
  }

  lemma CallForEvent(v: Json)
    requires !v.Array? && !v.Object? && (v.Number? ==> IsNumber(v.text))
    ensures EventOf(CallFor(v)) == Scalar(v)
  {
    hide IsNumber, Decimal, DecimalValue, AllDigits;
  }

  lemma {:induction false} TreeCallsEvents(v: Json, rest: seq<Call>)
    requires WellFormed(v)
    ensures Events(TreeCalls(v, rest)) == TreeEvents(v) + Events(rest)
    decreases v, 1
  {
    match v {
      case Array(items) =>
        ItemCallsEvents(items, [EndArray] + rest);
        EventsCons(EndArray, rest);
        EventsCons(BeginArray, ItemCalls(items, [EndArray] + rest));
        Sequences.Assoc(ItemEvents(items), [CloseArray], Events(rest));
        Sequences.Assoc4([OpenArray], ItemEvents(items), [CloseArray], Events(rest));
      case Object(members) =>
        MemberCallsEvents(members, [EndObject] + rest);
        EventsCons(EndObject, rest);
        EventsCons(BeginObject, MemberCalls(members, [EndObject] + rest));
        Sequences.Assoc(MemberEvents(members), [CloseObject], Events(rest));
        Sequences.Assoc4([OpenObject], MemberEvents(members), [CloseObject], Events(rest));
      case _ =>
        CallForEvent(v);
        EventsCons(CallFor(v), rest);
    }
  }

  lemma {:induction false} ItemCallsEvents(items: seq<Json>, rest: seq<Call>)
    requires WellFormedItems(items)
    ensures Events(ItemCalls(items, rest)) == ItemEvents(items) + Events(rest)
    decreases items, 0
  {
    if items == [] {
      Sequences.Units(Events(rest));
    } else {
      ItemCallsEvents(items[1..], rest);
      TreeCallsEvents(items[0], ItemCalls(items[1..], rest));
      Sequences.Assoc(TreeEvents(items[0]), ItemEvents(items[1..]), Events(rest));
    }
  }

  lemma {:induction false} MemberCallsEvents(members: seq<Member>, rest: seq<Call>)
    requires WellFormedMembers(members)
    ensures Events(MemberCalls(members, rest)) == MemberEvents(members) + Events(rest)
    decreases members, 0
  {
    if members == [] {
      Sequences.Units(Events(rest));
    } else {
      hide EventOf, Utf8.Valid, CallFor;
      var m := members[0];
      var more := TreeCalls(m.value, MemberCalls(members[1..], rest));
      MemberCallsEvents(members[1..], rest);
      TreeCallsEvents(m.value, MemberCalls(members[1..], rest));
      EventsCons(Key(m.key), more);
      Sequences.Regroup([KeyEvent(m.key)], TreeEvents(m.value), MemberEvents(members[1..]), Events(rest));
    }
  }

  /** The calls for an admissible tree whose text fits run through, from an empty writer to the finished tree. */
  lemma PlanRuns(limits: Limits, v: Json)
    requires Admissible(v, limits.text) && |Text(v)| <= limits.output
    ensures WellFormed(v) && Run(limits, Start, TreeCalls(v, [Finish])) == Ok(Finished(v))
  {
    AdmissibleIsWellFormed(v, limits.text);
    TreeCallsEvents(v, [Finish]);
    assert Events([Finish]) == [EndOfText] by {
      assert [Finish][..0] == [];
    }
    RunIffDescribes(limits, TreeCalls(v, [Finish]), v);
  }

  // ---- the calls that write a record ----

  /** The calls for the fields of a record, followed by rest. */
  function FieldCalls(names: seq<string>, values: seq<Json>, rest: seq<Call>): seq<Call>
    requires |names| == |values|
  {
    MemberCalls(Fields(names, values), rest)
  }

  lemma RecordCalls(names: seq<string>, values: seq<Json>, rest: seq<Call>)
    requires |names| == |values|
    ensures TreeCalls(Record(names, values), rest)
         == [BeginObject] + FieldCalls(names[0..], values[0..], [EndObject] + rest)
  {
    assert names[0..] == names && values[0..] == values;
  }

  /** The calls from field i on: its key, its value, and the fields after it. */
  lemma FieldStep(names: seq<string>, values: seq<Json>, i: nat, rest: seq<Call>)
    requires |names| == |values| && i < |names|
    ensures FieldCalls(names[i..], values[i..], rest)
         == [Key(Ascii(names[i]))] + TreeCalls(values[i], FieldCalls(names[i + 1..], values[i + 1..], rest))
  {
    assert names[i..][1..] == names[i + 1..] && values[i..][1..] == values[i + 1..];
    assert Fields(names[i..], values[i..])[1..] == Fields(names[i + 1..], values[i + 1..]);
  }

  lemma FieldsDone(names: seq<string>, values: seq<Json>, rest: seq<Call>)
    requires |names| == |values|
    ensures FieldCalls(names[|names|..], values[|names|..], rest) == rest
  {
  }

  /** A field that holds no container takes two calls. */
  lemma ScalarField(names: seq<string>, values: seq<Json>, i: nat, rest: seq<Call>, c: Call)
    requires |names| == |values| && i < |names|
    requires !values[i].Array? && !values[i].Object? && CallFor(values[i]) == c
    ensures FieldCalls(names[i..], values[i..], rest)
         == [Key(Ascii(names[i]))] + ([c] + FieldCalls(names[i + 1..], values[i + 1..], rest))
  {
    hide CallFor, FieldCalls, Ascii;
    FieldStep(names, values, i, rest);
  }

  /** The calls from item i on: its tree, and the items after it. */
  lemma ItemStep(items: seq<Json>, i: nat, rest: seq<Call>)
    requires i < |items|
    ensures ItemCalls(items[i..], rest) == TreeCalls(items[i], ItemCalls(items[i + 1..], rest))
  {
    assert items[i..][1..] == items[i + 1..];
  }

  lemma NoItemCalls(items: seq<Json>, rest: seq<Call>)
    ensures ItemCalls(items[|items|..], rest) == rest
  {
  }

  lemma IntegerCall(n: u64)
    ensures CallFor(Number(Decimal(n))) == UnsignedInteger(n)
  {
    DecimalIsNumber(n);
    DecimalRoundTrip(n);
  }
}
