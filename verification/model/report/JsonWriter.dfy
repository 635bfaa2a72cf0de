/** The bounded JSON writer of the native probes. */
module JsonWriter {
  import opened Bytes
  import opened Folds
  import opened Json
  import opened JsonCalls
  import opened JsonRuns
  import opened JsonText
  import opened Options
  import Sequences
  import Utf8

  datatype Container = ObjectContainer | ArrayContainer
  datatype Frame = Frame(container: Container, first: bool, expectsKey: bool)

  /** The frames while the next value is written: its separator is out and its place is taken. */
  function LeadFrames(p: Partial): seq<Frame> {
    match p
    case InArray(q, _) => LeadFrames(q) + [Frame(ArrayContainer, false, false)]
    case AfterKey(q, _, _) => LeadFrames(q) + [Frame(ObjectContainer, false, true)]
    case _ => []
  }

  /** The frames between calls: expectsKey is off in arrays and while a key waits for its value. */
  function PartialFrames(p: Partial): seq<Frame> {
    match p
    case InArray(q, items) => LeadFrames(q) + [Frame(ArrayContainer, items == [], false)]
    case InObject(q, members) => LeadFrames(q) + [Frame(ObjectContainer, members == [], true)]
    case AfterKey(q, _, _) => LeadFrames(q) + [Frame(ObjectContainer, false, false)]
    case _ => []
  }

  lemma AddFrames(p: Partial, v: Json)
    requires AcceptsValue(p)
    ensures PartialFrames(Add(p, v)) == LeadFrames(p)
  {
  }

  /** The verdict on a value whose lead and token take these many bytes. */
  function SizeVerdict(limits: Limits, lead: nat, quote: Outcome, token: nat): Outcome {
    if lead > limits.output then Raised(LengthError)
    else if quote.Raised? then quote
    else if lead + token > limits.output then Raised(LengthError)
    else Pass
  }

  /** A call that starts a value: what it throws, and the document after it. */
  lemma ValueCall(limits: Limits, p: Document, c: Call, token: bytes)
    requires StartsAValue(EventOf(c)) && Token(EventOf(c)) == token
    ensures Verdict(limits, p, c)
         == if !AcceptsValue(p) then Raised(LogicError)
            else SizeVerdict(limits, |LeadText(p)|, QuoteVerdict(limits, QuotedText(c)), |token|)
    ensures AcceptsValue(p) ==> PartialText(Next(p, c)) == LeadText(p) + token
  {
    hide PartialText, LeadText, Separator, Print;
    if AcceptsValue(p) {
      SeparatorText(p, EventOf(c));
      ApplyText(p, EventOf(c));
    }
  }

  lemma PassedAdmissible(limits: Limits, p: Document, c: Call)
    requires AdmissiblePartial(p, limits.text)
    ensures Verdict(limits, p, c).Pass? ==> AdmissiblePartial(Next(p, c), limits.text)
  {
    if Verdict(limits, p, c).Pass? {
      StepSound(limits, p, c);
    }
  }

  /** What a scalar call with this token does to the text, the frames and the document. */
  ghost predicate ScalarEffect(limits: Limits, p: Document, c: Call, token: bytes) {
    && Verdict(limits, p, c)
       == (if !AcceptsValue(p) then Raised(LogicError)
           else SizeVerdict(limits, |LeadText(p)|, QuoteVerdict(limits, QuotedText(c)), |token|))
    && (AcceptsValue(p) ==>
          && Apply(p, EventOf(c)).Some?
          && PartialText(Next(p, c)) == LeadText(p) + token
          && PartialFrames(Next(p, c)) == LeadFrames(p)
          && !Next(p, c).Start? && !Next(p, c).Finished?
          && (Verdict(limits, p, c).Pass? ==> AdmissiblePartial(Next(p, c), limits.text)))
  }

  lemma ScalarCall(limits: Limits, p: Document, c: Call, v: Json, token: bytes)
    requires AdmissiblePartial(p, limits.text) && EventOf(c) == Scalar(v) && Text(v) == token
    ensures ScalarEffect(limits, p, c, token)
  {
    ValueCall(limits, p, c, token);
    PassedAdmissible(limits, p, c);
    if AcceptsValue(p) {
      AddFrames(p, v);
    }
  }

  lemma NullCall(limits: Limits, p: Document)
    requires AdmissiblePartial(p, limits.text)
    ensures ScalarEffect(limits, p, JsonCalls.NullValue, Ascii("null"))
  {
    Sequences.Units(Ascii("null"));
    ScalarCall(limits, p, JsonCalls.NullValue, Null, Ascii("null"));
  }

  lemma BooleanCall(limits: Limits, p: Document, value: bool)
    requires AdmissiblePartial(p, limits.text)
    ensures ScalarEffect(limits, p, JsonCalls.Boolean(value), if value then Ascii("true") else Ascii("false"))
  {
    var word := if value then Ascii("true") else Ascii("false");
    Sequences.Units(word);
    ScalarCall(limits, p, JsonCalls.Boolean(value), Bool(value), word);
  }

  lemma UnsignedCall(limits: Limits, p: Document, value: u64)
    requires AdmissiblePartial(p, limits.text)
    ensures ScalarEffect(limits, p, JsonCalls.UnsignedInteger(value), Decimal(value))
  {
    Sequences.Units(Decimal(value));
    ScalarCall(limits, p, JsonCalls.UnsignedInteger(value), Number(Decimal(value)), Decimal(value));
  }

  lemma DecimalCall(limits: Limits, p: Document, text: NumberText)
    requires AdmissiblePartial(p, limits.text)
    ensures ScalarEffect(limits, p, JsonCalls.DecimalNumber(Finite(text)), text)
  {
    hide IsNumber, Verdict, Next, PartialText, LeadText, PartialFrames, LeadFrames;
    Sequences.Units(text);
    ScalarCall(limits, p, JsonCalls.DecimalNumber(Finite(text)), Number(text), text);
  }

  lemma StringCall(limits: Limits, p: Document, value: bytes)
    requires AdmissiblePartial(p, limits.text)
    ensures ScalarEffect(limits, p, JsonCalls.Str(value), PrintString(value, []))
    ensures QuotedText(JsonCalls.Str(value)) == Some(value)
  {
    ScalarCall(limits, p, JsonCalls.Str(value), String(value), PrintString(value, []));
  }

  /** What the innermost frame tells about the document. */
  lemma InnermostFrame(p: Document)
    ensures PartialFrames(p) == [] <==> p.Start? || p.Closed? || p.Finished?
    ensures PartialFrames(p) != [] ==>
              var last := |PartialFrames(p)| - 1;
              var f := PartialFrames(p)[last];
              && (f.container.ArrayContainer? <==> p.InArray?) && (f.expectsKey <==> p.InObject?)
              && (p.InArray? ==> (f.first <==> p.items == [])) && (p.InObject? ==> (f.first <==> p.members == []))
              && PartialFrames(p)[..last] == LeadFrames(p.parent)
  {
  }

  /** A closing call: refused unless its container is innermost. */
  ghost predicate CloseEffect(limits: Limits, p: Document, c: Call, token: bytes) {
    var fits := if c.EndObject? then p.InObject? else p.InArray?;
    if !fits then Verdict(limits, p, c) == Raised(LogicError)
    else
      && Verdict(limits, p, c) == SizeVerdict(limits, |PartialText(p)|, Pass, |token|)
      && Apply(p, EventOf(c)).Some?
      && PartialText(Next(p, c)) == PartialText(p) + token
      && PartialFrames(Next(p, c)) == LeadFrames(p.parent)
      && !Next(p, c).Start? && !Next(p, c).Finished?
      && (Verdict(limits, p, c).Pass? ==> AdmissiblePartial(Next(p, c), limits.text))
  }

  lemma CloseCall(limits: Limits, p: Document, c: Call, token: bytes)
    requires AdmissiblePartial(p, limits.text)
    requires (c.EndObject? && token == [RIGHT_BRACE]) || (c.EndArray? && token == [RIGHT_BRACKET])
    ensures CloseEffect(limits, p, c, token)
  {
    PassedAdmissible(limits, p, c);
    if (c.EndObject? && p.InObject?) || (c.EndArray? && p.InArray?) {
      ApplyText(p, EventOf(c));
      AddFrames(p.parent, if c.EndObject? then Object(p.members) else Array(p.items));
    }
  }

  /** A key call: refused unless a key is due; else a comma, the quoted text and a colon. */
  ghost predicate KeyEffect(limits: Limits, p: Document, key: bytes) {
    var c := JsonCalls.Key(key);
    if !p.InObject? then Verdict(limits, p, c) == Raised(LogicError)
    else
      && Verdict(limits, p, c) == SizeVerdict(limits, |PartialText(p)| + |Comma(p.members)|,
                                              QuoteVerdict(limits, Some(key)), |PrintString(key, [])| + 1)
      && Apply(p, EventOf(c)).Some?
      && PartialText(Next(p, c)) == PartialText(p) + Comma(p.members) + PrintString(key, []) + [COLON]
      && PartialFrames(Next(p, c)) == LeadFrames(p.parent) + [Frame(ObjectContainer, false, false)]
      && !Next(p, c).Start? && !Next(p, c).Finished?
      && (Verdict(limits, p, c).Pass? ==> AdmissiblePartial(Next(p, c), limits.text))
  }

  lemma KeyCall(limits: Limits, p: Document, key: bytes)
    requires AdmissiblePartial(p, limits.text)
    ensures KeyEffect(limits, p, key)
  {
    PassedAdmissible(limits, p, JsonCalls.Key(key));
    if p.InObject? {
      ApplyText(p, KeyEvent(key));
      PrintStringConcat(key, [], [COLON]);
      Sequences.Units([COLON]);
      Sequences.Assoc(PartialText(p) + Comma(p.members), PrintString(key, []), [COLON]);
    }
  }

  /** A call that opens a container. */
  ghost predicate OpenEffect(limits: Limits, p: Document, c: Call, token: bytes, frame: Frame) {
    && Verdict(limits, p, c)
       == (if !AcceptsValue(p) then Raised(LogicError) else SizeVerdict(limits, |LeadText(p)|, Pass, |token|))
    && (AcceptsValue(p) ==>
          && Apply(p, EventOf(c)).Some?
          && PartialText(Next(p, c)) == LeadText(p) + token
          && PartialFrames(Next(p, c)) == LeadFrames(p) + [frame]
          && !Next(p, c).Start? && !Next(p, c).Finished?
          && (Verdict(limits, p, c).Pass? ==> AdmissiblePartial(Next(p, c), limits.text)))
  }

  lemma OpenObjectCall(limits: Limits, p: Document)
    requires AdmissiblePartial(p, limits.text)
    ensures OpenEffect(limits, p, JsonCalls.BeginObject, [LEFT_BRACE], Frame(ObjectContainer, true, true))
  {
    ValueCall(limits, p, JsonCalls.BeginObject, [LEFT_BRACE]);
    PassedAdmissible(limits, p, JsonCalls.BeginObject);
  }

  lemma OpenArrayCall(limits: Limits, p: Document)
    requires AdmissiblePartial(p, limits.text)
    ensures OpenEffect(limits, p, JsonCalls.BeginArray, [LEFT_BRACKET], Frame(ArrayContainer, true, false))
  {
    ValueCall(limits, p, JsonCalls.BeginArray, [LEFT_BRACKET]);
    PassedAdmissible(limits, p, JsonCalls.BeginArray);
  }

  lemma ReplacedLast(frames: seq<Frame>, f: Frame, g: Frame)
    requires frames != []
    ensures frames[|frames| - 1 := f][|frames| - 1 := g] == frames[..|frames| - 1] + [g]
  {
  }

  function Rest(plan: seq<Call>): seq<Call> {
    if plan == [] then [] else plan[1..]
  }

  /** A plan ends where its first call throws, or goes on with the rest of it. */
  lemma PlanStep(limits: Limits, p: Document, plan: seq<Call>, c: Call)
    ensures plan != [] && plan[0] == c ==>
              Rest(plan) == plan[1..]
              && Run(limits, p, plan)
              == match Verdict(limits, p, c)
                 case Raised(e) => Threw(e)
                 case Pass => Run(limits, Next(p, c), plan[1..])
  {
  }

  class Writer {
    const limits: Limits
    var output: bytes
    var frames: seq<Frame>
    var rootWritten: bool
    var finished: bool
    ghost var doc: Document    // what the calls so far describe
    ghost var plan: seq<Call>  // the calls still to come, when the caller knows them

    ghost predicate Valid()
      reads this
    {
      && output == PartialText(doc)
      && frames == PartialFrames(doc)
      && rootWritten == !doc.Start?
      && finished == doc.Finished?
      && |output| <= limits.output
      && AdmissiblePartial(doc, limits.text)
    }

    /** The calls still to come have this outcome. */
    ghost predicate Planned(outcome: Result<Document, Error>)
      reads this
    {
      Valid() && Run(limits, doc, plan) == outcome
    }

    /**
     A call throws exactly what Verdict says, and a call that passes extends
     the document by its event. A call that is the next one of the plan moves
     the plan on, or throws what the plan throws.
     */
    twostate predicate Performed(c: Call, r: Outcome)
      reads this
    {
      && r == Verdict(limits, old(doc), c)
      && (r.Pass? ==> Valid() && doc == Next(old(doc), c))
      && (old(plan) != [] && old(plan)[0] == c ==>
            match r
            case Pass => plan == old(plan)[1..] && Run(limits, doc, plan) == Run(limits, old(doc), old(plan))
            case Raised(e) => Run(limits, old(doc), old(plan)) == Threw(e))
    }

    constructor (limits: Limits, ghost plan: seq<Call> := [])
      ensures this.limits == limits && Valid() && doc == Start && this.plan == plan && output == []
    {
      this.limits := limits;
      this.plan := plan;
      output, frames, rootWritten, finished := [], [], false, false;
      doc := Start;
    }

    method Append(value: bytes) returns (r: Outcome)
      requires |output| <= limits.output
      modifies this`output
      ensures r == if |old(output)| + |value| > limits.output then Raised(LengthError) else Pass
      ensures output == if r.Pass? then old(output) + value else old(output)
    {
      if |value| > limits.output - |output| {
        return Raised(LengthError);
      }
      output := output + value;
      return Pass;
    }

    /** Checks that a value may come here, and writes the comma in front of it. */
    method BeforeValue() returns (r: Outcome)
      requires Valid()
      modifies this`output, this`frames, this`rootWritten
      ensures r == if !AcceptsValue(doc) then Raised(LogicError)
                   else if |LeadText(doc)| > limits.output then Raised(LengthError) else Pass
      ensures r.Pass? ==> output == LeadText(doc) && frames == LeadFrames(doc) && rootWritten
      ensures |output| <= limits.output
    {
      if finished {
        return Raised(LogicError);
      }
      if frames == [] {
        if rootWritten {
          return Raised(LogicError);
        }
        rootWritten := true;
        return Pass;
      }
      var last := |frames| - 1;
      if AcceptsValue(doc) {
        SeparatorText(doc, OpenArray);
      }
      if frames[last].container == ObjectContainer {
        if frames[last].expectsKey {
          return Raised(LogicError);
        }
        frames := frames[last := frames[last].(expectsKey := true)];
        return Pass;
      }
      if !frames[last].first {
        var appended := Append([COMMA]);
        if appended.Raised? {
          return appended;
        }
      }
      frames := frames[last := frames[last].(first := false)];
      return Pass;
    }

    /** Quotes and escapes a text that is within its bound and UTF-8. */
    method AppendQuoted(value: bytes) returns (r: Outcome)
      requires |output| <= limits.output
      modifies this`output
      ensures r == if |value| > limits.text then Raised(LengthError)
                   else if !Utf8.Valid(value) then Raised(InvalidArgument)
                   else if |old(output)| + |PrintString(value, [])| > limits.output then Raised(LengthError) else Pass
      ensures r.Pass? ==> output == old(output) + PrintString(value, [])
      ensures |output| <= limits.output
    {
      if |value| > limits.text {
        return Raised(LengthError);
      }
      Utf8.ValidIffUtf8(value);
      var valid := Utf8.IsValidUtf8(value);
      if !valid {
        return Raised(InvalidArgument);
      }
      ghost var target := output + PrintString(value, []);
      Sequences.Units([QUOTE]);
      Sequences.Assoc(output, [QUOTE], PrintChars(value, [QUOTE]));
      var appended := Append([QUOTE]);
      if appended.Raised? {
        return appended;
      }
      assert value[0..] == value;
      for i := 0 to |value|
        invariant output + PrintChars(value[i..], [QUOTE]) == target
        invariant |output| <= limits.output
      {
        Sequences.Assoc(output, EscapeByte(value[i]), PrintChars(value[i + 1..], [QUOTE]));
        assert value[i..][1..] == value[i + 1..];
        appended := Append(EscapeByte(value[i]));
        if appended.Raised? {
          return appended;
        }
      }
      assert value[|value|..] == [];
      appended := Append([QUOTE]);
      return appended;
    }

    method BeginObject() returns (r: Outcome)
      requires Valid()
      modifies this
      ensures Performed(JsonCalls.BeginObject, r)
    {
      hide Verdict, Next, Apply, EventOf, PartialText, LeadText, PartialFrames, LeadFrames;
      hide AdmissiblePartial, Nested, PrintString, Print, Ascii, Decimal, Run;
      PlanStep(limits, doc, plan, JsonCalls.BeginObject);
      OpenObjectCall(limits, doc);
      r := BeforeValue();
      if r.Pass? {
        r := Append([LEFT_BRACE]);
      }
      if r.Pass? {
        frames := frames + [Frame(ObjectContainer, true, true)];
        doc, plan := Next(doc, JsonCalls.BeginObject), Rest(plan);
      }
    }

    method BeginArray() returns (r: Outcome)
      requires Valid()
      modifies this
      ensures Performed(JsonCalls.BeginArray, r)
    {
      hide Verdict, Next, Apply, EventOf, PartialText, LeadText, PartialFrames, LeadFrames;
      hide AdmissiblePartial, Nested, PrintString, Print, Ascii, Decimal, Run;
      PlanStep(limits, doc, plan, JsonCalls.BeginArray);
      OpenArrayCall(limits, doc);
      r := BeforeValue();
      if r.Pass? {
        r := Append([LEFT_BRACKET]);
      }
      if r.Pass? {
        frames := frames + [Frame(ArrayContainer, true, false)];
        doc, plan := Next(doc, JsonCalls.BeginArray), Rest(plan);
      }
    }

    method EndObject() returns (r: Outcome)
      requires Valid()
      modifies this
      ensures Performed(JsonCalls.EndObject, r)
    {
      hide Verdict, Next, Apply, EventOf, PartialText, LeadText, PartialFrames, LeadFrames;
      hide AdmissiblePartial, Nested, PrintString, Print, Ascii, Decimal, Run;
      PlanStep(limits, doc, plan, JsonCalls.EndObject);
      CloseCall(limits, doc, JsonCalls.EndObject, [RIGHT_BRACE]);
      InnermostFrame(doc);
      var last := |frames| - 1;
      if finished || frames == [] || frames[last].container != ObjectContainer || !frames[last].expectsKey {
        return Raised(LogicError);
      }
      frames := frames[..last];
      r := Append([RIGHT_BRACE]);
      if r.Pass? {
        doc, plan := Next(doc, JsonCalls.EndObject), Rest(plan);
      }
    }

    method EndArray() returns (r: Outcome)
      requires Valid()
      modifies this
      ensures Performed(JsonCalls.EndArray, r)
    {
      hide Verdict, Next, Apply, EventOf, PartialText, LeadText, PartialFrames, LeadFrames;
      hide AdmissiblePartial, Nested, PrintString, Print, Ascii, Decimal, Run;
      PlanStep(limits, doc, plan, JsonCalls.EndArray);
      CloseCall(limits, doc, JsonCalls.EndArray, [RIGHT_BRACKET]);
      InnermostFrame(doc);
      var last := |frames| - 1;
      if finished || frames == [] || frames[last].container != ArrayContainer {
        return Raised(LogicError);
      }
      frames := frames[..last];
      r := Append([RIGHT_BRACKET]);
      if r.Pass? {
        doc, plan := Next(doc, JsonCalls.EndArray), Rest(plan);
      }
    }

    method Key(value: bytes) returns (r: Outcome)
      requires Valid()
      modifies this
      ensures Performed(JsonCalls.Key(value), r)
    {
      hide Verdict, Next, Apply, EventOf, PartialText, LeadText, PartialFrames, LeadFrames;
      hide AdmissiblePartial, Nested, PrintString, Print, Ascii, Decimal, Run;
      hide Utf8.Valid;
      PlanStep(limits, doc, plan, JsonCalls.Key(value));
      KeyCall(limits, doc, value);
      InnermostFrame(doc);
      var last := |frames| - 1;
      if finished || frames == [] || frames[last].container != ObjectContainer || !frames[last].expectsKey {
        return Raised(LogicError);
      }
      r := Pass;
      if !frames[last].first {
        r := Append([COMMA]);
      }
      if r.Pass? {
        ReplacedLast(frames, frames[last].(first := false), Frame(ObjectContainer, false, false));
        frames := frames[last := frames[last].(first := false)];
        r := AppendQuoted(value);
      }
      if r.Pass? {
        r := Append([COLON]);
      }
      if r.Pass? {
        frames := frames[last := frames[last].(expectsKey := false)];
        doc, plan := Next(doc, JsonCalls.Key(value)), Rest(plan);
      }
    }

    method NullValue() returns (r: Outcome)
      requires Valid()
      modifies this
      ensures Performed(JsonCalls.NullValue, r)
    {
      hide Verdict, Next, Apply, EventOf, PartialText, LeadText, PartialFrames, LeadFrames;
      hide AdmissiblePartial, Nested, PrintString, Print, Ascii, Decimal, Run;
      PlanStep(limits, doc, plan, JsonCalls.NullValue);
      NullCall(limits, doc);
      r := BeforeValue();
      if r.Pass? {
        r := Append(Ascii("null"));
      }
      if r.Pass? {
        doc, plan := Next(doc, JsonCalls.NullValue), Rest(plan);
      }
    }

    method Boolean(value: bool) returns (r: Outcome)
      requires Valid()
      modifies this
      ensures Performed(JsonCalls.Boolean(value), r)
    {
      hide Verdict, Next, Apply, EventOf, PartialText, LeadText, PartialFrames, LeadFrames;
      hide AdmissiblePartial, Nested, PrintString, Print, Ascii, Decimal, Run;
      PlanStep(limits, doc, plan, JsonCalls.Boolean(value));
      BooleanCall(limits, doc, value);
      r := BeforeValue();
      if r.Pass? {
        r := Append(if value then Ascii("true") else Ascii("false"));
      }
      if r.Pass? {
        doc, plan := Next(doc, JsonCalls.Boolean(value)), Rest(plan);
      }
    }

    method UnsignedInteger(value: u64) returns (r: Outcome)
      requires Valid()
      modifies this
      ensures Performed(JsonCalls.UnsignedInteger(value), r)
    {
      hide Verdict, Next, Apply, EventOf, PartialText, LeadText, PartialFrames, LeadFrames;
      hide AdmissiblePartial, Nested, PrintString, Print, Ascii, Decimal, Run;
      PlanStep(limits, doc, plan, JsonCalls.UnsignedInteger(value));
      UnsignedCall(limits, doc, value);
      r := BeforeValue();
      if r.Pass? {
        r := Append(Decimal(value));
      }
      if r.Pass? {
        doc, plan := Next(doc, JsonCalls.UnsignedInteger(value)), Rest(plan);
      }
    }

    method DecimalNumber(value: Double) returns (r: Outcome)
      requires Valid()
      modifies this
      ensures Performed(JsonCalls.DecimalNumber(value), r)
    {
      hide IsNumber, PartialText, AdmissiblePartial, Nested;
      PlanStep(limits, doc, plan, JsonCalls.DecimalNumber(value));
      if value.NonFinite? {
        return Raised(InvalidArgument);
      }
      hide Verdict, Next, Apply, EventOf, LeadText, PartialFrames, LeadFrames;
      hide PrintString, Print, Ascii, Decimal, Run;
      DecimalCall(limits, doc, value.text);
      r := BeforeValue();
      if r.Pass? {
        r := Append(value.text);
      }
      if r.Pass? {
        doc, plan := Next(doc, JsonCalls.DecimalNumber(value)), Rest(plan);
      }
    }

    method Str(value: bytes) returns (r: Outcome)
      requires Valid()
      modifies this
      ensures Performed(JsonCalls.Str(value), r)
    {
      hide Verdict, Next, Apply, EventOf, PartialText, LeadText, PartialFrames, LeadFrames;
      hide AdmissiblePartial, Nested, PrintString, Print, Ascii, Decimal, Run;
      PlanStep(limits, doc, plan, JsonCalls.Str(value));
      StringCall(limits, doc, value);
      r := BeforeValue();
      if r.Pass? {
        r := AppendQuoted(value);
      }
      if r.Pass? {
        doc, plan := Next(doc, JsonCalls.Str(value)), Rest(plan);
      }
    }

    /** The finished text: it parses to the tree whose events are the calls so far. */
    method Finish() returns (r: Result<bytes, Error>)
      requires Valid()
      modifies this
      ensures r.Ok? <==> old(doc).Closed?
      ensures r.Threw? ==> r.error == LogicError
      ensures r.Ok? ==> Valid() && doc == Finished(old(doc).root) && r.value == Text(doc.root) == output
      ensures r.Ok? ==> Parse(r.value) == Parsed(doc.root) && PartialEvents(old(doc)) == TreeEvents(doc.root)
    {
      if finished || !rootWritten || frames != [] {
        return Threw(LogicError);
      }
      AdmissibleIsWellFormed(doc.root, limits.text);
      ParseUndoesText(doc.root, []);
      finished := true;
      doc := Finished(doc.root);
      return Ok(output);
    }
  }
}
