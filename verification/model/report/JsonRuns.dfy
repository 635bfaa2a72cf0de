/** Whole runs of JSON writer calls: which pass, and what a finished run has written. */
module JsonRuns {
  import opened Bytes
  import opened Folds
  import opened Json
  import opened JsonCalls
  import opened JsonText
  import opened Options
  import Sequences
  import Utf8

  /** The exceptions of the writer: std::logic_error, std::length_error and std::invalid_argument. */
  datatype Error = LogicError | LengthError | InvalidArgument

  datatype Outcome = Pass | Raised(error: Error) {
    predicate IsFailure() { Raised? }
    function PropagateFailure<U>(): Result<U, Error>
      requires Raised?
    {
      Threw(error)
    }
  }

  datatype Limits = Limits(output: nat, text: nat)

  type Document = p: Partial | Nested(p) witness Start

  // ---- which calls throw, and what ----

  /** The text argument of a call that quotes one. */
  function QuotedText(c: Call): Option<bytes> {
    match c
    case Key(k) => Some(k)
    case Str(s) => Some(s)
    case _ => None
  }

  /** The verdict on a text that is about to be quoted. */
  function QuoteVerdict(limits: Limits, text: Option<bytes>): Outcome {
    if text.None? then Pass
    else if |text.value| > limits.text then Raised(LengthError)
    else if !Utf8.Valid(text.value) then Raised(InvalidArgument)
    else Pass
  }

  function Verdict(limits: Limits, p: Document, c: Call): Outcome {
    var e := EventOf(c);
    var separated := |PartialText(p)| + |Separator(p, e)|;
    if e.NotANumber? then Raised(InvalidArgument)
    else if Apply(p, e).None? then Raised(LogicError)
    else if separated > limits.output then Raised(LengthError)
    else if QuoteVerdict(limits, QuotedText(c)).Raised? then QuoteVerdict(limits, QuotedText(c))
    else if separated + |Token(e)| > limits.output then Raised(LengthError)
    else Pass
  }

  function Next(p: Document, c: Call): Document
    requires Apply(p, EventOf(c)).Some?
  {
    ApplyNested(p, EventOf(c));
    Apply(p, EventOf(c)).value
  }

  function Step(limits: Limits): (Document, Call) -> Result<Document, Error> {
    (p: Document, c: Call) =>
      match Verdict(limits, p, c)
      case Raised(e) => Threw(e)
      case Pass => Ok(Next(p, c))
  }

  /** A whole run of calls: the document they build, or the first exception. */
  function Run(limits: Limits, p: Document, calls: seq<Call>): Result<Document, Error> {
    Fold(Step(limits), p, calls)
  }

  lemma RunConcat(limits: Limits, p: Document, a: seq<Call>, b: seq<Call>)
    requires Run(limits, p, a).Ok?
    ensures Run(limits, p, a + b) == Run(limits, Run(limits, p, a).value, b)
  {
    FoldConcat<Document, Call, Error>(Step(limits), p, a, b);
  }

  lemma RunThree(limits: Limits, p: Document, a: seq<Call>, q: Document, b: seq<Call>, r: Document, c: seq<Call>)
    requires Run(limits, p, a) == Ok(q) && Run(limits, q, b) == Ok(r)
    ensures Run(limits, p, a + b + c) == Run(limits, r, c)
  {
    FoldThree<Document, Call, Error>(Step(limits), p, a, q, b, r, c);
  }

  // ---- soundness of a run ----

  lemma {:induction false} EventsCons(c: Call, calls: seq<Call>)
    ensures Events([c] + calls) == [EventOf(c)] + Events(calls)
  {
    if calls == [] {
      Sequences.Units([c]);
      assert [c][..0] == [];
    } else {
      var front, last := calls[..|calls| - 1], calls[|calls| - 1];
      EventsCons(c, front);
      assert ([c] + calls)[..|calls|] == [c] + front;
    }
  }

  lemma AdmissibleCall(limits: Limits, c: Call)
    requires QuoteVerdict(limits, QuotedText(c)).Pass? && !EventOf(c).NotANumber?
    ensures AdmissibleEvent(EventOf(c), limits.text)
  {
    if c.UnsignedInteger? {
      DecimalIsNumber(c.n);
    }
  }

  lemma StepSound(limits: Limits, p: Document, c: Call)
    requires Verdict(limits, p, c).Pass? && AdmissiblePartial(p, limits.text)
    ensures var q := Next(p, c);
            && PartialEvents(q) == PartialEvents(p) + [EventOf(c)]
            && AdmissiblePartial(q, limits.text) && |PartialText(q)| <= limits.output
            && PartialText(p) <= PartialText(q)
  {
    AdmissibleCall(limits, c);
    ApplyAdmissible(p, EventOf(c), limits.text);
    ApplyText(p, EventOf(c));
    ApplyEvents(p, EventOf(c));
  }

  /** After any calls that all pass, the document has exactly their events and stays within the bounds. */
  lemma {:induction false} RunSound(limits: Limits, p: Document, calls: seq<Call>)
    requires Run(limits, p, calls).Ok?
    requires AdmissiblePartial(p, limits.text) && |PartialText(p)| <= limits.output
    ensures var q := Run(limits, p, calls).value;
            && PartialEvents(q) == PartialEvents(p) + Events(calls)
            && AdmissiblePartial(q, limits.text) && |PartialText(q)| <= limits.output
            && PartialText(p) <= PartialText(q)
    decreases |calls|
  {
    if calls == [] {
      Sequences.Units(PartialEvents(p));
    } else {
      var c := calls[0];
      StepSound(limits, p, c);
      RunSound(limits, Next(p, c), calls[1..]);
      assert calls == [c] + calls[1..];
      EventsCons(c, calls[1..]);
      Sequences.Assoc(PartialEvents(p), [EventOf(c)], Events(calls[1..]));
    }
  }

  // ---- completeness of a run ----

  lemma QuoteAdmissible(limits: Limits, c: Call)
    requires AdmissibleEvent(EventOf(c), limits.text)
    ensures QuoteVerdict(limits, QuotedText(c)).Pass? && !EventOf(c).NotANumber?
  {
  }

  /** One call whose event fits and whose bytes fit passes. */
  lemma StepPasses(limits: Limits, p: Document, c: Call)
    requires Apply(p, EventOf(c)).Some? && AdmissibleEvent(EventOf(c), limits.text)
    requires |PartialText(Next(p, c))| <= limits.output
    ensures Run(limits, p, [c]) == Ok(Next(p, c))
  {
    ApplyText(p, EventOf(c));
    QuoteAdmissible(limits, c);
    FoldOne<Document, Call, Error>(Step(limits), p, c);
  }

  /** There is room for the text of v where the next value goes. */
  ghost predicate Room(limits: Limits, p: Document, v: Json) {
    AcceptsValue(p) && |LeadText(p)| + |Text(v)| <= limits.output
  }

  /** Calls with the events of an admissible tree, given room for its text, add that tree. */
  lemma {:induction false} RunTree(limits: Limits, p: Document, v: Json, calls: seq<Call>)
    requires Events(calls) == TreeEvents(v) && Admissible(v, limits.text) && Room(limits, p, v)
    ensures Run(limits, p, calls) == Ok(Add(p, v))
    decreases v, 1
  {
    match v {
      case Array(items) => RunArray(limits, p, items, calls);
      case Object(members) => RunObject(limits, p, members, calls);
      case _ =>
        SingleEvent(calls, Scalar(v));
        AddText(p, v);
        StepPasses(limits, p, calls[0]);
    }
  }

  lemma {:induction false} RunArray(limits: Limits, p: Document, items: seq<Json>, calls: seq<Call>)
    requires Events(calls) == [OpenArray] + ItemEvents(items) + [CloseArray]
    requires AdmissibleItems(items, limits.text) && Room(limits, p, Array(items))
    ensures Run(limits, p, calls) == Ok(Add(p, Array(items)))
    decreases items, 1
  {
    var k := |calls| - 1;
    SplitEvents(calls, [OpenArray], ItemEvents(items), [CloseArray]);
    CloseArrayText(LeadText(p), items);
    Sequences.Units(items);
    RunItems(limits, p, [], items, calls[1..k]);
    StepPasses(limits, p, calls[0]);
    AddText(p, Array(items));
    StepPasses(limits, InArray(p, items), calls[k]);
    RunBracketed(limits, p, InArray(p, []), InArray(p, items), Add(p, Array(items)), calls);
  }

  lemma {:induction false} RunObject(limits: Limits, p: Document, members: seq<Member>, calls: seq<Call>)
    requires Events(calls) == [OpenObject] + MemberEvents(members) + [CloseObject]
    requires AdmissibleMembers(members, limits.text) && Room(limits, p, Object(members))
    ensures Run(limits, p, calls) == Ok(Add(p, Object(members)))
    decreases members, 1
  {
    var k := |calls| - 1;
    SplitEvents(calls, [OpenObject], MemberEvents(members), [CloseObject]);
    CloseObjectText(LeadText(p), members);
    Sequences.Units(members);
    RunMembers(limits, p, [], members, calls[1..k]);
    StepPasses(limits, p, calls[0]);
    AddText(p, Object(members));
    StepPasses(limits, InObject(p, members), calls[k]);
    RunBracketed(limits, p, InObject(p, []), InObject(p, members), Add(p, Object(members)), calls);
  }

  /** A run of an opening call, the calls inside, and a closing call. */
  lemma RunBracketed(limits: Limits, p: Document, q: Document, r: Document, done: Document, calls: seq<Call>)
    requires |calls| >= 2
    requires Run(limits, p, [calls[0]]) == Ok(q)
    requires Run(limits, q, calls[1..|calls| - 1]) == Ok(r)
    requires Run(limits, r, [calls[|calls| - 1]]) == Ok(done)
    ensures Run(limits, p, calls) == Ok(done)
  {
    hide Run, Nested;
    var k := |calls| - 1;
    RunThree(limits, p, [calls[0]], q, calls[1..k], r, [calls[k]]);
    assert calls == [calls[0]] + calls[1..k] + [calls[k]];
  }

  lemma {:induction false} RunItems(
    limits: Limits, p: Document, done: seq<Json>, items: seq<Json>, calls: seq<Call>)
    requires AcceptsValue(p) && Events(calls) == ItemEvents(items) && AdmissibleItems(items, limits.text)
    requires |PartialText(InArray(p, done + items))| <= limits.output
    ensures Run(limits, InArray(p, done), calls) == Ok(InArray(p, done + items))
    ensures |PartialText(InArray(p, done))| <= limits.output
    decreases items, 0
  {
    if items == [] {
      Sequences.Units(done);
    } else {
      var v, n := items[0], |TreeEvents(items[0])|;
      SplitAt(calls, TreeEvents(v), ItemEvents(items[1..]));
      Sequences.MoveFirst(done, items);
      RunItems(limits, p, done + [v], items[1..], calls[n..]);
      ItemRoom(limits, p, done, v);
      RunTree(limits, InArray(p, done), v, calls[..n]);
      RunConcat(limits, InArray(p, done), calls[..n], calls[n..]);
      Sequences.TakeDrop(calls, n);
    }
  }

  lemma ItemRoom(limits: Limits, p: Document, done: seq<Json>, v: Json)
    requires AcceptsValue(p) && |PartialText(InArray(p, done + [v]))| <= limits.output
    ensures Room(limits, InArray(p, done), v) && |PartialText(InArray(p, done))| <= limits.output
  {
    AddText(InArray(p, done), v);
    SeparatorText(InArray(p, done), Scalar(v));
  }

  lemma {:induction false} RunMembers(
    limits: Limits, p: Document, done: seq<Member>, members: seq<Member>, calls: seq<Call>)
    requires AcceptsValue(p) && Events(calls) == MemberEvents(members) && AdmissibleMembers(members, limits.text)
    requires |PartialText(InObject(p, done + members))| <= limits.output
    ensures Run(limits, InObject(p, done), calls) == Ok(InObject(p, done + members))
    ensures |PartialText(InObject(p, done))| <= limits.output
    decreases members, 0
  {
    if members == [] {
      Sequences.Units(done);
    } else {
      var m, n := members[0], |TreeEvents(members[0].value)|;
      var keyed := AfterKey(p, done, m.key);
      SplitThree(calls, KeyEvent(m.key), TreeEvents(m.value), MemberEvents(members[1..]));
      Sequences.MoveFirst(done, members);
      RunMembers(limits, p, done + [m], members[1..], calls[1..][n..]);
      MemberRoom(limits, p, done, m);
      StepPasses(limits, InObject(p, done), calls[0]);
      RunTree(limits, keyed, m.value, calls[1..][..n]);
      RunThree(limits, InObject(p, done), [calls[0]], keyed, calls[1..][..n], InObject(p, done + [m]),
               calls[1..][n..]);
    }
  }

  lemma MemberRoom(limits: Limits, p: Document, done: seq<Member>, m: Member)
    requires AcceptsValue(p) && |PartialText(InObject(p, done + [m]))| <= limits.output
    ensures Room(limits, AfterKey(p, done, m.key), m.value)
    ensures |PartialText(AfterKey(p, done, m.key))| <= limits.output
    ensures |PartialText(InObject(p, done))| <= limits.output
    ensures Add(AfterKey(p, done, m.key), m.value) == InObject(p, done + [m])
  {
    assert Member(m.key, m.value) == m;
    AddText(AfterKey(p, done, m.key), m.value);
    ApplyText(InObject(p, done), KeyEvent(m.key));
  }

  // ---- splitting a list of calls by its events ----

  lemma SingleEvent(calls: seq<Call>, e: Event)
    requires Events(calls) == [e]
    ensures |calls| == 1 && EventOf(calls[0]) == e && calls == [calls[0]]
  {
    assert calls[..0] == [];
  }

  lemma {:induction false} EventsConcat(a: seq<Call>, b: seq<Call>)
    ensures Events(a + b) == Events(a) + Events(b)
  {
    if a == [] {
      Sequences.Units(b);
      Sequences.Units(Events(b));
    } else {
      EventsConcat(a[1..], b);
      assert a == [a[0]] + a[1..] && a + b == [a[0]] + (a[1..] + b);
      EventsCons(a[0], a[1..]);
      EventsCons(a[0], a[1..] + b);
      Sequences.Assoc([EventOf(a[0])], Events(a[1..]), Events(b));
    }
  }

  lemma SplitAt(calls: seq<Call>, a: seq<Event>, b: seq<Event>)
    requires Events(calls) == a + b
    ensures Events(calls[..|a|]) == a && Events(calls[|a|..]) == b
  {
    var front, back := calls[..|a|], calls[|a|..];
    assert calls == front + back;
    EventsConcat(front, back);
    assert (a + b)[..|a|] == a && (a + b)[|a|..] == b;
    assert (Events(front) + Events(back))[..|a|] == Events(front);
    assert (Events(front) + Events(back))[|a|..] == Events(back);
  }

  lemma SplitEvents(calls: seq<Call>, a: seq<Event>, b: seq<Event>, c: seq<Event>)
    requires Events(calls) == a + b + c && |a| == |c| == 1
    ensures |calls| >= 2 && EventOf(calls[0]) == a[0] && EventOf(calls[|calls| - 1]) == c[0]
    ensures Events(calls[1..|calls| - 1]) == b
  {
    var k := |calls| - 1;
    SplitAt(calls, a + b, c);
    SplitAt(calls[..k], a, b);
    SingleEvent(calls[k..], c[0]);
    SingleEvent(calls[..k][..1], a[0]);
    assert calls[..k][1..] == calls[1..k];
  }

  lemma SplitThree(calls: seq<Call>, a: Event, b: seq<Event>, c: seq<Event>)
    requires Events(calls) == [a] + b + c
    ensures |calls| >= 1 + |b| && EventOf(calls[0]) == a
    ensures Events(calls[1..][..|b|]) == b && Events(calls[1..][|b|..]) == c
    ensures calls == [calls[0]] + calls[1..][..|b|] + calls[1..][|b|..]
  {
    Sequences.Assoc([a], b, c);
    Sequences.TakeDropAfterFirst(calls, |b|);
    SplitAt(calls, [a], b + c);
    SingleEvent(calls[..1], a);
    SplitAt(calls[1..], b, c);
  }

  // ---- the main results about runs ----

  /** The calls are those of one tree, written within the bounds, and finish. */
  ghost predicate Describes(limits: Limits, calls: seq<Call>, v: Json) {
    Events(calls) == TreeEvents(v) + [EndOfText] && Admissible(v, limits.text) && |Text(v)| <= limits.output
  }

  /**
   A run of calls from an empty writer passes and finishes with a root exactly
   when its events are those of an admissible tree whose text fits, and then
   the root is that tree.
   */
  lemma RunIffDescribes(limits: Limits, calls: seq<Call>, v: Json)
    ensures Run(limits, Start, calls) == Ok(Finished(v)) <==> Describes(limits, calls, v)
  {
    if Run(limits, Start, calls) == Ok(Finished(v)) {
      RunSound(limits, Start, calls);
      Sequences.Units(Events(calls));
    }
    if Describes(limits, calls, v) {
      RunDescribed(limits, calls, v);
    }
  }

  lemma RunDescribed(limits: Limits, calls: seq<Call>, v: Json)
    requires Describes(limits, calls, v)
    ensures Run(limits, Start, calls) == Ok(Finished(v))
  {
    var k := |calls| - 1;
    SplitAt(calls, TreeEvents(v), [EndOfText]);
    SingleEvent(calls[k..], EndOfText);
    RunTree(limits, Start, v, calls[..k]);
    StepPasses(limits, Closed(v), calls[k]);
    RunConcat(limits, Start, calls[..k], [calls[k]]);
    assert calls[..k] + [calls[k]] == calls;
  }

  /** The calls describe one tree at most, and the text of that tree parses back to it. */
  lemma DescribedTreeParses(limits: Limits, calls: seq<Call>, v: Json, w: Json)
    requires Describes(limits, calls, v)
    ensures Parse(Text(v)) == Parsed(v)
    ensures Describes(limits, calls, w) ==> v == w
  {
    AdmissibleIsWellFormed(v, limits.text);
    ParseUndoesText(v, []);
    RunIffDescribes(limits, calls, v);
    RunIffDescribes(limits, calls, w);
  }
}
