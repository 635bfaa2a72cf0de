/** The parts of a report that both probes write the same way. */
module ReportWriter {
  import opened Bytes
  import opened Folds
  import opened Json
  import opened JsonCalls
  import opened JsonPlans
  import opened JsonRuns
  import opened JsonText
  import opened JsonWriter
  import opened Options
  import opened Protocol
  import opened Reports
  import opened ReportText

  const LIMITS := Limits(MAX_PROBE_STDOUT, MAX_STRING)
  const LAST_CALLS := [EndObject, Finish]

  // ---- the calls of a report, field by field ----

  /** All calls of a report. */
  function ReportCalls(report: Report): seq<Call> {
    TreeCalls(ReportTree(report), [Finish])
  }

  /** What the writer makes of all calls of a report. */
  function ReportRun(report: Report): Result<Document, Error> {
    Run(LIMITS, Start, ReportCalls(report))
  }

  /** What rendering a report returns: the text its calls write, unless one of them throws. */
  function Rendered(report: Report): Result<bytes, Error> {
    match ReportRun(report)
    case Ok(document) => Ok(PartialText(document))
    case Threw(e) => Threw(e)
  }

  /** No call of a valid report throws. */
  lemma ValidReportRuns(report: Report)
    requires ValidReport(report)
    ensures ReportRun(report) == Ok(Finished(ReportTree(report)))
    ensures Rendered(report) == Ok(Text(ReportTree(report)))
  {
    hide ReportTree, ValidReport, Admissible, Run, TreeCalls, Print;
    ReportFits(report);
    PlanRuns(LIMITS, ReportTree(report));
  }

  /** The calls that are left once the first i fields of the report are written. */
  function FieldsFrom(report: Report, i: nat): seq<Call>
    requires i <= 6
  {
    FieldCalls(KEYS[i..], ReportValues(report)[i..], LAST_CALLS)
  }

  lemma FirstField(report: Report)
    ensures ReportCalls(report) == [BeginObject] + FieldsFrom(report, 0)
  {
    hide TreeCalls, FieldCalls, Record;
    assert |ReportValues(report)| == 6;
    hide ReportValues;
    RecordCalls(KEYS, ReportValues(report), [Finish]);
    assert [EndObject] + [Finish] == LAST_CALLS;
  }

  lemma FieldFrom(report: Report, i: nat)
    requires i < 6
    ensures FieldsFrom(report, i)
         == [Key(Ascii(KEYS[i]))] + TreeCalls(ReportValues(report)[i], FieldsFrom(report, i + 1))
  {
    hide Ascii, TreeCalls, FieldCalls;
    FieldStep(KEYS, ReportValues(report), i, LAST_CALLS);
  }

  /** A field that holds no container takes two calls. */
  lemma ScalarFieldFrom(report: Report, i: nat, v: Json, c: Call)
    requires i < 6 && ReportValues(report)[i] == v && !v.Array? && !v.Object? && CallFor(v) == c
    ensures FieldsFrom(report, i) == [Key(Ascii(KEYS[i]))] + ([c] + FieldsFrom(report, i + 1))
  {
    hide ReportValues, Ascii, FieldsFrom, CallFor;
    FieldFrom(report, i);
  }

  lemma NoFieldsFrom(report: Report)
    ensures FieldsFrom(report, 6) == LAST_CALLS
  {
    FieldsDone(KEYS, ReportValues(report), LAST_CALLS);
  }

  lemma VersionField(report: Report)
    requires report.schemaVersion == PROBE_SCHEMA_VERSION
    ensures FieldsFrom(report, 0)
         == [Key(Ascii("schema_version"))] + ([UnsignedInteger(PROBE_SCHEMA_VERSION)] + FieldsFrom(report, 1))
  {
    hide FieldsFrom, Ascii, Decimal, CallFor;
    IntegerCall(PROBE_SCHEMA_VERSION);
    ScalarFieldFrom(report, 0, Number(Decimal(PROBE_SCHEMA_VERSION)), UnsignedInteger(PROBE_SCHEMA_VERSION));
  }

  lemma NameField(report: Report, i: nat, name: bytes)
    requires i < 6 && ReportValues(report)[i] == String(name)
    ensures FieldsFrom(report, i) == [Key(Ascii(KEYS[i]))] + ([Str(name)] + FieldsFrom(report, i + 1))
  {
    hide FieldsFrom, Ascii, ReportValues;
    ScalarFieldFrom(report, i, String(name), Str(name));
  }

  lemma HeaderCalls(report: Report)
    requires report.schemaVersion == PROBE_SCHEMA_VERSION
    ensures ReportCalls(report)
         == [BeginObject] + ([Key(Ascii("schema_version"))] + ([UnsignedInteger(PROBE_SCHEMA_VERSION)]
            + ([Key(Ascii("probe"))] + ([Str(Ascii(ProbeName(report.probe)))]
            + ([Key(Ascii("mode"))] + ([Str(Ascii(ModeName(report.mode)))] + FieldsFrom(report, 3)))))))
  {
    hide ReportCalls, FieldsFrom, Ascii, Decimal, ProbeName, ModeName, OutcomeName, ObservationsTree, CodeTree;
    FirstField(report);
    VersionField(report);
    NameField(report, 1, Ascii(ProbeName(report.probe)));
    NameField(report, 2, Ascii(ModeName(report.mode)));
  }

  lemma FailureCalls(report: Report)
    requires report.outcome.FailOutcome? && report.observations.NoObservations? && report.errorCode.Some?
    ensures FieldsFrom(report, 3)
         == [Key(Ascii("outcome"))] + ([Str(Ascii(OutcomeName(FailOutcome)))]
            + ([Key(Ascii("observations"))] + ([BeginObject] + ([EndObject]
            + ([Key(Ascii("error_code"))] + ([Str(Ascii(CodeName(report.errorCode.value)))] + LAST_CALLS))))))
  {
    hide FieldsFrom, Ascii, CodeName, OutcomeName, Decimal;
    NameField(report, 3, Ascii(OutcomeName(FailOutcome)));
    FieldFrom(report, 4);
    EmptyObjectCalls(FieldsFrom(report, 5));
    hide TreeCalls;
    NameField(report, 5, Ascii(CodeName(report.errorCode.value)));
    NoFieldsFrom(report);
  }

  lemma EmptyObjectCalls(rest: seq<Call>)
    ensures TreeCalls(Object([]), rest) == [BeginObject] + ([EndObject] + rest)
  {
  }

  lemma PassingCalls(report: Report)
    requires report.outcome.PassOutcome? && report.errorCode.None?
    ensures FieldsFrom(report, 3)
         == [Key(Ascii("outcome"))] + ([Str(Ascii(OutcomeName(PassOutcome)))] + ([Key(Ascii("observations"))]
            + TreeCalls(ObservationsTree(report.observations), FieldsFrom(report, 5))))
    ensures FieldsFrom(report, 5) == [Key(Ascii("error_code"))] + ([NullValue] + LAST_CALLS)
  {
    hide FieldsFrom, TreeCalls, Ascii, CodeName, OutcomeName, Decimal, ObservationsTree;
    NameField(report, 3, Ascii(OutcomeName(PassOutcome)));
    FieldFrom(report, 4);
    ScalarFieldFrom(report, 5, Null, NullValue);
    NoFieldsFrom(report);
  }

  // ---- what both probes write ----

  /** The writer is on its way through the calls of the report, and these are the ones to come. */
  ghost predicate Follows(writer: Writer, report: Report, calls: seq<Call>)
    reads writer
  {
    writer.limits == LIMITS && writer.Planned(ReportRun(report)) && writer.plan == calls
  }

  lemma Started(writer: Writer, report: Report)
    requires writer.limits == LIMITS && writer.Valid() && writer.doc == Start && writer.plan == ReportCalls(report)
    ensures Follows(writer, report, ReportCalls(report))
  {
  }

  /** The calls up to here pass and lead to these; or the exception is the one of the whole report. */
  ghost predicate Reached(r: Result<(), Error>, writer: Writer, report: Report, calls: seq<Call>)
    reads writer
  {
    match r
    case Ok(_) => Follows(writer, report, calls)
    case Threw(e) => ReportRun(report) == Threw(e)
  }

  /** The header: the opening brace and the first three fields. */
  method BeginReport(writer: Writer, probe: ProbeKind, mode: ProbeMode, ghost report: Report)
    returns (r: Result<(), Error>)
    requires report.schemaVersion == PROBE_SCHEMA_VERSION && report.probe == probe && report.mode == mode
    requires Follows(writer, report, ReportCalls(report))
    modifies writer
    ensures Reached(r, writer, report, FieldsFrom(report, 3))
  {
    hide ReportCalls, ReportRun, FieldsFrom, Run, Verdict, Next, Apply, EventOf, Nested, Ascii, ProbeName, ModeName;
    hide Writer.Valid;
    HeaderCalls(report);
    :- writer.BeginObject();
    :- writer.Key(Ascii("schema_version"));
    :- writer.UnsignedInteger(PROBE_SCHEMA_VERSION);
    :- writer.Key(Ascii("probe"));
    :- writer.Str(Ascii(ProbeName(probe)));
    :- writer.Key(Ascii("mode"));
    :- writer.Str(Ascii(ModeName(mode)));
    return Ok(());
  }

  /** The rest of a failing report, up to its closing brace. */
  method WriteFailure(writer: Writer, code: ErrorCode, ghost report: Report) returns (r: Result<(), Error>)
    requires report.outcome.FailOutcome? && report.observations.NoObservations? && report.errorCode == Some(code)
    requires Follows(writer, report, FieldsFrom(report, 3))
    modifies writer
    ensures Reached(r, writer, report, LAST_CALLS)
  {
    hide FieldsFrom, ReportRun, Run, Verdict, Next, Apply, EventOf, Nested, Ascii, CodeName, OutcomeName, Writer.Valid;
    FailureCalls(report);
    :- writer.Key(Ascii("outcome"));
    :- writer.Str(Ascii(OutcomeName(FailOutcome)));
    :- writer.Key(Ascii("observations"));
    :- writer.BeginObject();
    :- writer.EndObject();
    r := WriteCode(writer, code, report);
  }

  method WriteCode(writer: Writer, code: ErrorCode, ghost report: Report) returns (r: Result<(), Error>)
    requires Follows(writer, report, [Key(Ascii("error_code"))] + ([Str(Ascii(CodeName(code)))] + LAST_CALLS))
    modifies writer
    ensures Reached(r, writer, report, LAST_CALLS)
  {
    hide ReportRun, Run, Verdict, Next, Apply, EventOf, Nested, Ascii, CodeName, Writer.Valid;
    :- writer.Key(Ascii("error_code"));
    :- writer.Str(Ascii(CodeName(code)));
    return Ok(());
  }

  /** The outcome of a passing report, up to its observations. */
  method BeginPassing(writer: Writer, ghost report: Report) returns (r: Result<(), Error>)
    requires report.outcome.PassOutcome? && report.errorCode.None?
    requires Follows(writer, report, FieldsFrom(report, 3))
    modifies writer
    ensures Reached(r, writer, report, TreeCalls(ObservationsTree(report.observations), FieldsFrom(report, 5)))
  {
    hide FieldsFrom, TreeCalls, ReportRun, ObservationsTree, Run, Verdict, Next, Ascii, OutcomeName, Writer.Valid;
    PassingCalls(report);
    :- writer.Key(Ascii("outcome"));
    :- writer.Str(Ascii(OutcomeName(PassOutcome)));
    :- writer.Key(Ascii("observations"));
    return Ok(());
  }

  /** The null error code of a passing report, after its observations. */
  method EndPassing(writer: Writer, ghost report: Report) returns (r: Result<(), Error>)
    requires report.outcome.PassOutcome? && report.errorCode.None?
    requires Follows(writer, report, FieldsFrom(report, 5))
    modifies writer
    ensures Reached(r, writer, report, LAST_CALLS)
  {
    hide FieldsFrom, TreeCalls, ReportRun, ObservationsTree, Run, Verdict, Next, Ascii, Writer.Valid;
    PassingCalls(report);
    :- writer.Key(Ascii("error_code"));
    :- writer.NullValue();
    return Ok(());
  }

  /** Finish is the last call of a report: it returns the text of the root, or throws. */
  lemma FinishCall(p: Document, report: Report)
    requires Run(LIMITS, p, [Finish]) == ReportRun(report) && AdmissiblePartial(p, LIMITS.text)
    requires |PartialText(p)| <= LIMITS.output
    ensures Rendered(report) == if p.Closed? then Ok(Text(p.root)) else Threw(LogicError)
  {
    hide ReportRun, AdmissiblePartial, Print;
    FoldOne<Document, Call, Error>(Step(LIMITS), p, Finish);
  }

  lemma LastCalls(report: Report)
    ensures LAST_CALLS[1..] == [Finish]
    ensures ReportRun(report).Threw? ==> Rendered(report) == Threw(ReportRun(report).error)
  {
    hide ReportRun;
  }

  /** The closing brace of the report, and its text. */
  method EndReport(writer: Writer, ghost report: Report) returns (r: Result<bytes, Error>)
    requires Follows(writer, report, LAST_CALLS)
    modifies writer
    ensures r == Rendered(report)
  {
    hide ReportRun, Rendered, Run, Verdict, Next, PartialFrames, AdmissiblePartial, Print, Parse, PartialText;
    LastCalls(report);
    :- writer.EndObject();
    FinishCall(writer.doc, report);
    r := writer.Finish();
  }
}
