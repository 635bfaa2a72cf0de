/** From a probe's result, through the pipe, to the report the runtime acts on. */
module Delivery {
  import opened Bytes
  import opened Channel
  import opened Folds
  import opened Json
  import opened Options
  import opened Protocol
  import opened Reports
  import opened ReportText
  import opened ReportWriter
  import LevelZeroProbe
  import OpenVinoProbe

  /** The line that carries a report. */
  function Line(report: Report): bytes {
    Text(ReportTree(report)) + [0x0A]
  }

  /** What the runtime makes of the chunks it reads: nothing after an error or an overflow, else the parsed report. */
  function Received(chunks: seq<Chunk>, probe: ProbeKind, mode: ProbeMode): Option<Reading<Report>> {
    var captured := Captured(Stream(chunks), MAX_PROBE_STDOUT);
    if Breaks(chunks) || captured.overflow then None else Some(ParseProbeOutput(captured.bytes, probe, mode))
  }

  /** However the line of a valid report is cut into chunks, the runtime receives that report. */
  lemma LineIsReceived(report: Report, chunks: seq<Chunk>)
    requires ValidReport(report) && !Breaks(chunks) && Stream(chunks) == Line(report)
    ensures Received(chunks, report.probe, report.mode) == Some(Accepted(report))
  {
    hide ValidReport, ReportTree, Print, ParseProbeOutput;
    ReportFits(report);
    ReportRoundTrip(report);
  }

  // ---- the programs ----

  /** What the Level Zero program reports for a result: an internal failure if rendering it throws. */
  function LevelZeroOutcome(result: LevelZeroProbe.ProbeResult): Report {
    if result.error.Some? == (result.vpuDevices != []) || |result.vpuDevices| > MAX_OBSERVATIONS
       || Rendered(LevelZeroProbe.ReportOf(result)).Threw? then
      LevelZeroProbe.ReportOf(LevelZeroProbe.Failure(LevelZeroInternalFailure))
    else LevelZeroProbe.ReportOf(result)
  }

  /** What the OpenVINO program reports for a result. */
  function OpenVinoOutcome(mode: ProbeMode, result: OpenVinoProbe.ProbeResult): Report {
    if mode.Enumerate? then
      if OpenVinoProbe.RendersEnumeration(result) then OpenVinoProbe.EnumerateReportOf(result)
      else OpenVinoProbe.FailureReport(mode, OpenVinoInternalFailure)
    else if OpenVinoProbe.RendersInference(result) then OpenVinoProbe.InferReportOf(result)
    else OpenVinoProbe.FailureReport(mode, OpenVinoInternalFailure)
  }

  lemma LevelZeroOutcomeValid(result: LevelZeroProbe.ProbeResult)
    requires ValidReport(LevelZeroProbe.ReportOf(result)) && (result.error.Some? ==> result.vpuDevices == [])
    ensures LevelZeroOutcome(result) == LevelZeroProbe.ReportOf(result)
  {
    hide Rendered, ReportTree, Print;
    ValidReportRuns(LevelZeroProbe.ReportOf(result));
  }

  /** Not a failure under a code the mode does not have. */
  predicate Deliverable(mode: ProbeMode, result: OpenVinoProbe.ProbeResult) {
    result.error.Some? && OpenVinoProbe.HasNoObservations(result) ==>
      ValidErrorCode(OpenVino, mode, result.error.value)
  }

  /**
   The OpenVINO program reports something the reader accepts for every result
   but one kind: an enumeration that failed with a code of the inference.
   */
  lemma OpenVinoOutcomeValid(mode: ProbeMode, result: OpenVinoProbe.ProbeResult)
    ensures ValidReport(OpenVinoOutcome(mode, result)) <==> Deliverable(mode, result)
    ensures OpenVinoOutcome(mode, result).probe == OpenVino && OpenVinoOutcome(mode, result).mode == mode
  {
    hide ValidObservations, OpenVinoProbe.Enumeration, OpenVinoProbe.WrongExecution, OpenVinoProbe.Normalized, Ascii;
    if result.error.None? {
      if mode.Infer? {
        OpenVinoProbe.InferenceRendersIffValid(result);
      } else if result.executionDevices == [] {
        OpenVinoProbe.EnumerationRendersIffValid(result);
      }
    }
  }

  /** The Level Zero program writes one line: the report of its result. */
  method LevelZeroProgram(result: LevelZeroProbe.ProbeResult, channel: Descriptor) returns (e: Ending)
    modifies channel
    ensures ValidReport(LevelZeroOutcome(result)) ==>
              && (e.Written? <==> LineGoes(old(channel.answers), |Line(LevelZeroOutcome(result))| - 1))
              && (e.Written? <==> channel.taken == old(channel.taken) + Line(LevelZeroOutcome(result)))
    ensures e.Refused? ==> AnyFatal(old(channel.answers))
  {
    hide Rendered, ReportTree, Print, ValidReport;
    var rendered := LevelZeroProbe.RenderReport(result);
    var failure := LevelZeroProbe.ReportOf(LevelZeroProbe.Failure(LevelZeroInternalFailure));
    var line := match rendered
      case Ok(text) => text
      case Threw(_) => Text(ReportTree(failure));
    ghost var report := LevelZeroOutcome(result);
    if ValidReport(report) {
      ValidReportRuns(report);
    }
    e := channel.WriteLine(line);
  }

  /** The OpenVINO program writes one line: the report of its result. */
  method OpenVinoProgram(mode: ProbeMode, result: OpenVinoProbe.ProbeResult, channel: Descriptor) returns (e: Ending)
    modifies channel
    ensures ValidReport(OpenVinoOutcome(mode, result)) ==>
              && (e.Written? <==> LineGoes(old(channel.answers), |Line(OpenVinoOutcome(mode, result))| - 1))
              && (e.Written? <==> channel.taken == old(channel.taken) + Line(OpenVinoOutcome(mode, result)))
    ensures e.Refused? ==> AnyFatal(old(channel.answers))
  {
    hide Rendered, ReportTree, Print, ValidReport, OpenVinoProbe.RendersEnumeration, OpenVinoProbe.RendersInference;
    var rendered;
    if mode.Enumerate? {
      rendered := OpenVinoProbe.RenderEnumerateReport(result);
    } else {
      rendered := OpenVinoProbe.RenderInferReport(result);
    }
    var line := match rendered
      case Ok(text) => text
      case Threw(_) => Text(ReportTree(OpenVinoProbe.FailureReport(mode, OpenVinoInternalFailure)));
    ghost var report := OpenVinoOutcome(mode, result);
    if ValidReport(report) {
      ValidReportRuns(report);
    }
    e := channel.WriteLine(line);
  }

  // ---- from one end to the other ----

  /** The line of a valid report goes through any schedule of partial and interrupted writes that is long enough. */
  lemma ReportGoes(report: Report, answers: seq<Attempt>)
    requires ValidReport(report) && !AnyFatal(answers) && Takes(answers) >= MAX_PROBE_STDOUT
    ensures LineGoes(answers, |Line(report)| - 1)
  {
    hide ValidReport, ReportTree, Print;
    ReportFits(report);
    LineGoesThrough(answers, |Line(report)| - 1);
  }

  /** run_probe after the program has ended: its output counts if all of it was written and read. */
  method Receive(e: Ending, taken: bytes, sizes: seq<nat>, probe: ProbeKind, mode: ProbeMode)
    returns (r: Option<Reading<Report>>)
    ensures r == if e.Written? then Received(Cut(taken, sizes), probe, mode) else None
  {
    CutKeeps(taken, sizes);
    var captured := Capture(Cut(taken, sizes), MAX_PROBE_STDOUT);
    if captured.Threw? || captured.value.overflow || !e.Written? {
      return None;
    }
    return Some(ParseProbeOutput(captured.value.bytes, probe, mode));
  }

  /**
   The Level Zero probe from its result to the report the runtime gets. Over
   every schedule of writes and every cut of the stream into reads the runtime
   gets that report or none; and it gets it whenever no attempt is fatal and
   enough of them take something.
   */
  method RunLevelZero(result: LevelZeroProbe.ProbeResult, answers: seq<Attempt>, sizes: seq<nat>)
    returns (r: Option<Reading<Report>>)
    ensures ValidReport(LevelZeroOutcome(result)) ==>
              r == if LineGoes(answers, |Line(LevelZeroOutcome(result))| - 1)
                   then Some(Accepted(LevelZeroOutcome(result))) else None
    ensures && ValidReport(LevelZeroProbe.ReportOf(result)) && (result.error.Some? ==> result.vpuDevices == [])
            && !AnyFatal(answers) && Takes(answers) >= MAX_PROBE_STDOUT ==>
              r == Some(Accepted(LevelZeroProbe.ReportOf(result)))
  {
    hide ValidReport, ReportTree, Print, ParseProbeOutput, LineGoes, Takes, AnyFatal, Received;
    var channel := new Descriptor(answers);
    var e := LevelZeroProgram(result, channel);
    ghost var report := LevelZeroOutcome(result);
    r := Receive(e, channel.taken, sizes, LevelZero, Enumerate);
    CutKeeps(channel.taken, sizes);
    if ValidReport(report) {
      assert [] + Line(report) == Line(report);
      if e.Written? {
        LineIsReceived(report, Cut(channel.taken, sizes));
      }
      if !AnyFatal(answers) && Takes(answers) >= MAX_PROBE_STDOUT {
        ReportGoes(report, answers);
      }
    }
    if ValidReport(LevelZeroProbe.ReportOf(result)) && (result.error.Some? ==> result.vpuDevices == []) {
      LevelZeroOutcomeValid(result);
    }
  }

  /** The OpenVINO probe from its result to the report the runtime gets. */
  method RunOpenVino(mode: ProbeMode, result: OpenVinoProbe.ProbeResult, answers: seq<Attempt>, sizes: seq<nat>)
    returns (r: Option<Reading<Report>>)
    ensures ValidReport(OpenVinoOutcome(mode, result)) ==>
              r == if LineGoes(answers, |Line(OpenVinoOutcome(mode, result))| - 1)
                   then Some(Accepted(OpenVinoOutcome(mode, result))) else None
    ensures Deliverable(mode, result) && !AnyFatal(answers) && Takes(answers) >= MAX_PROBE_STDOUT ==>
              r == Some(Accepted(OpenVinoOutcome(mode, result)))
  {
    hide ValidReport, ReportTree, Print, ParseProbeOutput, LineGoes, Takes, AnyFatal, Received;
    var channel := new Descriptor(answers);
    var e := OpenVinoProgram(mode, result, channel);
    ghost var report := OpenVinoOutcome(mode, result);
    OpenVinoOutcomeValid(mode, result);
    r := Receive(e, channel.taken, sizes, OpenVino, mode);
    CutKeeps(channel.taken, sizes);
    if ValidReport(report) {
      assert [] + Line(report) == Line(report);
      if e.Written? {
        LineIsReceived(report, Cut(channel.taken, sizes));
      }
      if !AnyFatal(answers) && Takes(answers) >= MAX_PROBE_STDOUT {
        ReportGoes(report, answers);
      }
    }
  }
}
