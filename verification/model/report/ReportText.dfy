/** The text of every valid report fits its bound and is read back as that report. */
module ReportText {
  import opened Bytes
  import opened Json
  import opened JsonCalls
  import opened Options
  import opened Protocol
  import opened Reports
  import opened Sizes
  import opened StrictJson
  import Utf8

  // ---- reading a whole report back ----

  lemma CodeTreeReads(code: Option<ErrorCode>)
    ensures Strict(CodeTree(code)).Some? && ReadErrorCode(Strict(CodeTree(code)).value) == Accepted(code)
  {
    if code.Some? {
      CodeReads(code.value);
      hide Ascii, Variant, CodeName;
    }
  }

  /** The six values of a report, as the reader gets them. */
  ghost predicate ReadsAs(r: Report, fields: seq<StrictValue>) {
    && |fields| == 6
    && AsUnsigned(fields[0], 0x1_0000_0000_0000_0000) == Some(r.schemaVersion)
    && AsVariant(fields[1], PROBES, ProbeName) == Some(r.probe)
    && AsVariant(fields[2], MODES, ModeName) == Some(r.mode)
    && AsVariant(fields[3], OUTCOMES, OutcomeName) == Some(r.outcome)
    && ReadOutcome(r.probe, r.mode, r.outcome, fields[4], r.errorCode) == Accepted(r.observations)
    && ReadErrorCode(fields[5]) == Accepted(r.errorCode)
  }

  lemma FieldsRead(r: Report, fields: seq<StrictValue>)
    requires ReadsAs(r, fields) && r.schemaVersion == PROBE_SCHEMA_VERSION && (r.probe.LevelZero? ==> r.mode.Enumerate?)
    ensures ReadReport(fields, r.probe, r.mode) == Accepted(r)
  {
    hide AsUnsigned, AsVariant, ReadOutcome, ReadErrorCode;
  }

  lemma OutcomeReadsBack(r: Report)
    requires ValidReport(r)
    ensures Strict(ObservationsTree(r.observations)).Some?
    ensures ReadOutcome(r.probe, r.mode, r.outcome, Strict(ObservationsTree(r.observations)).value, r.errorCode)
         == Accepted(r.observations)
  {
    if r.outcome.PassOutcome? {
      hide ObservationsTree, Strict, ReadSuccess, ValidObservations;
      ObservationsRead(r.probe, r.mode, r.observations);
    } else {
      assert Strict(Object([])) == Some(ObjectValue(map[]));
    }
  }

  lemma ReportReads(r: Report)
    requires ValidReport(r)
    ensures Strict(ReportTree(r)).Some? && ReadValue(Strict(ReportTree(r)).value, r.probe, r.mode) == Accepted(r)
  {
    var observations, code := ObservationsTree(r.observations), CodeTree(r.errorCode);
    ReportNames();
    StrictLeaves(Ascii(ProbeName(r.probe)), Decimal(r.schemaVersion));
    StrictLeaves(Ascii(ModeName(r.mode)), []);
    StrictLeaves(Ascii(OutcomeName(r.outcome)), []);
    hide Ascii, Strict, DistinctNames, FieldsOf, AsVariant, ReadOutcome, ReadErrorCode, ReadReport, Decimal;
    hide ProbeName, ModeName, OutcomeName, ObservationsTree, CodeTree, ValidObservations, AsUnsigned;
    OutcomeReadsBack(r);
    CodeTreeReads(r.errorCode);
    ProbeReads(r.probe);
    ModeReads(r.mode);
    OutcomeReads(r.outcome);
    UnsignedReads(r.schemaVersion, 0x1_0000_0000_0000_0000);
    var fields := [
      NumberValue(Decimal(r.schemaVersion)), StringValue(Ascii(ProbeName(r.probe))),
      StringValue(Ascii(ModeName(r.mode))),
      StringValue(Ascii(OutcomeName(r.outcome))), Strict(observations).value, Strict(code).value];
    RecordReads(KEYS, ReportValues(r), fields);
    FieldsRead(r, fields);
  }

  // ---- the size of a report ----

  lemma ItemsSizeCons(v: Json, items: seq<Json>)
    ensures ItemsSize([v] + items) == Size(v) + 1 + ItemsSize(items)
  {
    assert ([v] + items)[1..] == items;
  }

  lemma ItemsSize3(a: Json, b: Json, c: Json)
    ensures ItemsSize([a, b, c]) == Size(a) + Size(b) + Size(c) + 3
  {
    hide Size;
    ItemsSizeCons(a, [b, c]);
    ItemsSizeCons(b, [c]);
    ItemsSizeCons(c, []);
    assert [a] + [b, c] == [a, b, c] && [b] + [c] == [b, c] && [c] + [] == [c];
  }

  lemma {:induction false} ItemsSizeConcat(s: seq<Json>, t: seq<Json>)
    ensures ItemsSize(s + t) == ItemsSize(s) + ItemsSize(t)
  {
    if s == [] {
      assert s + t == t;
    } else {
      ItemsSizeConcat(s[1..], t);
      assert (s + t)[1..] == s[1..] + t;
    }
  }

  lemma ItemsSize6(a: Json, b: Json, c: Json, d: Json, e: Json, f: Json)
    ensures ItemsSize([a, b, c, d, e, f]) == Size(a) + Size(b) + Size(c) + Size(d) + Size(e) + Size(f) + 6
  {
    hide Size;
    ItemsSize3(a, b, c);
    ItemsSize3(d, e, f);
    ItemsSizeConcat([a, b, c], [d, e, f]);
    assert [a, b, c] + [d, e, f] == [a, b, c, d, e, f];
  }

  /** Names of at most 20 plain bytes. */
  predicate ShortNames(names: seq<string>) {
    forall i :: 0 <= i < |names| ==> |names[i]| <= 20 && PlainName(names[i])
  }

  predicate PlainName(name: string) {
    forall i :: 0 <= i < |name| ==> 0x20 <= name[i] as int < 0x80 && name[i] != '"' && name[i] != '\\'
  }

  lemma {:induction false} PlainNameBytes(name: string)
    requires PlainName(name)
    ensures Plain(Ascii(name))
  {
    if name != [] {
      PlainNameBytes(name[1..]);
    }
  }

  lemma PlainIsUtf8(s: bytes)
    requires Plain(s)
    ensures Utf8.Valid(s)
  {
    Utf8.AsciiValid(s);
  }

  /** Bounded and plain: what the writer lets through, and how large it gets. */
  predicate Modest(v: Json) {
    PlainTree(v) && Admissible(v, MAX_STRING)
  }

  lemma {:induction false} RecordModest(names: seq<string>, values: seq<Json>)
    requires |names| == |values| && ShortNames(names)
    requires forall i :: 0 <= i < |values| ==> Modest(values[i])
    ensures PlainMembers(Fields(names, values)) && AdmissibleMembers(Fields(names, values), MAX_STRING)
    ensures MembersSize(Fields(names, values)) <= ItemsSize(values) + 23 * |names|
  {
    hide Ascii, Plain, Utf8.Valid;
    if names != [] {
      RecordModest(names[1..], values[1..]);
      PlainNameBytes(names[0]);
      PlainIsUtf8(Ascii(names[0]));
    }
  }

  lemma {:induction false} ListModest(items: seq<Json>, each: nat)
    requires forall i :: 0 <= i < |items| ==> Modest(items[i]) && Size(items[i]) <= each
    ensures Modest(Array(items)) && Size(Array(items)) <= 2 + |items| * (each + 1)
  {
    ItemsSizeBound(items, each);
    ItemsModest(items);
  }

  lemma {:induction false} ItemsModest(items: seq<Json>)
    requires forall i :: 0 <= i < |items| ==> Modest(items[i])
    ensures PlainItems(items) && AdmissibleItems(items, MAX_STRING)
  {
    if items != [] {
      ItemsModest(items[1..]);
    }
  }

  lemma PlainStringModest(s: bytes)
    requires Plain(s) && |s| <= MAX_STRING
    ensures Modest(String(s)) && Size(String(s)) == |s| + 2
  {
    PlainIsUtf8(s);
  }

  lemma DecimalModest(n: nat)
    requires n < 0x1_0000_0000
    ensures Modest(Number(Decimal(n))) && Size(Number(Decimal(n))) <= 10
  {
    DecimalIsNumber(n);
    assert Pow10(10) == 10 * Pow10(9) && Pow10(9) == 10 * Pow10(8) && Pow10(8) == 10 * Pow10(7)
      && Pow10(7) == 10 * Pow10(6) && Pow10(6) == 10 * Pow10(5) && Pow10(5) == 10 * Pow10(4)
      && Pow10(4) == 10 * Pow10(3) && Pow10(3) == 10 * Pow10(2) && Pow10(2) == 10 * Pow10(1) && Pow10(1) == 10;
    DecimalLength(n, 10);
  }

  lemma DeviceNamesShort()
    ensures ShortNames(DEVICE_KEYS)
  {
  }

  lemma ObservationNamesShort()
    ensures ShortNames(LEVEL_ZERO_KEYS) && ShortNames(ENUMERATION_KEYS)
  {
  }

  lemma InferenceNamesShort()
    ensures ShortNames(INFERENCE_KEYS)
  {
    assert PlainName("available_devices");
    assert PlainName("execution_devices");
    assert PlainName("runtime_version");
    assert PlainName("graph_id");
    assert PlainName("iterations");
    assert PlainName("tolerance");
    hide PlainName;
  }

  lemma ReportNamesShort()
    ensures ShortNames(KEYS)
  {
  }

  lemma DeviceModest(d: LevelZeroDevice)
    requires IsLowerHexQuad(d.vendorId) && IsLowerHexQuad(d.deviceId)
    ensures Modest(DeviceTree(d)) && Size(DeviceTree(d)) <= 96
  {
    var values := [String(d.vendorId), String(d.deviceId), Number(Decimal(d.driverVersion))];
    PlainStringModest(d.vendorId);
    PlainStringModest(d.deviceId);
    DecimalModest(d.driverVersion);
    DeviceNamesShort();
    hide ShortNames, PlainTree, Admissible, Decimal, Ascii, IsLowerHexQuad;
    ItemsSize3(values[0], values[1], values[2]);
    RecordIsModest(DEVICE_KEYS, values);
  }

  lemma RecordIsModest(names: seq<string>, values: seq<Json>)
    requires |names| == |values| && ShortNames(names)
    requires forall i :: 0 <= i < |values| ==> Modest(values[i])
    ensures Modest(Record(names, values)) && Size(Record(names, values)) <= 2 + ItemsSize(values) + 23 * |names|
  {
    RecordModest(names, values);
  }

  lemma NumberedPlain(value: bytes, base: string)
    requires IsNumbered(value, base) && PlainName(base)
    ensures Plain(value)
  {
    PlainNameBytes(base);
    hide Ascii;
    var dotted := Ascii(base) + [0x2E];
    if value != Ascii(base) {
      assert value == dotted + value[|dotted|..];
    }
  }

  lemma DevicePlain(value: bytes)
    requires IsDeviceName(value)
    ensures Plain(value)
  {
    assert PlainName("CPU") && PlainName("GPU") && PlainName("NPU");
    hide Ascii, Plain, PlainName;
    if IsNumbered(value, "CPU") {
      NumberedPlain(value, "CPU");
    } else if IsNumbered(value, "GPU") {
      NumberedPlain(value, "GPU");
    } else {
      NumberedPlain(value, "NPU");
    }
  }

  lemma DeviceListModest(devices: seq<bytes>, npuOnly: bool)
    requires ValidDeviceList(devices, npuOnly)
    ensures Modest(Array(Strings(devices))) && Size(Array(Strings(devices))) <= 16600
  {
    forall i | 0 <= i < |devices| ensures Modest(Strings(devices)[i]) && Size(Strings(devices)[i]) <= 258 {
      DevicePlain(devices[i]);
      PlainStringModest(devices[i]);
    }
    ListModest(Strings(devices), 258);
  }

  lemma VersionModest(version: bytes)
    requires ValidRuntimeVersion(version)
    ensures Modest(String(version)) && Size(String(version)) <= 258
  {
    PlainStringModest(version);
  }

  lemma NameModest(name: string)
    requires PlainName(name) && |name| <= MAX_STRING
    ensures Modest(String(Ascii(name))) && Size(String(Ascii(name))) == |name| + 2
  {
    PlainNameBytes(name);
    PlainStringModest(Ascii(name));
  }

  lemma LevelZeroModest(devices: seq<LevelZeroDevice>)
    requires ValidLevelZero(devices)
    ensures var t := ObservationsTree(LevelZeroSeen(devices)); Modest(t) && Size(t) <= 40000
  {
    var list := Array(DeviceTrees(devices));
    ObservationNamesShort();
    hide ShortNames, PlainTree, Admissible, Ascii, IsLowerHexQuad;
    forall i | 0 <= i < |devices| ensures Modest(DeviceTrees(devices)[i]) && Size(DeviceTrees(devices)[i]) <= 96 {
      DeviceModest(devices[i]);
    }
    ListModest(DeviceTrees(devices), 96);
    ItemsSizeCons(list, []);
    assert [list] + [] == [list];
    RecordIsModest(LEVEL_ZERO_KEYS, [list]);
  }

  lemma EnumerationModest(devices: seq<bytes>, version: bytes)
    requires ValidDeviceList(devices, false) && ValidRuntimeVersion(version)
    ensures var t := ObservationsTree(OpenVinoEnumerated(devices, version)); Modest(t) && Size(t) <= 40000
  {
    var list, v := Array(Strings(devices)), String(version);
    ObservationNamesShort();
    hide ShortNames, PlainTree, Admissible, Ascii, ValidDeviceList, ValidRuntimeVersion;
    DeviceListModest(devices, false);
    VersionModest(version);
    ItemsSizeCons(list, [v]);
    ItemsSizeCons(v, []);
    assert [list] + [v] == [list, v] && [v] + [] == [v];
    RecordIsModest(ENUMERATION_KEYS, [list, v]);
  }

  lemma ToleranceModest()
    ensures Modest(Number(Ascii(TOLERANCE_TEXT))) && Size(Number(Ascii(TOLERANCE_TEXT))) == 5
  {
    AsciiTolerance();
    var tail: bytes := [0x2E, 0x30, 0x30, 0x31];
    ToleranceLengths(tail);
    assert ([0x30] + tail)[1..] == tail && tail[4..] == [];
    assert TailLength(tail) == 4;
    assert UnsignedLength([0x30] + tail) == 5;
  }

  lemma InferenceModest(devices: seq<bytes>, execution: seq<bytes>, version: bytes, tolerance: real)
    requires ValidDeviceList(devices, false) && ValidDeviceList(execution, true) && ValidRuntimeVersion(version)
    ensures var t := ObservationsTree(
                       OpenVinoInferred(devices, execution, version, Ascii(GRAPH_ID), ITERATIONS, tolerance));
            Modest(t) && Size(t) <= 40000
  {
    var list, busy, v := Array(Strings(devices)), Array(Strings(execution)), String(version);
    var graph, iterations, text := String(Ascii(GRAPH_ID)), Number(Decimal(ITERATIONS)), Number(Ascii(TOLERANCE_TEXT));
    InferenceNamesShort();
    GraphModest();
    hide ShortNames, PlainTree, Admissible, Ascii, ValidDeviceList, ValidRuntimeVersion, Decimal;
    DeviceListModest(devices, false);
    DeviceListModest(execution, true);
    VersionModest(version);
    DecimalModest(ITERATIONS);
    ToleranceModest();
    ItemsSize6(list, busy, v, graph, iterations, text);
    RecordIsModest(INFERENCE_KEYS, [list, busy, v, graph, iterations, text]);
  }

  lemma GraphModest()
    ensures Modest(String(Ascii(GRAPH_ID))) && Size(String(Ascii(GRAPH_ID))) == 28
  {
    assert PlainName(GRAPH_ID);
    hide PlainTree, Admissible, Ascii, PlainName;
    NameModest(GRAPH_ID);
  }

  lemma ObservationsModest(r: Report)
    requires ValidReport(r)
    ensures Modest(ObservationsTree(r.observations)) && Size(ObservationsTree(r.observations)) <= 40000
  {
    hide PlainTree, Admissible, Size, ObservationsTree, ValidLevelZero, ValidDeviceList, ValidRuntimeVersion, Ascii;
    match r.observations {
      case NoObservations => EmptyModest();
      case LevelZeroSeen(devices) => LevelZeroModest(devices);
      case OpenVinoEnumerated(devices, version) => EnumerationModest(devices, version);
      case OpenVinoInferred(devices, execution, version, _, _, tolerance) =>
        InferenceModest(devices, execution, version, tolerance);
    }
  }

  lemma EmptyModest()
    ensures Modest(ObservationsTree(NoObservations)) && Size(ObservationsTree(NoObservations)) == 2
    ensures Modest(Null) && Size(Null) == 4
  {
  }

  lemma ShortCodeName(c: ErrorCode)
    ensures PlainName(CodeName(c)) && |CodeName(c)| <= 40
  {
    if c.OpenVinoInferenceFailed? || c.OpenVinoOutputInvalid? || c.OpenVinoInternalFailure? {
    } else if c.OpenVinoNoNpu? || c.OpenVinoEnumerationFailed? || c.OpenVinoCompileFailed? || c.OpenVinoWrongDevice? {
      hide CodeName;
      ShortOpenVinoName(c);
    } else {
      hide CodeName;
      ShortLevelZeroName(c);
    }
  }

  lemma ShortOpenVinoName(c: ErrorCode)
    requires c.OpenVinoNoNpu? || c.OpenVinoEnumerationFailed? || c.OpenVinoCompileFailed? || c.OpenVinoWrongDevice?
    ensures PlainName(CodeName(c)) && |CodeName(c)| <= 40
  {
  }

  lemma ShortLevelZeroName(c: ErrorCode)
    requires c.LevelZeroPermissionDenied? || c.LevelZeroDependencyUnavailable? || c.LevelZeroNoVpu?
          || c.LevelZeroEnumerationFailed? || c.LevelZeroInternalFailure?
    ensures PlainName(CodeName(c)) && |CodeName(c)| <= 40
  {
  }

  lemma CodeModest(code: Option<ErrorCode>)
    ensures Modest(CodeTree(code)) && Size(CodeTree(code)) <= 42
  {
    if code.Some? {
      hide CodeName, PlainName, PlainTree, Admissible, Ascii;
      ShortCodeName(code.value);
      NameModest(CodeName(code.value));
    } else {
      EmptyModest();
    }
  }

  lemma HeaderModest(r: Report)
    ensures Modest(String(Ascii(ProbeName(r.probe)))) && Size(String(Ascii(ProbeName(r.probe)))) <= 12
    ensures Modest(String(Ascii(ModeName(r.mode)))) && Size(String(Ascii(ModeName(r.mode)))) <= 12
    ensures Modest(String(Ascii(OutcomeName(r.outcome)))) && Size(String(Ascii(OutcomeName(r.outcome)))) <= 12
  {
    assert PlainName(ProbeName(r.probe)) && |ProbeName(r.probe)| <= 10;
    assert PlainName(ModeName(r.mode)) && |ModeName(r.mode)| <= 10;
    assert PlainName(OutcomeName(r.outcome)) && |OutcomeName(r.outcome)| <= 10;
    hide PlainName, PlainTree, Admissible, Ascii, ProbeName, ModeName, OutcomeName;
    NameModest(ProbeName(r.probe));
    NameModest(ModeName(r.mode));
    NameModest(OutcomeName(r.outcome));
  }

  lemma ReportModest(r: Report)
    requires ValidReport(r)
    ensures Modest(ReportTree(r)) && Size(ReportTree(r)) <= 41000
  {
    var values := ReportValues(r);
    ReportNamesShort();
    hide ShortNames, PlainTree, Admissible, Ascii, Decimal, ObservationsTree, CodeTree;
    hide ProbeName, ModeName, OutcomeName;
    DecimalModest(r.schemaVersion);
    HeaderModest(r);
    ObservationsModest(r);
    CodeModest(r.errorCode);
    ItemsSize6(values[0], values[1], values[2], values[3], values[4], values[5]);
    RecordIsModest(KEYS, values);
  }

  // ---- main results ----

  /** With its newline, every valid report stays within the reader's bound, and so within the writer's. */
  lemma ReportFits(r: Report)
    requires ValidReport(r)
    ensures |Text(ReportTree(r))| + 1 < MAX_PROBE_STDOUT && Admissible(ReportTree(r), MAX_STRING)
  {
    ReportModest(r);
    PrintLength(ReportTree(r), []);
  }

  /** The round trip: the line written for a valid report is parsed to that very report. */
  lemma ReportRoundTrip(r: Report)
    requires ValidReport(r)
    ensures ParseProbeOutput(Text(ReportTree(r)) + [0x0A], r.probe, r.mode) == Accepted(r)
  {
    hide ReportTree, Strict, Parse, Print, ReadValue, ValidReport, Admissible, ParseProbeOutput;
    var t := ReportTree(r);
    ReportStart(r);
    ReportFits(r);
    ReportReads(r);
    AdmissibleIsWellFormed(t, MAX_STRING);
    ParseUndoesText(t, [0x0A]);
    PrintConcat(t, [], [0x0A]);
    assert [] + [0x0A] == [0x0A];
    ParseSteps(Text(t) + [0x0A], t, r);
  }

  lemma ParseSteps(output: bytes, t: Json, r: Report)
    requires output != [] && |output| <= MAX_PROBE_STDOUT && output[0] == LEFT_BRACE
    requires Parse(output) == Parsed(t)
    requires Strict(t).Some? && ReadValue(Strict(t).value, r.probe, r.mode) == Accepted(r)
    ensures ParseProbeOutput(output, r.probe, r.mode) == Accepted(r)
  {
    hide Parse, Strict, ReadValue;
  }

  lemma ReportStart(r: Report)
    ensures Text(ReportTree(r)) != [] && Text(ReportTree(r))[0] == LEFT_BRACE
  {
    hide ReportValues, Fields;
  }

  // ---- the converse: what the reader accepts ----

  lemma {:induction false} AsListRead<T>(items: seq<StrictValue>, read: StrictValue -> Option<T>)
    requires AsList(items, read).Some?
    ensures var xs := AsList(items, read).value;
            |xs| == |items| && forall i :: 0 <= i < |xs| ==> read(items[i]) == Some(xs[i])
  {
    if items != [] {
      AsListRead(items[1..], read);
    }
  }

  lemma LevelZeroAccepted(v: StrictValue)
    requires ReadLevelZero(v).Accepted?
    ensures ValidObservations(LevelZero, Enumerate, ReadLevelZero(v).value)
  {
    hide FieldsOf, AsString, ValidLevelZero, Ascii;
    var fields := FieldsOf(v, ["vpu_devices"]).value;
    AsListRead(fields[0].items, ReadDevice);
  }

  /** Whatever the reader accepts is a valid report of the probe and mode it was asked for. */
  lemma AcceptedIsValid(output: bytes, probe: ProbeKind, mode: ProbeMode)
    requires ParseProbeOutput(output, probe, mode).Accepted?
    ensures var r := ParseProbeOutput(output, probe, mode).value;
            ValidReport(r) && r.probe == probe && r.mode == mode
  {
    hide Parse, Strict, FieldsOf;
    var value := Strict(Parse(output).value).value;
    var fields := FieldsOf(value, KEYS).value;
    assert ReadReport(fields, probe, mode).Accepted?;
    ReadReportValid(fields, probe, mode);
  }

  lemma ReadReportValid(fields: seq<StrictValue>, probe: ProbeKind, mode: ProbeMode)
    requires |fields| == 6 && ReadReport(fields, probe, mode).Accepted?
    ensures var r := ReadReport(fields, probe, mode).value;
            ValidReport(r) && r.probe == probe && r.mode == mode
  {
    hide AsVariant, AsUnsigned, ReadErrorCode, ReadOutcome, ValidErrorCode, ValidObservations;
    var r := ReadReport(fields, probe, mode).value;
    OutcomeValid(probe, mode, r.outcome, fields[4], r.errorCode);
  }

  lemma OutcomeValid(
    probe: ProbeKind, mode: ProbeMode, outcome: ProbeOutcome, v: StrictValue, code: Option<ErrorCode>)
    requires ReadOutcome(probe, mode, outcome, v, code).Accepted?
    ensures var o := ReadOutcome(probe, mode, outcome, v, code).value;
            match outcome {
              case FailOutcome => o.NoObservations? && code.Some? && ValidErrorCode(probe, mode, code.value)
              case PassOutcome => code.None? && ValidObservations(probe, mode, o)
            }
  {
    hide ReadSuccess, ValidErrorCode, ValidObservations;
    if outcome.PassOutcome? {
      ReadSuccessValid(probe, mode, v);
    }
  }

  lemma ReadSuccessValid(probe: ProbeKind, mode: ProbeMode, v: StrictValue)
    requires ReadSuccess(probe, mode, v).Accepted?
    ensures ValidObservations(probe, mode, ReadSuccess(probe, mode, v).value)
  {
    hide FieldsOf, AsListValue, Ascii;
    if probe.LevelZero? {
      LevelZeroAccepted(v);
    }
  }
}
