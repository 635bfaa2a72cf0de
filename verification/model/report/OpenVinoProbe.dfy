/** The OpenVINO probe: from the runtime's device names to the report it renders. */
module OpenVinoProbe {
  import opened Bytes
  import opened Folds
  import opened Json
  import opened JsonCalls
  import opened JsonPlans
  import opened JsonRuns
  import opened JsonWriter
  import opened Options
  import opened Ordering
  import opened Protocol
  import opened Reports
  import opened ReportText
  import opened ReportWriter

  type OpenVinoError = c: ErrorCode | ValidErrorCode(OpenVino, Infer, c) witness OpenVinoNoNpu

  datatype ProbeResult = ProbeResult(
    availableDevices: seq<bytes>, executionDevices: seq<bytes>, runtimeVersion: bytes, error: Option<OpenVinoError>)

  function Failure(error: OpenVinoError): ProbeResult {
    ProbeResult([], [], [], Some(error))
  }

  // ---- device names and version strings, as the probe tests them ----

  /** The base itself, or the base, a dot, and at least one digit. */
  predicate IsDeviceOf(value: bytes, base: bytes) {
    || value == base
    || (|value| > |base| + 1 && base <= value && value[|base|] == 0x2E && AllDigits(value[|base| + 1..]))
  }

  predicate IsDevice(value: bytes) {
    IsDeviceOf(value, Ascii("CPU")) || IsDeviceOf(value, Ascii("GPU")) || IsDeviceOf(value, Ascii("NPU"))
  }

  predicate IsNpu(value: bytes) {
    || value == Ascii("NPU")
    || (Ascii("NPU.") <= value && |value| > 4 && AllDigits(value[4..]))
  }

  predicate IsVersion(value: bytes) {
    0 < |value| <= MAX_STRING && forall i :: 0 <= i < |value| ==> IsVersionByte(value[i])
  }

  lemma DeviceOfIsNumbered(value: bytes, base: string)
    ensures IsDeviceOf(value, Ascii(base)) <==> IsNumbered(value, base)
  {
    var b := Ascii(base);
    var dotted := b + [0x2E];
    hide Ascii, AllDigits;
    if |value| > |b| && b <= value && value[|b|] == 0x2E {
      assert value[..|b| + 1] == value[..|b|] + [value[|b|]];
      assert dotted <= value;
    }
    if dotted <= value {
      assert value[..|b|] == dotted[..|b|] == b && value[|b|] == dotted[|b|];
    }
  }

  lemma NpuText()
    ensures Ascii("NPU.") == Ascii("NPU") + [0x2E] && |Ascii("NPU")| == 3
  {
    assert "NPU."[1..] == "PU." && "PU."[1..] == "U." && "U."[1..] == "." && "."[1..] == "";
    assert "NPU"[1..] == "PU" && "PU"[1..] == "U" && "U"[1..] == "";
    assert Ascii("U.") == [0x55, 0x2E] && Ascii("U") == [0x55];
    assert Ascii("PU.") == [0x50, 0x55, 0x2E] && Ascii("PU") == [0x50, 0x55];
  }

  /** The probe's tests and the reader's accept the same names. */
  lemma NamesAgree(value: bytes)
    ensures IsDevice(value) <==> IsDeviceName(value)
    ensures IsNpu(value) <==> IsNpuName(value)
    ensures IsVersion(value) <==> ValidRuntimeVersion(value)
  {
    DeviceOfIsNumbered(value, "CPU");
    DeviceOfIsNumbered(value, "GPU");
    DeviceOfIsNumbered(value, "NPU");
    NpuText();
    hide Ascii;
  }

  // ---- normalisation ----

  predicate Keeps(value: bytes) {
    |value| <= MAX_STRING && IsDevice(value)
  }

  function Kept(devices: seq<bytes>): (r: seq<bytes>) {
    if devices == [] then []
    else Kept(devices[..|devices| - 1]) + if Keeps(devices[|devices| - 1]) then [devices[|devices| - 1]] else []
  }

  function Normalized(devices: seq<bytes>): seq<bytes> {
    SortUnique(Less, Kept(devices))
  }

  method NormalizeDevices(devices: seq<bytes>) returns (r: seq<bytes>)
    ensures r == Normalized(devices)
  {
    var normalized: seq<bytes> := [];
    for i := 0 to |devices|
      invariant normalized == Kept(devices[..i])
    {
      assert devices[..i + 1][..i] == devices[..i];
      if |devices[i]| <= MAX_STRING && IsDevice(devices[i]) {
        normalized := normalized + [devices[i]];
      }
    }
    assert devices[..|devices|] == devices;
    return SortUnique(Less, normalized);
  }

  lemma {:induction false} KeptIsFilter(devices: seq<bytes>)
    ensures |Kept(devices)| <= |devices|
    ensures forall d :: d in Kept(devices) <==> d in devices && Keeps(d)
    ensures (forall d :: d in devices ==> Keeps(d)) ==> Kept(devices) == devices
  {
    if devices != [] {
      var front := devices[..|devices| - 1];
      assert devices == front + [devices[|devices| - 1]];
      KeptIsFilter(front);
    }
  }

  /** The kept names, each once, in strictly ascending order; a list already so is left as it is. */
  lemma NormalizedIsAscending(devices: seq<bytes>)
    ensures Ascending(Less, Normalized(devices)) && |Normalized(devices)| <= |devices|
    ensures forall d :: d in Normalized(devices) <==> d in devices && Keeps(d)
    ensures Ascending(Less, devices) && (forall d :: d in devices ==> Keeps(d)) ==> Normalized(devices) == devices
  {
    hide Less, Keeps;
    LessStrictTotal();
    KeptIsFilter(devices);
    SortUniqueAscending(Less, Kept(devices));
    SortUniqueLength(Kept(devices));
    if Ascending(Less, devices) && forall d :: d in devices ==> Keeps(d) {
      SortUniqueFixed(Less, devices);
    }
  }

  lemma SortUniqueLength(s: seq<bytes>)
    ensures |SortUnique(Less, s)| <= |s|
  {
    assert multiset(Sort(Less, s)) == multiset(s);
    assert |Sort(Less, s)| == |multiset(Sort(Less, s))| == |multiset(s)| == |s|;
  }

  /** The names of a normalised list are what the reader takes, as long as it is a list of at most 64 with an NPU. */
  lemma NormalizedIsValid(devices: seq<bytes>)
    requires Normalized(devices) == devices && |devices| <= MAX_OBSERVATIONS && exists d :: d in devices && IsNpu(d)
    ensures ValidDeviceList(devices, false) && HasNpu(devices)
    ensures (forall d :: d in devices ==> IsNpu(d)) ==> ValidDeviceList(devices, true)
  {
    hide Normalized, IsDevice, IsNpu, IsDeviceName, IsNpuName, Less;
    NormalizedIsAscending(devices);
    forall i | 0 <= i < |devices|
      ensures |devices[i]| <= MAX_STRING && IsDeviceName(devices[i]) && (IsNpu(devices[i]) <==> IsNpuName(devices[i]))
    {
      assert devices[i] in devices;
      NamesAgree(devices[i]);
    }
    var d :| d in devices && IsNpu(d);
    var i :| 0 <= i < |devices| && devices[i] == d;
    assert IsNpuName(devices[i]);
  }

  /** Conversely, what the reader takes is normalised. */
  lemma ValidIsNormalized(devices: seq<bytes>)
    requires ValidDeviceList(devices, false)
    ensures Normalized(devices) == devices
  {
    hide Normalized, Less, IsDevice, IsDeviceName;
    forall d | d in devices ensures Keeps(d) {
      var i :| 0 <= i < |devices| && devices[i] == d;
      NamesAgree(d);
    }
    LessStrictTotal();
    NeighboursAscending(devices, |devices|);
    NormalizedIsAscending(devices);
  }

  lemma {:induction false} NeighboursAscending(s: seq<bytes>, n: nat)
    requires StrictTotal(Less) && Neighbours(Less, s) && n <= |s|
    ensures forall i, j :: 0 <= i < j < n ==> Less(s[i], s[j])
  {
    hide Less;
    if n > 1 {
      NeighboursAscending(s, n - 1);
      forall i | 0 <= i < n - 1 ensures Less(s[i], s[n - 1]) {
        assert Less(s[n - 2], s[n - 1]);
        assert i < n - 2 ==> Less(s[i], s[n - 2]);
      }
    }
  }

  /** The longest prefix of version bytes. */
  function VersionLength(version: bytes): (n: nat)
    ensures n <= |version|
    ensures forall i :: 0 <= i < n ==> IsVersionByte(version[i])
    ensures n < |version| ==> !IsVersionByte(version[n])
  {
    if version == [] || !IsVersionByte(version[0]) then 0
    else
      assert forall i :: 0 < i < |version| ==> version[i] == version[1..][i - 1];
      1 + VersionLength(version[1..])
  }

  lemma {:induction false} VersionEnds(version: bytes, end: nat)
    requires end <= |version| && forall i :: 0 <= i < end ==> IsVersionByte(version[i])
    requires end < |version| ==> !IsVersionByte(version[end])
    ensures VersionLength(version) == end
  {
    if end > 0 {
      VersionEnds(version[1..], end - 1);
    }
  }

  /** The version up to its first byte outside the set, unless that is empty or too long. */
  method NormalizeRuntimeVersion(version: bytes) returns (r: Option<bytes>)
    ensures r.Some? <==> 0 < VersionLength(version) <= MAX_STRING
    ensures r.Some? ==> r.value == version[..VersionLength(version)] && ValidRuntimeVersion(r.value)
  {
    var end := 0;
    while end < |version| && IsVersionByte(version[end])
      invariant 0 <= end <= |version|
      invariant forall i :: 0 <= i < end ==> IsVersionByte(version[i])
    {
      end := end + 1;
    }
    VersionEnds(version, end);
    if end == 0 || end > MAX_STRING {
      return None;
    }
    return Some(version[..end]);
  }

  // ---- validation ----

  predicate AnyNpu(devices: seq<bytes>) {
    exists i :: 0 <= i < |devices| && IsNpu(devices[i])
  }

  function Enumeration(devices: seq<bytes>, version: bytes): ProbeResult {
    if |devices| > MAX_OBSERVATIONS || !IsVersion(version) then Failure(OpenVinoEnumerationFailed)
    else if !AnyNpu(Normalized(devices)) then Failure(OpenVinoNoNpu)
    else ProbeResult(Normalized(devices), [], version, None)
  }

  method ValidateEnumeration(devices: seq<bytes>, version: bytes) returns (r: ProbeResult)
    ensures r == Enumeration(devices, version)
  {
    if |devices| > MAX_OBSERVATIONS || !IsVersion(version) {
      return Failure(OpenVinoEnumerationFailed);
    }
    var normalized := NormalizeDevices(devices);
    if !AnyNpu(normalized) {
      return Failure(OpenVinoNoNpu);
    }
    return ProbeResult(normalized, [], version, None);
  }

  function WrongExecution(devices: seq<bytes>): Option<OpenVinoError> {
    if devices == [] || |devices| > MAX_OBSERVATIONS
       || exists i :: 0 <= i < |devices| && !(|devices[i]| <= MAX_STRING && IsNpu(devices[i])) then
      Some(OpenVinoWrongDevice)
    else None
  }

  // ---- rendering ----

  function FailureReport(mode: ProbeMode, code: ErrorCode): Report {
    Report(PROBE_SCHEMA_VERSION, OpenVino, mode, FailOutcome, NoObservations, Some(code))
  }

  function PassReport(mode: ProbeMode, observations: Observations): Report {
    Report(PROBE_SCHEMA_VERSION, OpenVino, mode, PassOutcome, observations, None)
  }

  /** The report of an enumeration. */
  function EnumerateReportOf(result: ProbeResult): Report {
    if result.error.Some? then FailureReport(Enumerate, result.error.value)
    else PassReport(Enumerate, OpenVinoEnumerated(result.availableDevices, result.runtimeVersion))
  }

  /** The report of an inference. */
  function InferReportOf(result: ProbeResult): Report {
    if result.error.Some? then FailureReport(Infer, result.error.value)
    else
      PassReport(Infer, OpenVinoInferred(result.availableDevices, result.executionDevices, result.runtimeVersion,
                                         Ascii(GRAPH_ID), ITERATIONS, TOLERANCE))
  }

  predicate HasNoObservations(result: ProbeResult) {
    result.availableDevices == [] && result.executionDevices == [] && result.runtimeVersion == []
  }

  /** What render_enumerate_report asks of a result: no observations beside an error, else a normalised enumeration. */
  predicate RendersEnumeration(result: ProbeResult) {
    if result.error.Some? then HasNoObservations(result)
    else
      var enumeration := Enumeration(result.availableDevices, result.runtimeVersion);
      && enumeration.error.None? && enumeration.availableDevices == result.availableDevices
      && result.executionDevices == []
  }

  /** What render_infer_report asks of a result. */
  predicate RendersInference(result: ProbeResult) {
    if result.error.Some? then HasNoObservations(result)
    else
      var enumeration := Enumeration(result.availableDevices, result.runtimeVersion);
      && enumeration.error.None? && enumeration.availableDevices == result.availableDevices
      && WrongExecution(result.executionDevices).None?
      && Normalized(result.executionDevices) == result.executionDevices
  }

  /** A passing enumeration is rendered exactly when its report is one the reader accepts. */
  lemma EnumerationRendersIffValid(result: ProbeResult)
    requires result.error.None? && result.executionDevices == []
    ensures RendersEnumeration(result) <==> ValidReport(EnumerateReportOf(result))
  {
    EnumerationIffValid(result.availableDevices, result.runtimeVersion);
    hide Enumeration, ValidDeviceList, HasNpu, ValidRuntimeVersion;
  }

  lemma EnumerationIffValid(devices: seq<bytes>, version: bytes)
    ensures Enumeration(devices, version) == ProbeResult(devices, [], version, None)
       <==> ValidDeviceList(devices, false) && HasNpu(devices) && ValidRuntimeVersion(version)
    ensures var e := Enumeration(devices, version);
            e.error.None? ==> e.executionDevices == [] && e.runtimeVersion == version
  {
    hide Normalized, IsNpu, IsNpuName, IsVersion, ValidRuntimeVersion;
    NamesAgree(version);
    AnyNpuAgrees(devices);
    if Enumeration(devices, version) == ProbeResult(devices, [], version, None) {
      var i :| 0 <= i < |devices| && IsNpu(devices[i]);
      assert devices[i] in devices;
      NormalizedIsValid(devices);
    }
    if ValidDeviceList(devices, false) {
      ValidIsNormalized(devices);
    }
  }

  lemma AnyNpuAgrees(devices: seq<bytes>)
    ensures AnyNpu(devices) <==> HasNpu(devices)
  {
    hide IsNpu, IsNpuName;
    forall i | 0 <= i < |devices| ensures IsNpu(devices[i]) <==> IsNpuName(devices[i]) {
      NamesAgree(devices[i]);
    }
  }

  /** A passing inference is rendered exactly when its report is one the reader accepts. */
  lemma InferenceRendersIffValid(result: ProbeResult)
    requires result.error.None?
    ensures RendersInference(result) <==> ValidReport(InferReportOf(result))
  {
    EnumerationIffValid(result.availableDevices, result.runtimeVersion);
    ExecutionIffValid(result.executionDevices);
    hide Enumeration, ValidDeviceList, HasNpu, ValidRuntimeVersion, WrongExecution, Normalized, Ascii;
  }

  lemma ExecutionIffValid(devices: seq<bytes>)
    ensures WrongExecution(devices).None? && Normalized(devices) == devices <==> ValidDeviceList(devices, true)
  {
    hide Normalized, IsNpu, IsNpuName, IsDeviceName, Less;
    if WrongExecution(devices).None? && Normalized(devices) == devices {
      assert devices[0] in devices && IsNpu(devices[0]);
      NormalizedIsValid(devices);
    }
    if ValidDeviceList(devices, true) {
      ValidIsNormalized(devices);
      forall i | 0 <= i < |devices| ensures |devices[i]| <= MAX_STRING && IsNpu(devices[i]) {
        NamesAgree(devices[i]);
      }
    }
  }

  /** A failing result is rendered exactly when it has no observations; its report is then valid for its mode. */
  lemma FailureIsValid(mode: ProbeMode, code: ErrorCode)
    requires ValidErrorCode(OpenVino, mode, code)
    ensures ValidReport(FailureReport(mode, code))
  {
  }

  lemma NormalizedTwice(devices: seq<bytes>)
    ensures Normalized(Normalized(devices)) == Normalized(devices) && |Normalized(devices)| <= |devices|
  {
    hide Normalized, Less, Keeps;
    NormalizedIsAscending(devices);
    NormalizedIsAscending(Normalized(devices));
  }

  /** Whatever the validation returns is rendered, as a report the reader accepts. */
  lemma ValidatedRenders(devices: seq<bytes>, version: bytes)
    ensures RendersEnumeration(Enumeration(devices, version))
    ensures ValidReport(EnumerateReportOf(Enumeration(devices, version)))
  {
    hide Normalized, AnyNpu, IsVersion, ValidObservations;
    NormalizedTwice(devices);
    var r := Enumeration(devices, version);
    if r.error.None? {
      EnumerationRendersIffValid(r);
    }
  }

  /** The result of an inference: a validated enumeration, and its checked and normalised execution devices. */
  lemma InferredRenders(devices: seq<bytes>, version: bytes, execution: seq<bytes>)
    requires Enumeration(devices, version).error.None? && WrongExecution(execution).None?
    ensures var r := Enumeration(devices, version).(executionDevices := Normalized(execution));
            RendersInference(r) && ValidReport(InferReportOf(r))
  {
    hide Normalized, IsDevice, AnyNpu, IsVersion, Less, ValidObservations, Ascii;
    NormalizedTwice(devices);
    NormalizedTwice(execution);
    NormalizedIsAscending(execution);
    ExecutionKept(execution);
    InferenceRendersIffValid(Enumeration(devices, version).(executionDevices := Normalized(execution)));
  }

  lemma ExecutionKept(execution: seq<bytes>)
    requires WrongExecution(execution).None?
    ensures WrongExecution(Normalized(execution)).None?
  {
    hide Normalized, Less, IsNpu, IsDevice;
    NormalizedIsAscending(execution);
    NormalizedTwice(execution);
    var n := Normalized(execution);
    assert execution[0] in n by {
      NpuIsDevice(execution[0]);
    }
    forall i | 0 <= i < |n| ensures |n[i]| <= MAX_STRING && IsNpu(n[i]) {
      assert n[i] in execution;
      var j :| 0 <= j < |execution| && execution[j] == n[i];
    }
  }

  lemma NpuIsDevice(value: bytes)
    requires IsNpu(value)
    ensures IsDevice(value)
  {
    hide Ascii, IsNpu, IsDevice, IsNumbered;
    NamesAgree(value);
  }

  // ---- the calls of the lists ----

  lemma StringListCalls(ss: seq<bytes>, rest: seq<Call>)
    ensures TreeCalls(Array(Strings(ss)), rest) == [BeginArray] + ItemCalls(Strings(ss)[0..], [EndArray] + rest)
    ensures ItemCalls(Strings(ss)[|ss|..], [EndArray] + rest) == [EndArray] + rest
  {
    assert Strings(ss)[0..] == Strings(ss);
    NoItemCalls(Strings(ss), [EndArray] + rest);
  }

  lemma StringStep(ss: seq<bytes>, i: nat, rest: seq<Call>)
    requires i < |ss|
    ensures ItemCalls(Strings(ss)[i..], rest) == [Str(ss[i])] + ItemCalls(Strings(ss)[i + 1..], rest)
  {
    ItemStep(Strings(ss), i, rest);
  }

  method WriteDevices(writer: Writer, devices: seq<bytes>, ghost report: Report, ghost rest: seq<Call>)
    returns (r: Result<(), Error>)
    requires Follows(writer, report, TreeCalls(Array(Strings(devices)), rest))
    modifies writer
    ensures Reached(r, writer, report, rest)
  {
    hide TreeCalls, ItemCalls, ReportRun, Run, Verdict, Next, Apply, EventOf, Nested, Writer.Valid;
    StringListCalls(devices, rest);
    :- writer.BeginArray();
    for i := 0 to |devices|
      invariant Follows(writer, report, ItemCalls(Strings(devices)[i..], [EndArray] + rest))
    {
      StringStep(devices, i, [EndArray] + rest);
      :- writer.Str(devices[i]);
    }
    :- writer.EndArray();
    return Ok(());
  }

  lemma EnumerationCalls(devices: seq<bytes>, version: bytes, rest: seq<Call>)
    ensures TreeCalls(ObservationsTree(OpenVinoEnumerated(devices, version)), rest)
         == [BeginObject] + ([Key(Ascii("available_devices"))] + TreeCalls(Array(Strings(devices)),
            [Key(Ascii("runtime_version"))] + ([Str(version)] + ([EndObject] + rest))))
  {
    var values := [Array(Strings(devices)), String(version)];
    hide Ascii, FieldCalls, TreeCalls, Record;
    var last := [EndObject] + rest;
    RecordCalls(ENUMERATION_KEYS, values, rest);
    FieldStep(ENUMERATION_KEYS, values, 0, last);
    ScalarField(ENUMERATION_KEYS, values, 1, last, Str(version));
    FieldsDone(ENUMERATION_KEYS, values, last);
  }

  method WriteEnumeration(
    writer: Writer, devices: seq<bytes>, version: bytes, ghost report: Report, ghost rest: seq<Call>)
    returns (r: Result<(), Error>)
    requires Follows(writer, report, TreeCalls(ObservationsTree(OpenVinoEnumerated(devices, version)), rest))
    modifies writer
    ensures Reached(r, writer, report, rest)
  {
    hide TreeCalls, ObservationsTree, ReportRun, Run, Verdict, Next, Apply, EventOf, Nested, Ascii, Writer.Valid;
    EnumerationCalls(devices, version, rest);
    :- writer.BeginObject();
    :- writer.Key(Ascii("available_devices"));
    ghost var after := [Key(Ascii("runtime_version"))] + ([Str(version)] + ([EndObject] + rest));
    var _ :- WriteDevices(writer, devices, report, after);
    :- writer.Key(Ascii("runtime_version"));
    :- writer.Str(version);
    :- writer.EndObject();
    return Ok(());
  }

  /** The calls of an inference after its two lists. */
  function NeutralCalls(version: bytes, graph: bytes, rest: seq<Call>): seq<Call> {
    [Key(Ascii("runtime_version"))] + ([Str(version)] + ([Key(Ascii("graph_id"))] + ([Str(graph)]
    + ConstantCalls(rest))))
  }

  function ConstantCalls(rest: seq<Call>): seq<Call> {
    [Key(Ascii("iterations"))] + ([UnsignedInteger(ITERATIONS)]
    + ([Key(Ascii("tolerance"))] + ([DecimalNumber(Finite(ToleranceText()))] + ([EndObject] + rest))))
  }

  /** What std::to_chars makes of 0.001. */
  function ToleranceText(): NumberText {
    ToleranceIsDecimal();
    Ascii(TOLERANCE_TEXT)
  }

  lemma ToleranceIsDecimal()
    ensures IsNumber(Ascii(TOLERANCE_TEXT)) && !IsInteger(Ascii(TOLERANCE_TEXT))
  {
    ToleranceModest();
    AsciiTolerance();
    hide Ascii;
    assert !IsDigit(Ascii(TOLERANCE_TEXT)[1]);
  }

  lemma ToleranceCall()
    ensures CallFor(Number(Ascii(TOLERANCE_TEXT))) == DecimalNumber(Finite(ToleranceText()))
  {
    ToleranceIsDecimal();
  }

  lemma NeutralFields(values: seq<Json>, version: bytes, graph: bytes, rest: seq<Call>)
    requires |values| == 6 && values[2] == String(version) && values[3] == String(graph)
    requires !values[4].Array? && !values[4].Object? && CallFor(values[4]) == UnsignedInteger(ITERATIONS)
    requires !values[5].Array? && !values[5].Object? && CallFor(values[5]) == DecimalNumber(Finite(ToleranceText()))
    ensures FieldCalls(INFERENCE_KEYS[2..], values[2..], [EndObject] + rest) == NeutralCalls(version, graph, rest)
  {
    hide Ascii, FieldCalls, Decimal, IsNumber, IsInteger, ToleranceText, ConstantCalls;
    var last := [EndObject] + rest;
    ScalarField(INFERENCE_KEYS, values, 2, last, Str(version));
    ScalarField(INFERENCE_KEYS, values, 3, last, Str(graph));
    ConstantFields(values, rest);
  }

  lemma ConstantFields(values: seq<Json>, rest: seq<Call>)
    requires |values| == 6
    requires !values[4].Array? && !values[4].Object? && CallFor(values[4]) == UnsignedInteger(ITERATIONS)
    requires !values[5].Array? && !values[5].Object? && CallFor(values[5]) == DecimalNumber(Finite(ToleranceText()))
    ensures FieldCalls(INFERENCE_KEYS[4..], values[4..], [EndObject] + rest) == ConstantCalls(rest)
  {
    hide Ascii, FieldCalls, IsNumber, ToleranceText, CallFor;
    var last := [EndObject] + rest;
    ScalarField(INFERENCE_KEYS, values, 4, last, UnsignedInteger(ITERATIONS));
    ScalarField(INFERENCE_KEYS, values, 5, last, DecimalNumber(Finite(ToleranceText())));
    FieldsDone(INFERENCE_KEYS, values, last);
  }

  lemma InferenceCalls(devices: seq<bytes>, execution: seq<bytes>, version: bytes, graph: bytes, rest: seq<Call>)
    ensures var o := OpenVinoInferred(devices, execution, version, graph, ITERATIONS, TOLERANCE);
            TreeCalls(ObservationsTree(o), rest)
            == [BeginObject] + ([Key(Ascii(INFERENCE_KEYS[0]))] + TreeCalls(Array(Strings(devices)),
               [Key(Ascii(INFERENCE_KEYS[1]))]
               + TreeCalls(Array(Strings(execution)), NeutralCalls(version, graph, rest))))
  {
    var values := [Array(Strings(devices)), Array(Strings(execution)), String(version), String(graph),
                   Number(Decimal(ITERATIONS)), Number(Ascii(TOLERANCE_TEXT))];
    hide Ascii, FieldCalls, TreeCalls, Record, NeutralCalls, Decimal, CallFor, ToleranceText, IsNumber;
    ToleranceCall();
    IntegerCall(ITERATIONS);
    var last := [EndObject] + rest;
    RecordCalls(INFERENCE_KEYS, values, rest);
    FieldStep(INFERENCE_KEYS, values, 0, last);
    FieldStep(INFERENCE_KEYS, values, 1, last);
    NeutralFields(values, version, graph, rest);
  }

  method WriteNeutral(writer: Writer, version: bytes, graph: bytes, ghost report: Report, ghost rest: seq<Call>)
    returns (r: Result<(), Error>)
    requires Follows(writer, report, NeutralCalls(version, graph, rest))
    modifies writer
    ensures Reached(r, writer, report, rest)
  {
    hide ConstantCalls, ReportRun, Run, Verdict, Next, Apply, EventOf, Nested, Ascii, IsNumber, Writer.Valid;
    :- writer.Key(Ascii("runtime_version"));
    :- writer.Str(version);
    :- writer.Key(Ascii("graph_id"));
    :- writer.Str(graph);
    r := WriteConstants(writer, report, rest);
  }

  method WriteConstants(writer: Writer, ghost report: Report, ghost rest: seq<Call>) returns (r: Result<(), Error>)
    requires Follows(writer, report, ConstantCalls(rest))
    modifies writer
    ensures Reached(r, writer, report, rest)
  {
    hide ToleranceText, ReportRun, Run, Verdict, Next, Apply, EventOf, Nested, Ascii, IsNumber, Writer.Valid;
    :- writer.Key(Ascii("iterations"));
    :- writer.UnsignedInteger(ITERATIONS);
    :- writer.Key(Ascii("tolerance"));
    :- writer.DecimalNumber(Finite(ToleranceText()));
    :- writer.EndObject();
    return Ok(());
  }

  method WriteInference(
    writer: Writer, devices: seq<bytes>, execution: seq<bytes>, version: bytes, graph: bytes, ghost report: Report,
    ghost rest: seq<Call>)
    returns (r: Result<(), Error>)
    requires Follows(writer, report,
                     TreeCalls(ObservationsTree(OpenVinoInferred(devices, execution, version, graph,
                                                                 ITERATIONS, TOLERANCE)), rest))
    modifies writer
    ensures Reached(r, writer, report, rest)
  {
    hide TreeCalls, ObservationsTree, NeutralCalls, ReportRun, Run, Verdict, Next, Apply, EventOf, Nested, Ascii;
    hide Writer.Valid;
    InferenceCalls(devices, execution, version, graph, rest);
    ghost var neutral := NeutralCalls(version, graph, rest);
    ghost var second := [Key(Ascii("execution_devices"))] + TreeCalls(Array(Strings(execution)), neutral);
    :- writer.BeginObject();
    :- writer.Key(Ascii("available_devices"));
    var _ :- WriteDevices(writer, devices, report, second);
    :- writer.Key(Ascii("execution_devices"));
    var _ :- WriteDevices(writer, execution, report, neutral);
    r := WriteNeutral(writer, version, graph, report, rest);
  }

  lemma Renders(report: Report, mode: ProbeMode)
    ensures ReportRun(FailureReport(mode, OpenVinoInternalFailure)).Ok?
    ensures ReportRun(report).Threw? ==> Rendered(report) == Threw(ReportRun(report).error)
    ensures ValidReport(report) ==> Rendered(report) == Ok(Text(ReportTree(report)))
  {
    hide ReportRun, ReportTree, Print;
    FailureIsValid(mode, OpenVinoInternalFailure);
    ValidReportRuns(FailureReport(mode, OpenVinoInternalFailure));
    if ValidReport(report) {
      ValidReportRuns(report);
    }
  }

  /** render_enumerate_report: any result but a clean failure or a normalised enumeration is refused. */
  method RenderEnumerateReport(result: ProbeResult) returns (r: Result<bytes, Error>)
    ensures r == if RendersEnumeration(result) then Rendered(EnumerateReportOf(result)) else Threw(InvalidArgument)
  {
    hide TreeCalls, FieldsFrom, ReportTree, ObservationsTree, Run, ReportCalls, Verdict, Next, Print, ReportRun;
    hide Rendered, ValidReport, Normalized, AnyNpu, IsVersion, Ascii, Writer.Valid;
    ghost var renders := RendersEnumeration(result);
    ghost var report :=
      if renders then EnumerateReportOf(result) else FailureReport(Enumerate, OpenVinoInternalFailure);
    Renders(report, Enumerate);
    var writer := new Writer(LIMITS, ReportCalls(report));
    Started(writer, report);
    var _ :- BeginReport(writer, OpenVino, Enumerate, report);
    if result.error.Some? {
      if !HasNoObservations(result) {
        return Threw(InvalidArgument);
      }
      var _ :- WriteFailure(writer, result.error.value, report);
    } else {
      var validated := ValidateEnumeration(result.availableDevices, result.runtimeVersion);
      if validated.error.Some? || validated.availableDevices != result.availableDevices
         || result.executionDevices != [] {
        return Threw(InvalidArgument);
      }
      var _ :- BeginPassing(writer, report);
      var _ :- WriteEnumeration(writer, result.availableDevices, result.runtimeVersion, report, FieldsFrom(report, 5));
      var _ :- EndPassing(writer, report);
    }
    r := EndReport(writer, report);
  }

  /** render_infer_report: any result but a clean failure or a normalised inference is refused. */
  method RenderInferReport(result: ProbeResult) returns (r: Result<bytes, Error>)
    ensures r == if RendersInference(result) then Rendered(InferReportOf(result)) else Threw(InvalidArgument)
  {
    hide TreeCalls, FieldsFrom, ReportTree, ObservationsTree, Run, ReportCalls, Verdict, Next, Print, ReportRun;
    hide Rendered, ValidReport, Normalized, AnyNpu, IsVersion, WrongExecution, Ascii, Writer.Valid;
    ghost var renders := RendersInference(result);
    ghost var report := if renders then InferReportOf(result) else FailureReport(Infer, OpenVinoInternalFailure);
    Renders(report, Infer);
    var writer := new Writer(LIMITS, ReportCalls(report));
    Started(writer, report);
    var _ :- BeginReport(writer, OpenVino, Infer, report);
    if result.error.Some? {
      if !HasNoObservations(result) {
        return Threw(InvalidArgument);
      }
      var _ :- WriteFailure(writer, result.error.value, report);
    } else {
      var enumeration := ValidateEnumeration(result.availableDevices, result.runtimeVersion);
      var execution := NormalizeDevices(result.executionDevices);
      if enumeration.error.Some? || enumeration.availableDevices != result.availableDevices
         || WrongExecution(result.executionDevices).Some? || execution != result.executionDevices {
        return Threw(InvalidArgument);
      }
      var _ :- BeginPassing(writer, report);
      var _ :- WriteInference(writer, result.availableDevices, result.executionDevices, result.runtimeVersion,
                              Ascii(GRAPH_ID), report, FieldsFrom(report, 5));
      var _ :- EndPassing(writer, report);
    }
    r := EndReport(writer, report);
  }
}
