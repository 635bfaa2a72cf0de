/** The helper report protocol, version one, as the runtime parses and validates it. */
module Protocol {
  import opened Bytes
  import opened Json
  import opened Options
  import opened Ordering
  import opened StrictJson
  import Utf8

  const MAX_PROBE_STDOUT: nat := 65536
  const MAX_OBSERVATIONS: nat := 64
  const MAX_STRING: nat := 256
  const PROBE_SCHEMA_VERSION: nat := 1

  datatype ProbeKind = LevelZero | OpenVino
  datatype ProbeMode = Enumerate | Infer
  datatype ProbeOutcome = PassOutcome | FailOutcome

  datatype ErrorCode =
    | LevelZeroPermissionDenied
    | LevelZeroDependencyUnavailable
    | LevelZeroNoVpu
    | LevelZeroEnumerationFailed
    | LevelZeroInternalFailure
    | OpenVinoNoNpu
    | OpenVinoEnumerationFailed
    | OpenVinoCompileFailed
    | OpenVinoWrongDevice
    | OpenVinoInferenceFailed
    | OpenVinoOutputInvalid
    | OpenVinoInternalFailure

  type u32 = n: nat | n < 0x1_0000_0000

  datatype LevelZeroDevice = LevelZeroDevice(vendorId: bytes, deviceId: bytes, driverVersion: u32)

  datatype Observations =
    | NoObservations
    | LevelZeroSeen(vpuDevices: seq<LevelZeroDevice>)
    | OpenVinoEnumerated(availableDevices: seq<bytes>, runtimeVersion: bytes)
    | OpenVinoInferred(
        availableDevices: seq<bytes>, executionDevices: seq<bytes>, runtimeVersion: bytes, graphId: bytes,
        iterations: nat, tolerance: real)

  datatype Report = Report(
    schemaVersion: nat, probe: ProbeKind, mode: ProbeMode, outcome: ProbeOutcome, observations: Observations,
    errorCode: Option<ErrorCode>)

  datatype ProtocolError = Invalid | UnsupportedSchema(version: nat)

  datatype Reading<+T> = Accepted(value: T) | Rejected(error: ProtocolError) {
    predicate IsFailure() { Rejected? }
    function PropagateFailure<U>(): Reading<U>
      requires Rejected?
    {
      Rejected(error)
    }
    function Extract(): T
      requires Accepted?
    {
      value
    }
  }

  function Found<T>(o: Option<T>): Reading<T> {
    if o.Some? then Accepted(o.value) else Rejected(Invalid)
  }

  function Check(condition: bool): Reading<()> {
    if condition then Accepted(()) else Rejected(Invalid)
  }

  // ---- the names on the wire ----

  function ProbeName(p: ProbeKind): string {
    match p
    case LevelZero => "level_zero"
    case OpenVino => "openvino"
  }

  function ModeName(m: ProbeMode): string {
    match m
    case Enumerate => "enumerate"
    case Infer => "infer"
  }

  function OutcomeName(o: ProbeOutcome): string {
    match o
    case PassOutcome => "pass"
    case FailOutcome => "fail"
  }

  function CodeName(c: ErrorCode): string {
    match c
    case LevelZeroPermissionDenied => "LEVEL_ZERO_PERMISSION_DENIED"
    case LevelZeroDependencyUnavailable => "LEVEL_ZERO_DEPENDENCY_UNAVAILABLE"
    case LevelZeroNoVpu => "LEVEL_ZERO_NO_VPU"
    case LevelZeroEnumerationFailed => "LEVEL_ZERO_ENUMERATION_FAILED"
    case LevelZeroInternalFailure => "LEVEL_ZERO_INTERNAL_FAILURE"
    case OpenVinoNoNpu => "OPENVINO_NO_NPU"
    case OpenVinoEnumerationFailed => "OPENVINO_ENUMERATION_FAILED"
    case OpenVinoCompileFailed => "OPENVINO_COMPILE_FAILED"
    case OpenVinoWrongDevice => "OPENVINO_WRONG_DEVICE"
    case OpenVinoInferenceFailed => "OPENVINO_INFERENCE_FAILED"
    case OpenVinoOutputInvalid => "OPENVINO_OUTPUT_INVALID"
    case OpenVinoInternalFailure => "OPENVINO_INTERNAL_FAILURE"
  }

  const PROBES := [LevelZero, OpenVino]
  const MODES := [Enumerate, Infer]
  const OUTCOMES := [PassOutcome, FailOutcome]
  const CODES := [
    LevelZeroPermissionDenied, LevelZeroDependencyUnavailable, LevelZeroNoVpu, LevelZeroEnumerationFailed,
    LevelZeroInternalFailure, OpenVinoNoNpu, OpenVinoEnumerationFailed, OpenVinoCompileFailed, OpenVinoWrongDevice,
    OpenVinoInferenceFailed, OpenVinoOutputInvalid, OpenVinoInternalFailure
  ]

  /** The variant a name stands for, among those listed. */
  function Variant<T>(variants: seq<T>, name: T -> string, wire: bytes): Option<T> {
    if variants == [] then None
    else if Ascii(name(variants[0])) == wire then Some(variants[0])
    else Variant(variants[1..], name, wire)
  }

  // ---- reading values as fields ----

  /** An enumeration arrives as its name, or as an object with that one key and a null. */
  function EnumName(v: StrictValue): Option<bytes> {
    match v
    case StringValue(s) => Some(s)
    case ObjectValue(fields) =>
      if exists k :: k in fields && fields == map[k := NullValue] then
        var k :| k in fields && fields == map[k := NullValue]; Some(k)
      else None
    case _ => None
  }

  function AsVariant<T>(v: StrictValue, variants: seq<T>, name: T -> string): Option<T> {
    var wire := EnumName(v);
    if wire.None? then None else Variant(variants, name, wire.value)
  }

  function AsString(v: StrictValue): Option<bytes> {
    if v.StringValue? then Some(v.s) else None
  }

  /** An integer literal below the bound; a fraction, an exponent or a sign makes a number no integer. */
  function AsUnsigned(v: StrictValue, bound: nat): (r: Option<nat>)
    ensures r.Some? ==> r.value < bound
  {
    if v.NumberValue? && AllDigits(v.text) && DecimalValue(v.text) < bound then Some(DecimalValue(v.text)) else None
  }

  function Digits(s: bytes): nat {
    DecimalValue(s[..LeadingDigits(s)])
  }

  function FractionOf(s: bytes): real {
    if s != [] && s[0] == 0x2E then Digits(s[1..]) as real / Pow10(LeadingDigits(s[1..])) as real else 0.0
  }

  function ScaleOf(s: bytes): real {
    if s != [] && (s[0] == 0x65 || s[0] == 0x45) then
      if |s| > 1 && s[1] == 0x2D then 1.0 / Pow10(Digits(s[2..])) as real
      else if |s| > 1 && s[1] == 0x2B then Pow10(Digits(s[2..])) as real
      else Pow10(Digits(s[1..])) as real
    else 1.0
  }

  function UnsignedReal(s: bytes): real {
    var i := IntLength(s);
    var f := FracLength(s[i..]);
    if f < 0 then 0.0 else (Digits(s) as real + FractionOf(s[i..])) * ScaleOf(s[i + f..])
  }

  /** The real number a number literal denotes (section 6 of RFC 8259). */
  function RealOf(text: bytes): real {
    if text != [] && text[0] == 0x2D then -UnsignedReal(text[1..]) else UnsignedReal(text)
  }

  function AsReal(v: StrictValue): Option<real> {
    if v.NumberValue? then Some(RealOf(v.text)) else None
  }

  function AsList<T>(items: seq<StrictValue>, read: StrictValue -> Option<T>): Option<seq<T>> {
    if items == [] then Some([])
    else
      var first, more := read(items[0]), AsList(items[1..], read);
      if first.None? || more.None? then None else Some([first.value] + more.value)
  }

  function AsListValue<T>(v: StrictValue, read: StrictValue -> Option<T>): Option<seq<T>> {
    if v.ArrayValue? then AsList(v.items, read) else None
  }

  /** The fields of a structure, in order: an object with exactly these keys, or an array of exactly as many values. */
  function FieldsOf(v: StrictValue, names: seq<string>): (r: Option<seq<StrictValue>>)
    ensures r.Some? ==> |r.value| == |names|
  {
    match v
    case ArrayValue(items) => if |items| == |names| then Some(items) else None
    case ObjectValue(fields) =>
      if HasExactly(fields, names) then
        Some(seq(|names|, i requires 0 <= i < |names| && HasExactly(fields, names) => fields[Ascii(names[i])]))
      else None
    case _ => None
  }

  predicate HasExactly(fields: map<bytes, StrictValue>, names: seq<string>) {
    |fields| == |names| && forall i :: 0 <= i < |names| ==> Ascii(names[i]) in fields
  }

  // ---- validation ----

  predicate IsLowerHexQuad(s: bytes) {
    |s| == 4 && forall i :: 0 <= i < 4 ==> IsDigit(s[i]) || 0x61 <= s[i] <= 0x66
  }

  /** value, or value with its prefix stripped to a nonempty run of digits. */
  predicate IsNumbered(value: bytes, base: string) {
    var dotted := Ascii(base) + [0x2E];
    value == Ascii(base) || (dotted <= value && value[|dotted|..] != [] && AllDigits(value[|dotted|..]))
  }

  predicate IsDeviceName(value: bytes) {
    IsNumbered(value, "CPU") || IsNumbered(value, "GPU") || IsNumbered(value, "NPU")
  }

  predicate IsNpuName(value: bytes) {
    IsNumbered(value, "NPU")
  }

  predicate DeviceLess(a: LevelZeroDevice, b: LevelZeroDevice) {
    if a.vendorId != b.vendorId then Less(a.vendorId, b.vendorId)
    else if a.deviceId != b.deviceId then Less(a.deviceId, b.deviceId)
    else a.driverVersion < b.driverVersion
  }

  /** Each pair of neighbours is in order. */
  predicate Neighbours<T(!new)>(less: (T, T) -> bool, s: seq<T>) {
    forall i :: 0 <= i < |s| - 1 ==> less(s[i], s[i + 1])
  }

  predicate ValidLevelZero(devices: seq<LevelZeroDevice>) {
    && 0 < |devices| <= MAX_OBSERVATIONS
    && (forall i :: 0 <= i < |devices| ==> IsLowerHexQuad(devices[i].vendorId) && IsLowerHexQuad(devices[i].deviceId))
    && Neighbours(DeviceLess, devices)
  }

  predicate ValidDeviceList(devices: seq<bytes>, npuOnly: bool) {
    && 0 < |devices| <= MAX_OBSERVATIONS
    && (forall i :: 0 <= i < |devices| ==>
          |devices[i]| <= MAX_STRING && IsDeviceName(devices[i]) && (npuOnly ==> IsNpuName(devices[i])))
    && Neighbours(Less, devices)
  }

  predicate IsVersionByte(b: byte) {
    || IsDigit(b) || 0x41 <= b <= 0x5A || 0x61 <= b <= 0x7A
    || b == 0x2E || b == 0x2B || b == 0x2D || b == 0x5F
  }

  predicate ValidRuntimeVersion(value: bytes) {
    0 < |value| <= MAX_STRING && forall i :: 0 <= i < |value| ==> IsVersionByte(value[i])
  }

  predicate HasNpu(devices: seq<bytes>) {
    exists i :: 0 <= i < |devices| && IsNpuName(devices[i])
  }

  const GRAPH_ID := "intel-npu-stack-neutral-v1"
  const ITERATIONS: nat := 8
  const TOLERANCE: real := 0.001

  predicate ValidErrorCode(probe: ProbeKind, mode: ProbeMode, code: ErrorCode) {
    match probe
    case LevelZero =>
      || code.LevelZeroPermissionDenied? || code.LevelZeroDependencyUnavailable? || code.LevelZeroNoVpu?
      || code.LevelZeroEnumerationFailed? || code.LevelZeroInternalFailure?
    case OpenVino =>
      || code.OpenVinoNoNpu? || code.OpenVinoEnumerationFailed? || code.OpenVinoInternalFailure?
      || (mode.Infer?
          && (code.OpenVinoCompileFailed? || code.OpenVinoWrongDevice? || code.OpenVinoInferenceFailed?
              || code.OpenVinoOutputInvalid?))
  }

  // ---- observations ----

  function ReadDevice(v: StrictValue): Option<LevelZeroDevice> {
    var fields := FieldsOf(v, ["vendor_id", "device_id", "driver_version"]);
    if fields.None? then None
    else
      var vendor, device := AsString(fields.value[0]), AsString(fields.value[1]);
      var version := AsUnsigned(fields.value[2], 0x1_0000_0000);
      if vendor.None? || device.None? || version.None? then None
      else Some(LevelZeroDevice(vendor.value, device.value, version.value))
  }

  function ReadLevelZero(v: StrictValue): Reading<Observations> {
    var fields :- Found(FieldsOf(v, ["vpu_devices"]));
    var devices :- Found(AsListValue(fields[0], ReadDevice));
    var _ :- Check(ValidLevelZero(devices));
    Accepted(LevelZeroSeen(devices))
  }

  function ReadEnumeration(v: StrictValue): Reading<Observations> {
    var fields :- Found(FieldsOf(v, ["available_devices", "runtime_version"]));
    var devices :- Found(AsListValue(fields[0], AsString));
    var version :- Found(AsString(fields[1]));
    var _ :- Check(ValidDeviceList(devices, false) && HasNpu(devices) && ValidRuntimeVersion(version));
    Accepted(OpenVinoEnumerated(devices, version))
  }

  /** The constants of the neutral inference. */
  predicate IsNeutralRun(graph: bytes, iterations: nat, tolerance: real) {
    graph == Ascii(GRAPH_ID) && iterations == ITERATIONS && tolerance == TOLERANCE
  }

  function ReadInference(v: StrictValue): Reading<Observations> {
    var fields :- Found(FieldsOf(v, ["available_devices", "execution_devices", "runtime_version", "graph_id",
                                     "iterations", "tolerance"]));
    var devices :- Found(AsListValue(fields[0], AsString));
    var execution :- Found(AsListValue(fields[1], AsString));
    var version :- Found(AsString(fields[2]));
    var graph :- Found(AsString(fields[3]));
    var iterations :- Found(AsUnsigned(fields[4], 0x1_0000_0000));
    var tolerance :- Found(AsReal(fields[5]));
    var _ :- Check(ValidDeviceList(devices, false) && HasNpu(devices));
    var _ :- Check(ValidDeviceList(execution, true) && ValidRuntimeVersion(version));
    var _ :- Check(IsNeutralRun(graph, iterations, tolerance));
    Accepted(OpenVinoInferred(devices, execution, version, graph, iterations, tolerance))
  }

  function ReadSuccess(probe: ProbeKind, mode: ProbeMode, v: StrictValue): Reading<Observations> {
    match (probe, mode)
    case (LevelZero, Enumerate) => ReadLevelZero(v)
    case (OpenVino, Enumerate) => ReadEnumeration(v)
    case (OpenVino, Infer) => ReadInference(v)
    case (LevelZero, Infer) => Rejected(Invalid)
  }

  // ---- the report ----

  const KEYS := ["schema_version", "probe", "mode", "outcome", "observations", "error_code"]

  function ReadErrorCode(v: StrictValue): Reading<Option<ErrorCode>> {
    if v.NullValue? then Accepted(None)
    else
      var code :- Found(AsVariant(v, CODES, CodeName));
      Accepted(Some(code))
  }

  /** A passing report has observations and no error code; a failing one the reverse. */
  function ReadOutcome(
    probe: ProbeKind, mode: ProbeMode, outcome: ProbeOutcome, observations: StrictValue, code: Option<ErrorCode>)
    : Reading<Observations>
  {
    match outcome
    case FailOutcome =>
      var _ :- Check(observations == ObjectValue(map[]));
      var c :- Found(code);
      var _ :- Check(ValidErrorCode(probe, mode, c));
      Accepted(NoObservations)
    case PassOutcome =>
      var _ :- Check(code.None?);
      ReadSuccess(probe, mode, observations)
  }

  /** The six top-level fields, in the order of KEYS. */
  function ReadReport(fields: seq<StrictValue>, expectedProbe: ProbeKind, expectedMode: ProbeMode): Reading<Report>
    requires |fields| == 6
  {
    var version :- Found(AsUnsigned(fields[0], 0x1_0000_0000_0000_0000));
    if version != PROBE_SCHEMA_VERSION then Rejected(UnsupportedSchema(version))
    else
      var probe :- Found(AsVariant(fields[1], PROBES, ProbeName));
      var mode :- Found(AsVariant(fields[2], MODES, ModeName));
      var outcome :- Found(AsVariant(fields[3], OUTCOMES, OutcomeName));
      var code :- ReadErrorCode(fields[5]);
      var _ :- Check(probe == expectedProbe && mode == expectedMode && (probe.LevelZero? ==> mode.Enumerate?));
      var observations :- ReadOutcome(probe, mode, outcome, fields[4], code);
      Accepted(Report(version, probe, mode, outcome, observations, code))
  }

  function ReadValue(v: StrictValue, probe: ProbeKind, mode: ProbeMode): Reading<Report> {
    var _ :- Check(v.ObjectValue?);
    var fields :- Found(FieldsOf(v, KEYS));
    ReadReport(fields, probe, mode)
  }

  function ParseProbeOutput(output: bytes, probe: ProbeKind, mode: ProbeMode): Reading<Report> {
    var _ :- Check(output != [] && |output| <= MAX_PROBE_STDOUT && !([0xEF, 0xBB, 0xBF] <= output));
    match Parse(output)
    case Malformed => Rejected(Invalid)
    case Parsed(tree) =>
      var value :- Found(Strict(tree));
      ReadValue(value, probe, mode)
  }
}
