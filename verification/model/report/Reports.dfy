/** Valid reports, the one tree each is written as, and the reader's round trip. */
module Reports {
  import opened Bytes
  import opened Json
  import opened Options
  import opened Ordering
  import opened Protocol
  import opened Sizes
  import opened StrictJson
  import JsonCalls
  import Utf8

  /** The reports of protocol version one. */
  predicate ValidReport(r: Report) {
    && r.schemaVersion == PROBE_SCHEMA_VERSION
    && (r.probe.LevelZero? ==> r.mode.Enumerate?)
    && match r.outcome
       case FailOutcome =>
         && r.observations.NoObservations? && r.errorCode.Some?
         && ValidErrorCode(r.probe, r.mode, r.errorCode.value)
       case PassOutcome => r.errorCode.None? && ValidObservations(r.probe, r.mode, r.observations)
  }

  predicate ValidObservations(probe: ProbeKind, mode: ProbeMode, o: Observations) {
    match o
    case NoObservations => false
    case LevelZeroSeen(devices) => probe.LevelZero? && ValidLevelZero(devices)
    case OpenVinoEnumerated(devices, version) =>
      && probe.OpenVino? && mode.Enumerate?
      && ValidDeviceList(devices, false) && HasNpu(devices) && ValidRuntimeVersion(version)
    case OpenVinoInferred(devices, execution, version, graph, iterations, tolerance) =>
      && probe.OpenVino? && mode.Infer? && ValidDeviceList(devices, false) && HasNpu(devices)
      && ValidDeviceList(execution, true) && ValidRuntimeVersion(version)
      && graph == Ascii(GRAPH_ID) && iterations == ITERATIONS && tolerance == TOLERANCE
  }

  // ---- the tree of a report ----

  function Fields(names: seq<string>, values: seq<Json>): (ms: seq<Member>)
    requires |names| == |values|
    ensures |ms| == |names|
    ensures forall i :: 0 <= i < |names| ==> ms[i] == Member(Ascii(names[i]), values[i])
  {
    if names == [] then [] else [Member(Ascii(names[0]), values[0])] + Fields(names[1..], values[1..])
  }

  function Record(names: seq<string>, values: seq<Json>): Json
    requires |names| == |values|
  {
    Object(Fields(names, values))
  }

  function Strings(ss: seq<bytes>): (items: seq<Json>)
    ensures |items| == |ss| && forall i :: 0 <= i < |ss| ==> items[i] == String(ss[i])
  {
    if ss == [] then [] else [String(ss[0])] + Strings(ss[1..])
  }

  const DEVICE_KEYS := ["vendor_id", "device_id", "driver_version"]
  const LEVEL_ZERO_KEYS := ["vpu_devices"]
  const ENUMERATION_KEYS := ["available_devices", "runtime_version"]
  const INFERENCE_KEYS := [
    "available_devices", "execution_devices", "runtime_version", "graph_id", "iterations", "tolerance"
  ]
  const TOLERANCE_TEXT := "0.001"

  function DeviceTree(d: LevelZeroDevice): Json {
    Record(DEVICE_KEYS, [String(d.vendorId), String(d.deviceId), Number(Decimal(d.driverVersion))])
  }

  function DeviceTrees(devices: seq<LevelZeroDevice>): (items: seq<Json>)
    ensures |items| == |devices| && forall i :: 0 <= i < |devices| ==> items[i] == DeviceTree(devices[i])
  {
    if devices == [] then [] else [DeviceTree(devices[0])] + DeviceTrees(devices[1..])
  }

  function ObservationsTree(o: Observations): Json {
    match o
    case NoObservations => Object([])
    case LevelZeroSeen(devices) => Record(LEVEL_ZERO_KEYS, [Array(DeviceTrees(devices))])
    case OpenVinoEnumerated(devices, version) =>
      Record(ENUMERATION_KEYS, [Array(Strings(devices)), String(version)])
    case OpenVinoInferred(devices, execution, version, graph, iterations, _) =>
      Record(INFERENCE_KEYS, [Array(Strings(devices)), Array(Strings(execution)), String(version), String(graph),
                              Number(Decimal(iterations)), Number(Ascii(TOLERANCE_TEXT))])
  }

  function CodeTree(code: Option<ErrorCode>): Json {
    if code.None? then Null else String(Ascii(CodeName(code.value)))
  }

  function ReportValues(r: Report): seq<Json> {
    [Number(Decimal(r.schemaVersion)), String(Ascii(ProbeName(r.probe))), String(Ascii(ModeName(r.mode))),
     String(Ascii(OutcomeName(r.outcome))), ObservationsTree(r.observations), CodeTree(r.errorCode)]
  }

  function ReportTree(r: Report): Json {
    Record(KEYS, ReportValues(r))
  }

  // ---- reading a record back ----

  predicate DistinctNames(names: seq<string>) {
    AsciiNames(names) && forall i, j :: 0 <= i < j < |names| ==> names[i] != names[j]
  }

  predicate AsciiNames(names: seq<string>) {
    forall i :: 0 <= i < |names| ==> IsAscii(names[i])
  }

  lemma RecordIsStrict(names: seq<string>, values: seq<Json>)
    requires |names| == |values| && DistinctNames(names)
    requires forall i :: 0 <= i < |names| ==> Strict(values[i]).Some?
    ensures StrictMembers(Fields(names, values)).Some?
  {
    hide Ascii, Strict, StrictMembers;
    var members := Fields(names, values);
    forall m | m in members ensures UnrepeatedMember(m) {
      var i :| 0 <= i < |members| && members[i] == m;
      StrictIffUnrepeated(values[i]);
    }
    forall i, j | 0 <= i < j < |members| ensures members[i].key != members[j].key {
      AsciiInjective(names[i], names[j]);
    }
    StrictMembersIff(members);
  }

  lemma HoldsNames(fields: map<bytes, StrictValue>, names: seq<string>, values: seq<Json>)
    requires |names| == |values| && Holds(fields, Fields(names, values))
    ensures HasExactly(fields, names)
    ensures forall i :: 0 <= i < |names| ==> Strict(values[i]) == Some(fields[Ascii(names[i])])
  {
    hide Ascii, Strict, StrictMembers, HasKey;
    var members := Fields(names, values);
    forall i | 0 <= i < |names|
      ensures Ascii(names[i]) in fields && Strict(values[i]) == Some(fields[Ascii(names[i])])
    {
      assert members[i] == Member(Ascii(names[i]), values[i]);
      assert members[i].key in fields;
    }
  }

  lemma FieldsOfNames(fields: map<bytes, StrictValue>, names: seq<string>, stricts: seq<StrictValue>)
    requires |names| == |stricts| && HasExactly(fields, names)
    requires forall i :: 0 <= i < |names| ==> fields[Ascii(names[i])] == stricts[i]
    ensures FieldsOf(ObjectValue(fields), names) == Some(stricts)
  {
    hide Ascii;
    assert FieldsOf(ObjectValue(fields), names).value == stricts;
  }

  lemma RecordIsObject(names: seq<string>, values: seq<Json>)
    requires |names| == |values| && StrictMembers(Fields(names, values)).Some?
    ensures Strict(Record(names, values)) == Some(ObjectValue(StrictMembers(Fields(names, values)).value))
  {
    hide StrictMembers, Fields;
  }

  /** A record written with distinct names reads back, field by field. */
  lemma RecordReads(names: seq<string>, values: seq<Json>, stricts: seq<StrictValue>)
    requires |names| == |values| == |stricts| && DistinctNames(names)
    requires forall i :: 0 <= i < |names| ==> Strict(values[i]) == Some(stricts[i])
    ensures Strict(Record(names, values)).Some? && Strict(Record(names, values)).value.ObjectValue?
    ensures FieldsOf(Strict(Record(names, values)).value, names) == Some(stricts)
  {
    hide Ascii, DistinctNames, FieldsOf, StrictMembers, Holds, HasExactly;
    RecordIsStrict(names, values);
    StrictMembersHolds(Fields(names, values));
    RecordIsObject(names, values);
    var fields := StrictMembers(Fields(names, values)).value;
    HoldsNames(fields, names, values);
    FieldsOfNames(fields, names, stricts);
  }

  // ---- reading lists, names and numbers back ----

  lemma {:induction false} AsListReads<T>(items: seq<StrictValue>, read: StrictValue -> Option<T>, xs: seq<T>)
    requires |items| == |xs| && forall i :: 0 <= i < |xs| ==> read(items[i]) == Some(xs[i])
    ensures AsList(items, read) == Some(xs)
  {
    if xs != [] {
      AsListReads(items[1..], read, xs[1..]);
      assert xs == [xs[0]] + xs[1..];
    }
  }

  lemma ArrayReads<T>(trees: seq<Json>, read: StrictValue -> Option<T>, xs: seq<T>)
    requires |trees| == |xs|
    requires forall i :: 0 <= i < |xs| ==> Strict(trees[i]).Some? && read(Strict(trees[i]).value) == Some(xs[i])
    ensures Strict(Array(trees)).Some? && AsListValue(Strict(Array(trees)).value, read) == Some(xs)
  {
    forall x | x in trees ensures Unrepeated(x) {
      var i :| 0 <= i < |trees| && trees[i] == x;
      StrictIffUnrepeated(trees[i]);
    }
    StrictItemsIff(trees);
    AsListReads(StrictItems(trees).value, read, xs);
  }

  lemma StringsRead(ss: seq<bytes>)
    ensures Strict(Array(Strings(ss))).Some? && AsListValue(Strict(Array(Strings(ss))).value, AsString) == Some(ss)
  {
    ArrayReads(Strings(ss), AsString, ss);
  }

  lemma UnsignedReads(n: nat, bound: nat)
    requires n < bound
    ensures AsUnsigned(NumberValue(Decimal(n)), bound) == Some(n)
  {
    DecimalRoundTrip(n);
  }

  /** Digits in front of something that is no digit. */
  lemma DigitsOf(digits: bytes, rest: bytes)
    requires AllDigits(digits) && (rest == [] || !IsDigit(rest[0]))
    ensures LeadingDigits(digits + rest) == |digits| && Digits(digits + rest) == DecimalValue(digits)
  {
    DigitsLead(digits);
    LeadingDigitsAppend(digits, rest);
    assert (digits + rest)[..|digits|] == digits;
  }

  lemma {:induction false} DecimalValueAppend(s: bytes, d: byte)
    requires AllDigits(s) && IsDigit(d)
    ensures DecimalValue(s + [d]) == 10 * DecimalValue(s) + (d - 0x30)
  {
    assert (s + [d])[..|s|] == s;
  }

  lemma ThousandthFraction()
    ensures FractionOf([0x2E, 0x30, 0x30, 0x31]) == 0.001
  {
    var d: bytes := [0x30, 0x30, 0x31];
    DecimalValueAppend([], 0x30);
    DecimalValueAppend([0x30], 0x30);
    DecimalValueAppend([0x30, 0x30], 0x31);
    assert [] + [0x30] == [0x30] && [0x30] + [0x30] == [0x30, 0x30] && [0x30, 0x30] + [0x31] == d;
    assert DecimalValue(d) == 1;
    DigitsOf(d, []);
    assert d + [] == d;
    assert [0x2E, 0x30, 0x30, 0x31][1..] == d;
    assert Pow10(3) == 10 * Pow10(2) && Pow10(2) == 10 * Pow10(1) && Pow10(1) == 10 * Pow10(0);
  }

  lemma ToleranceReads()
    ensures RealOf(Ascii(TOLERANCE_TEXT)) == TOLERANCE
  {
    hide Ascii, RealOf;
    AsciiTolerance();
    ToleranceDenotes([0x2E, 0x30, 0x30, 0x31]);
  }

  lemma ToleranceDenotes(tail: bytes)
    requires tail == [0x2E, 0x30, 0x30, 0x31]
    ensures RealOf([0x30] + tail) == 0.001
  {
    hide FractionOf, IntLength, FracLength, DecimalValue, LeadingDigits;
    var s: bytes := [0x30] + tail;
    assert DecimalValue([]) == 0 by {
      NoDigits();
    }
    DecimalValueAppend([], 0x30);
    assert [] + [0x30] == [0x30];
    DigitsOf([0x30], tail);
    ThousandthFraction();
    ToleranceLengths(tail);
    assert s[1..] == tail && s[1 + 4..] == [];
    assert UnsignedReal(s) == (Digits(s) as real + FractionOf(tail)) * ScaleOf([]);
  }

  lemma NoDigits()
    ensures DecimalValue([]) == 0
  {
  }

  lemma AsciiTolerance()
    ensures Ascii("0.001") == [0x30] + [0x2E, 0x30, 0x30, 0x31]
  {
    assert "0.001"[1..] == ".001" && ".001"[1..] == "001" && "001"[1..] == "01" && "01"[1..] == "1" && "1"[1..] == "";
    assert Ascii("1") == [0x31];
    assert Ascii("01") == [0x30, 0x31];
    assert Ascii("001") == [0x30, 0x30, 0x31];
    assert Ascii(".001") == [0x2E, 0x30, 0x30, 0x31];
  }

  lemma ToleranceLengths(tail: bytes)
    requires tail == [0x2E, 0x30, 0x30, 0x31]
    ensures IntLength([0x30] + tail) == 1 && FracLength(tail) == 4
  {
    var d: bytes := [0x30, 0x30, 0x31];
    assert tail[1..] == d;
    DigitsOf(d, []);
    assert d + [] == d;
  }

  lemma {:induction false} VariantFinds<T>(variants: seq<T>, name: T -> string, x: T)
    requires x in variants && IsAscii(name(x))
    requires forall y :: y in variants ==> IsAscii(name(y)) && (name(y) == name(x) ==> y == x)
    ensures Variant(variants, name, Ascii(name(x))) == Some(x)
  {
    AsciiInjective(name(variants[0]), name(x));
    if variants[0] != x {
      VariantFinds(variants[1..], name, x);
    }
  }

  lemma ProbeReads(p: ProbeKind)
    ensures AsVariant(StringValue(Ascii(ProbeName(p))), PROBES, ProbeName) == Some(p)
  {
    VariantFinds(PROBES, ProbeName, p);
  }

  lemma ModeReads(m: ProbeMode)
    ensures AsVariant(StringValue(Ascii(ModeName(m))), MODES, ModeName) == Some(m)
  {
    VariantFinds(MODES, ModeName, m);
  }

  lemma OutcomeReads(o: ProbeOutcome)
    ensures AsVariant(StringValue(Ascii(OutcomeName(o))), OUTCOMES, OutcomeName) == Some(o)
  {
    VariantFinds(OUTCOMES, OutcomeName, o);
  }

  lemma CodeNamesDiffer(c: ErrorCode, d: ErrorCode)
    requires CodeName(c) == CodeName(d)
    ensures c == d
  {
  }

  lemma LevelZeroCodeIsAscii(c: ErrorCode)
    requires c.LevelZeroPermissionDenied? || c.LevelZeroDependencyUnavailable? || c.LevelZeroNoVpu?
          || c.LevelZeroEnumerationFailed? || c.LevelZeroInternalFailure?
    ensures IsAscii(CodeName(c))
  {
  }

  lemma OpenVinoCodeIsAscii(c: ErrorCode)
    requires c.OpenVinoNoNpu? || c.OpenVinoEnumerationFailed? || c.OpenVinoCompileFailed? || c.OpenVinoWrongDevice?
    ensures IsAscii(CodeName(c))
  {
  }

  lemma CodeNameIsAscii(c: ErrorCode)
    ensures IsAscii(CodeName(c))
  {
    if c.OpenVinoInferenceFailed? || c.OpenVinoOutputInvalid? || c.OpenVinoInternalFailure? {
    } else if c.OpenVinoNoNpu? || c.OpenVinoEnumerationFailed? || c.OpenVinoCompileFailed? || c.OpenVinoWrongDevice? {
      hide CodeName;
      OpenVinoCodeIsAscii(c);
    } else {
      hide CodeName;
      LevelZeroCodeIsAscii(c);
    }
  }

  lemma CodeListed(c: ErrorCode)
    ensures c in CODES
  {
    var k := if c.LevelZeroPermissionDenied? then 0 else if c.LevelZeroDependencyUnavailable? then 1
             else if c.LevelZeroNoVpu? then 2 else if c.LevelZeroEnumerationFailed? then 3
             else if c.LevelZeroInternalFailure? then 4 else if c.OpenVinoNoNpu? then 5
             else if c.OpenVinoEnumerationFailed? then 6 else if c.OpenVinoCompileFailed? then 7
             else if c.OpenVinoWrongDevice? then 8 else if c.OpenVinoInferenceFailed? then 9
             else if c.OpenVinoOutputInvalid? then 10 else 11;
    assert CODES[k] == c;
  }

  lemma CodeReads(c: ErrorCode)
    ensures AsVariant(StringValue(Ascii(CodeName(c))), CODES, CodeName) == Some(c)
  {
    hide CodeName, Ascii, Variant;
    CodeListed(c);
    CodeNameIsAscii(c);
    forall d | d in CODES ensures IsAscii(CodeName(d)) && (CodeName(d) == CodeName(c) ==> d == c) {
      CodeNameIsAscii(d);
      if CodeName(d) == CodeName(c) {
        CodeNamesDiffer(d, c);
      }
    }
    VariantFinds(CODES, CodeName, c);
  }

  // ---- reading observations back ----

  lemma DeviceNames()
    ensures DistinctNames(DEVICE_KEYS)
  {
  }

  lemma EnumerationNames()
    ensures DistinctNames(ENUMERATION_KEYS)
  {
  }

  lemma InferenceNames()
    ensures DistinctNames(INFERENCE_KEYS)
  {
    assert AsciiNames(INFERENCE_KEYS) by {
      InferenceNamesAscii();
    }
    hide AsciiNames;
  }

  lemma InferenceNamesAscii()
    ensures AsciiNames(INFERENCE_KEYS)
  {
  }

  lemma ReportNames()
    ensures DistinctNames(KEYS)
  {
  }

  lemma StrictLeaves(s: bytes, text: bytes)
    ensures Strict(String(s)) == Some(StringValue(s)) && Strict(Number(text)) == Some(NumberValue(text))
  {
  }

  lemma DeviceReads(d: LevelZeroDevice)
    ensures Strict(DeviceTree(d)).Some? && ReadDevice(Strict(DeviceTree(d)).value) == Some(d)
  {
    var values := [String(d.vendorId), String(d.deviceId), Number(Decimal(d.driverVersion))];
    var stricts := [StringValue(d.vendorId), StringValue(d.deviceId), NumberValue(Decimal(d.driverVersion))];
    UnsignedReads(d.driverVersion, 0x1_0000_0000);
    DeviceNames();
    hide Ascii, FieldsOf, Decimal, DistinctNames;
    RecordReads(DEVICE_KEYS, values, stricts);
  }

  lemma LevelZeroReads(devices: seq<LevelZeroDevice>)
    requires ValidLevelZero(devices)
    ensures var t := ObservationsTree(LevelZeroSeen(devices));
            Strict(t).Some? && ReadLevelZero(Strict(t).value) == Accepted(LevelZeroSeen(devices))
  {
    hide Ascii, Strict, FieldsOf, AsList, Decimal, RealOf, ValidLevelZero, ValidDeviceList, HasNpu;
    var list := Array(DeviceTrees(devices));
    forall i | 0 <= i < |devices|
      ensures Strict(DeviceTree(devices[i])).Some?
      ensures ReadDevice(Strict(DeviceTree(devices[i])).value) == Some(devices[i])
    {
      DeviceReads(devices[i]);
    }
    ArrayReads(DeviceTrees(devices), ReadDevice, devices);
    RecordReads(LEVEL_ZERO_KEYS, [list], [Strict(list).value]);
  }

  lemma EnumerationReads(devices: seq<bytes>, version: bytes)
    requires ValidDeviceList(devices, false) && HasNpu(devices) && ValidRuntimeVersion(version)
    ensures var t := ObservationsTree(OpenVinoEnumerated(devices, version));
            Strict(t).Some? && ReadEnumeration(Strict(t).value) == Accepted(OpenVinoEnumerated(devices, version))
  {
    EnumerationNames();
    StrictLeaves(version, []);
    hide Ascii, DistinctNames, Strict, FieldsOf, AsList, Decimal, RealOf, ValidLevelZero, ValidDeviceList, HasNpu;
    var list := Array(Strings(devices));
    StringsRead(devices);
    RecordReads(ENUMERATION_KEYS, [list, String(version)], [Strict(list).value, StringValue(version)]);
  }

  lemma InferenceReads(devices: seq<bytes>, execution: seq<bytes>, version: bytes)
    requires ValidDeviceList(devices, false) && HasNpu(devices)
    requires ValidDeviceList(execution, true) && ValidRuntimeVersion(version)
    ensures var o := OpenVinoInferred(devices, execution, version, Ascii(GRAPH_ID), ITERATIONS, TOLERANCE);
            Strict(ObservationsTree(o)).Some? && ReadInference(Strict(ObservationsTree(o)).value) == Accepted(o)
  {
    InferenceNames();
    StrictLeaves(version, Decimal(ITERATIONS));
    StrictLeaves(Ascii(GRAPH_ID), Ascii(TOLERANCE_TEXT));
    hide Ascii, DistinctNames, Strict, FieldsOf, AsList, Decimal, RealOf, ValidLevelZero, ValidDeviceList, HasNpu;
    var list, busy := Array(Strings(devices)), Array(Strings(execution));
    StringsRead(devices);
    StringsRead(execution);
    UnsignedReads(ITERATIONS, 0x1_0000_0000);
    ToleranceReads();
    RecordReads(
      INFERENCE_KEYS,
      [list, busy, String(version), String(Ascii(GRAPH_ID)), Number(Decimal(ITERATIONS)),
       Number(Ascii(TOLERANCE_TEXT))],
      [Strict(list).value, Strict(busy).value, StringValue(version), StringValue(Ascii(GRAPH_ID)),
       NumberValue(Decimal(ITERATIONS)), NumberValue(Ascii(TOLERANCE_TEXT))]);
  }

  lemma ObservationsRead(probe: ProbeKind, mode: ProbeMode, o: Observations)
    requires ValidObservations(probe, mode, o) && (probe.LevelZero? ==> mode.Enumerate?)
    ensures Strict(ObservationsTree(o)).Some?
    ensures ReadSuccess(probe, mode, Strict(ObservationsTree(o)).value) == Accepted(o)
  {
    hide ObservationsTree, Strict, ReadLevelZero, ReadEnumeration, ReadInference;
    match o {
      case LevelZeroSeen(devices) => LevelZeroReads(devices);
      case OpenVinoEnumerated(devices, version) => EnumerationReads(devices, version);
      case OpenVinoInferred(devices, execution, version, _, _, _) => InferenceReads(devices, execution, version);
    }
  }
}
