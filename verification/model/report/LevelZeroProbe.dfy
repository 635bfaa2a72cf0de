/** The Level Zero probe: from driver records to the report it renders. */
module LevelZeroProbe {
  import opened Bytes
  import opened Folds
  import opened Json
  import opened JsonCalls
  import opened JsonPlans
  import opened JsonRuns
  import opened JsonWriter
  import opened Options
  import opened Ordering
  import opened Protocol
  import opened Reports
  import opened ReportText
  import opened ReportWriter

  datatype DeviceRecord = DeviceRecord(isVpu: bool, vendorId: u32, deviceId: u32)
  datatype DriverRecord = DriverRecord(driverVersion: u32, devices: seq<DeviceRecord>)

  type LevelZeroError = c: ErrorCode | ValidErrorCode(LevelZero, Enumerate, c) witness LevelZeroNoVpu

  datatype ProbeResult = ProbeResult(vpuDevices: seq<LevelZeroDevice>, error: Option<LevelZeroError>)

  // ---- four lowercase hexadecimal digits ----

  function HexQuadText(value: nat): (s: bytes)
    requires value < 0x10000
    ensures IsLowerHexQuad(s)
  {
    [HexDigit(value / 4096), HexDigit(value / 256 % 16), HexDigit(value / 16 % 16), HexDigit(value % 16)]
  }

  /** The text denotes the value, so no two values share a text. */
  lemma HexQuadRoundTrip(value: nat)
    requires value < 0x10000
    ensures HexQuad(HexQuadText(value)) == value
  {
    hide HexDigit, HexValue;
    HexDigitValue(value / 4096);
    HexDigitValue(value / 256 % 16);
    HexDigitValue(value / 16 % 16);
    HexDigitValue(value % 16);
    FourDigits(value);
  }

  lemma FourDigits(value: nat)
    ensures value == value / 4096 * 4096 + value / 256 % 16 * 256 + value / 16 % 16 * 16 + value % 16
  {
    assert value == value / 16 * 16 + value % 16;
    assert value / 16 == value / 256 * 16 + value / 16 % 16;
    assert value / 256 == value / 4096 * 16 + value / 256 % 16;
  }

  lemma HexDigitValue(n: nat)
    requires n < 16
    ensures HexValue(HexDigit(n)) == n
  {
  }

  lemma HexDigitOrder(m: nat, n: nat)
    requires m < 16 && n < 16
    ensures HexDigit(m) < HexDigit(n) <==> m < n
    ensures HexDigit(m) == HexDigit(n) <==> m == n
  {
  }

  lemma LessFour(a: bytes, b: bytes)
    requires |a| == |b| == 4
    ensures Less(a, b) <==>
              || a[0] < b[0]
              || (a[0] == b[0] && (|| a[1] < b[1]
                                   || (a[1] == b[1] && (a[2] < b[2] || (a[2] == b[2] && a[3] < b[3])))))
  {
    assert Less(a, b) <==> a[0] < b[0] || (a[0] == b[0] && Less(a[1..], b[1..]));
    assert Less(a[1..], b[1..]) <==> a[1] < b[1] || (a[1] == b[1] && Less(a[1..][1..], b[1..][1..]));
    assert a[1..][1..] == a[2..] && b[1..][1..] == b[2..];
    assert Less(a[2..], b[2..]) <==> a[2] < b[2] || (a[2] == b[2] && Less(a[2..][1..], b[2..][1..]));
    assert a[2..][1..] == [a[3]] && b[2..][1..] == [b[3]];
    assert Less([a[3]], [b[3]]) <==> a[3] < b[3] by {
      assert [a[3]][1..] == [] && [b[3]][1..] == [];
    }
  }

  /** At a fixed width, the order of the texts is the order of the numbers. */
  lemma HexQuadOrder(m: nat, n: nat)
    requires m < 0x10000 && n < 0x10000
    ensures Less(HexQuadText(m), HexQuadText(n)) <==> m < n
  {
    LessFour(HexQuadText(m), HexQuadText(n));
    HexDigitOrder(m / 4096, n / 4096);
    HexDigitOrder(m / 256 % 16, n / 256 % 16);
    HexDigitOrder(m / 16 % 16, n / 16 % 16);
    HexDigitOrder(m % 16, n % 16);
    hide HexDigit, Less;
    DigitsOrder(m, n);
  }

  lemma DigitsOrder(m: nat, n: nat)
    requires m < 0x10000 && n < 0x10000
    ensures m < n <==>
              || m / 4096 < n / 4096
              || (m / 4096 == n / 4096
                  && (|| m / 256 % 16 < n / 256 % 16
                      || (m / 256 % 16 == n / 256 % 16
                          && (|| m / 16 % 16 < n / 16 % 16 || (m / 16 % 16 == n / 16 % 16 && m % 16 < n % 16)))))
  {
    assert m == m / 16 * 16 + m % 16 && n == n / 16 * 16 + n % 16;
    assert m / 16 == m / 256 * 16 + m / 16 % 16 && n / 16 == n / 256 * 16 + n / 16 % 16;
    assert m / 256 == m / 4096 * 16 + m / 256 % 16 && n / 256 == n / 4096 * 16 + n / 256 % 16;
  }

  function Shifted(value: nat, nibbles: nat): nat {
    if nibbles == 0 then value else Shifted(value, nibbles - 1) / 16
  }

  lemma ShiftedDigits(value: nat)
    ensures Shifted(value, 1) == value / 16 && Shifted(value, 2) == value / 256 && Shifted(value, 3) == value / 4096
  {
    assert Shifted(value, 1) == Shifted(value, 0) / 16;
    assert Shifted(value, 2) == value / 16 / 16;
    assert Shifted(value, 3) == value / 16 / 16 / 16;
  }

  /** hex_quad: out of range above 16 bits; else written from the last digit to the first. */
  method HexQuadOf(value: u32) returns (r: Option<bytes>)
    ensures r == if value > 0xFFFF then None else Some(HexQuadText(value))
  {
    if value > 0xFFFF {
      return None;
    }
    var output: bytes := [0x30, 0x30, 0x30, 0x30];
    var rest: nat := value;
    for index := 4 downto 0
      invariant |output| == 4 && rest == Shifted(value, 4 - index)
      invariant forall k :: index <= k < 4 ==> output[k] == HexDigit(Shifted(value, 3 - k) % 16)
    {
      output := output[index := HexDigit(rest % 16)];
      rest := rest / 16;
    }
    ShiftedDigits(value);
    assert output == HexQuadText(value) by {
      assert output[0] == HexDigit(Shifted(value, 3) % 16) && output[1] == HexDigit(Shifted(value, 2) % 16);
      assert output[2] == HexDigit(Shifted(value, 1) % 16) && output[3] == HexDigit(Shifted(value, 0) % 16);
    }
    return Some(output);
  }

  // ---- map_devices ----

  /** The order devices are sorted by is the one the reader demands. */
  lemma DeviceLessStrictTotal()
    ensures StrictTotal(DeviceLess)
  {
    LessStrictTotal();
  }

  predicate InRange(device: DeviceRecord) {
    device.vendorId <= 0xFFFF && device.deviceId <= 0xFFFF
  }

  function DeviceOf(version: u32, device: DeviceRecord): LevelZeroDevice
    requires InRange(device)
  {
    LevelZeroDevice(HexQuadText(device.vendorId), HexQuadText(device.deviceId), version)
  }

  /** d is the identity of a VPU among the records before device j of driver i. */
  ghost predicate SeenBefore(drivers: seq<DriverRecord>, i: nat, j: nat, d: LevelZeroDevice) {
    exists a, b :: IsVpuAt(drivers, a, b) && (a < i || (a == i && b < j)) && IdentityAt(drivers, a, b, d)
  }

  predicate IsVpuAt(drivers: seq<DriverRecord>, a: int, b: int) {
    0 <= a < |drivers| && 0 <= b < |drivers[a].devices| && drivers[a].devices[b].isVpu
  }

  predicate IdentityAt(drivers: seq<DriverRecord>, a: int, b: int, d: LevelZeroDevice)
    requires IsVpuAt(drivers, a, b)
  {
    InRange(drivers[a].devices[b]) && d == DeviceOf(drivers[a].driverVersion, drivers[a].devices[b])
  }

  /** The bounds on the records: counts, and 16-bit identifiers of the VPUs. */
  ghost predicate Bounded(drivers: seq<DriverRecord>) {
    && |drivers| <= MAX_OBSERVATIONS
    && (forall a :: 0 <= a < |drivers| ==> |drivers[a].devices| <= MAX_OBSERVATIONS)
    && (forall a, b :: IsVpuAt(drivers, a, b) ==> InRange(drivers[a].devices[b]))
  }

  function Failure(code: LevelZeroError): ProbeResult {
    ProbeResult([], Some(code))
  }

  function ReportOf(result: ProbeResult): Report {
    if result.error.Some? then
      Report(PROBE_SCHEMA_VERSION, LevelZero, Enumerate, FailOutcome, NoObservations, result.error)
    else
      Report(PROBE_SCHEMA_VERSION, LevelZero, Enumerate, PassOutcome, LevelZeroSeen(result.vpuDevices), None)
  }

  /**
   map_devices: the distinct VPU identities in ascending order; a failure for
   records out of bounds, for no VPU, and for more than 64 identities.
   */
  method MapDevices(drivers: seq<DriverRecord>) returns (r: ProbeResult)
    ensures r.error.None? ==>
              && Bounded(drivers) && 0 < |r.vpuDevices| <= MAX_OBSERVATIONS && Ascending(DeviceLess, r.vpuDevices)
              && forall d :: d in r.vpuDevices <==> SeenBefore(drivers, |drivers|, 0, d)
    ensures r.error.Some? ==> r.vpuDevices == []
    ensures r.error == Some(LevelZeroNoVpu) <==> Bounded(drivers) && forall d :: !SeenBefore(drivers, |drivers|, 0, d)
    ensures r.error.Some? && r.error != Some(LevelZeroNoVpu) ==> r.error == Some(LevelZeroEnumerationFailed)
    ensures !Bounded(drivers) ==> r.error == Some(LevelZeroEnumerationFailed)
    ensures ValidReport(ReportOf(r))
  {
    if |drivers| > MAX_OBSERVATIONS {
      return Failure(LevelZeroEnumerationFailed);
    }
    var devices: seq<LevelZeroDevice> := [];
    for i := 0 to |drivers|
      invariant forall a :: 0 <= a < i ==> |drivers[a].devices| <= MAX_OBSERVATIONS
      invariant forall a, b :: IsVpuAt(drivers, a, b) && a < i ==> InRange(drivers[a].devices[b])
      invariant forall d :: d in devices <==> SeenBefore(drivers, i, 0, d)
      invariant forall k :: 0 <= k < |devices| ==> IsIdentity(devices[k])
    {
      var driver := drivers[i];
      if |driver.devices| > MAX_OBSERVATIONS {
        return Failure(LevelZeroEnumerationFailed);
      }
      for j := 0 to |driver.devices|
        invariant forall a, b :: IsVpuAt(drivers, a, b) && (a < i || (a == i && b < j)) ==>
                    InRange(drivers[a].devices[b])
        invariant forall d :: d in devices <==> SeenBefore(drivers, i, j, d)
        invariant forall k :: 0 <= k < |devices| ==> IsIdentity(devices[k])
      {
        var device := driver.devices[j];
        if device.isVpu {
          assert IsVpuAt(drivers, i, j);
          var vendor := HexQuadOf(device.vendorId);
          var id := HexQuadOf(device.deviceId);
          if vendor.None? || id.None? {
            return Failure(LevelZeroEnumerationFailed);
          }
          var found := LevelZeroDevice(vendor.value, id.value, driver.driverVersion);
          SeenNext(drivers, i, j, found);
          devices := devices + [found];
        } else {
          SeenSkip(drivers, i, j);
        }
      }
      SeenRow(drivers, i);
    }
    var sorted := SortUnique(DeviceLess, devices);
    DeviceLessStrictTotal();
    SortUniqueAscending(DeviceLess, devices);
    if sorted == [] {
      assert forall d :: d in sorted <==> SeenBefore(drivers, |drivers|, 0, d);
      return Failure(LevelZeroNoVpu);
    }
    assert sorted[0] in devices;
    if |sorted| > MAX_OBSERVATIONS {
      return Failure(LevelZeroEnumerationFailed);
    }
    IdentitiesValid(sorted, devices);
    return ProbeResult(sorted, None);
  }

  predicate IsIdentity(d: LevelZeroDevice) {
    IsLowerHexQuad(d.vendorId) && IsLowerHexQuad(d.deviceId)
  }

  lemma IdentitiesValid(sorted: seq<LevelZeroDevice>, devices: seq<LevelZeroDevice>)
    requires 0 < |sorted| <= MAX_OBSERVATIONS && Ascending(DeviceLess, sorted)
    requires forall d :: d in sorted <==> d in devices
    requires forall k :: 0 <= k < |devices| ==> IsIdentity(devices[k])
    ensures ValidReport(ReportOf(ProbeResult(sorted, None)))
  {
    forall k | 0 <= k < |sorted| ensures IsIdentity(sorted[k]) {
      assert sorted[k] in devices;
    }
    forall i | 0 <= i < |sorted| - 1 ensures DeviceLess(sorted[i], sorted[i + 1]) {
      assert DeviceLess(sorted[i], sorted[i + 1]);
    }
  }

  lemma SeenNext(drivers: seq<DriverRecord>, i: nat, j: nat, found: LevelZeroDevice)
    requires IsVpuAt(drivers, i, j) && IdentityAt(drivers, i, j, found)
    ensures forall d :: SeenBefore(drivers, i, j + 1, d) <==> SeenBefore(drivers, i, j, d) || d == found
  {
    forall d ensures SeenBefore(drivers, i, j + 1, d) <==> SeenBefore(drivers, i, j, d) || d == found {
      if SeenBefore(drivers, i, j, d) {
        var a, b :| IsVpuAt(drivers, a, b) && (a < i || (a == i && b < j)) && IdentityAt(drivers, a, b, d);
        assert a < i || (a == i && b < j + 1);
      }
    }
  }

  lemma SeenSkip(drivers: seq<DriverRecord>, i: nat, j: nat)
    requires !IsVpuAt(drivers, i, j)
    ensures forall d :: SeenBefore(drivers, i, j + 1, d) <==> SeenBefore(drivers, i, j, d)
  {
    forall d | SeenBefore(drivers, i, j, d) ensures SeenBefore(drivers, i, j + 1, d) {
      var a, b :| IsVpuAt(drivers, a, b) && (a < i || (a == i && b < j)) && IdentityAt(drivers, a, b, d);
      assert a < i || (a == i && b < j + 1);
    }
  }

  lemma SeenRow(drivers: seq<DriverRecord>, i: nat)
    requires i < |drivers|
    ensures forall d :: SeenBefore(drivers, i + 1, 0, d) <==> SeenBefore(drivers, i, |drivers[i].devices|, d)
  {
    forall d ensures SeenBefore(drivers, i + 1, 0, d) <==> SeenBefore(drivers, i, |drivers[i].devices|, d) {
      if SeenBefore(drivers, i + 1, 0, d) {
        var a, b :| IsVpuAt(drivers, a, b) && (a < i + 1 || (a == i + 1 && b < 0)) && IdentityAt(drivers, a, b, d);
        assert a < i || (a == i && b < |drivers[i].devices|);
      }
      if SeenBefore(drivers, i, |drivers[i].devices|, d) {
        var a, b :| IsVpuAt(drivers, a, b) && (a < i || (a == i && b < |drivers[i].devices|))
                    && IdentityAt(drivers, a, b, d);
        assert a < i + 1;
      }
    }
  }

  // ---- render_report ----

  /** The calls of the devices from the i-th on, and of the brackets after them. */
  function DeviceCalls(devices: seq<LevelZeroDevice>, i: nat, rest: seq<Call>): seq<Call>
    requires i <= |devices|
  {
    ItemCalls(DeviceTrees(devices)[i..], [EndArray] + ([EndObject] + rest))
  }

  lemma DeviceListCalls(devices: seq<LevelZeroDevice>, rest: seq<Call>)
    ensures TreeCalls(ObservationsTree(LevelZeroSeen(devices)), rest)
         == [BeginObject] + ([Key(Ascii("vpu_devices"))] + ([BeginArray] + DeviceCalls(devices, 0, rest)))
    ensures DeviceCalls(devices, |devices|, rest) == [EndArray] + ([EndObject] + rest)
  {
    var trees := DeviceTrees(devices);
    hide Ascii, FieldCalls, Record, ItemCalls;
    RecordCalls(LEVEL_ZERO_KEYS, [Array(trees)], rest);
    FieldStep(LEVEL_ZERO_KEYS, [Array(trees)], 0, [EndObject] + rest);
    FieldsDone(LEVEL_ZERO_KEYS, [Array(trees)], [EndObject] + rest);
    assert trees[0..] == trees;
    NoItemCalls(trees, [EndArray] + ([EndObject] + rest));
  }

  lemma DeviceFields(d: LevelZeroDevice, rest: seq<Call>)
    ensures TreeCalls(DeviceTree(d), rest)
         == [BeginObject] + ([Key(Ascii("vendor_id"))] + ([Str(d.vendorId)]
            + ([Key(Ascii("device_id"))] + ([Str(d.deviceId)]
            + ([Key(Ascii("driver_version"))] + ([UnsignedInteger(d.driverVersion)] + ([EndObject] + rest)))))))
  {
    var values := [String(d.vendorId), String(d.deviceId), Number(Decimal(d.driverVersion))];
    hide Ascii, FieldCalls, TreeCalls, Record, Decimal, IsNumber, IsInteger;
    RecordCalls(DEVICE_KEYS, values, rest);
    var last := [EndObject] + rest;
    ScalarField(DEVICE_KEYS, values, 0, last, Str(d.vendorId));
    ScalarField(DEVICE_KEYS, values, 1, last, Str(d.deviceId));
    IntegerCall(d.driverVersion);
    ScalarField(DEVICE_KEYS, values, 2, last, UnsignedInteger(d.driverVersion));
    FieldsDone(DEVICE_KEYS, values, last);
  }

  method WriteDevice(writer: Writer, device: LevelZeroDevice, ghost report: Report, ghost rest: seq<Call>)
    returns (r: Result<(), Error>)
    requires Follows(writer, report, TreeCalls(DeviceTree(device), rest))
    modifies writer
    ensures Reached(r, writer, report, rest)
  {
    hide TreeCalls, DeviceTree, ReportRun, Run, Verdict, Next, Apply, EventOf, Nested, Ascii, Writer.Valid;
    DeviceFields(device, rest);
    :- writer.BeginObject();
    :- writer.Key(Ascii("vendor_id"));
    :- writer.Str(device.vendorId);
    :- writer.Key(Ascii("device_id"));
    :- writer.Str(device.deviceId);
    :- writer.Key(Ascii("driver_version"));
    :- writer.UnsignedInteger(device.driverVersion);
    :- writer.EndObject();
    return Ok(());
  }

  method WriteObservations(writer: Writer, devices: seq<LevelZeroDevice>, ghost report: Report, ghost rest: seq<Call>)
    returns (r: Result<(), Error>)
    requires Follows(writer, report, TreeCalls(ObservationsTree(LevelZeroSeen(devices)), rest))
    modifies writer
    ensures Reached(r, writer, report, rest)
  {
    hide TreeCalls, ObservationsTree, ReportRun, Run, Verdict, Next, Apply, EventOf, Nested, Ascii, Writer.Valid;
    DeviceListCalls(devices, rest);
    :- writer.BeginObject();
    :- writer.Key(Ascii("vpu_devices"));
    :- writer.BeginArray();
    hide DeviceCalls;
    for i := 0 to |devices|
      invariant Follows(writer, report, DeviceCalls(devices, i, rest))
    {
      DeviceTreeStep(devices, i, rest);
      var _ :- WriteDevice(writer, devices[i], report, DeviceCalls(devices, i + 1, rest));
    }
    :- writer.EndArray();
    :- writer.EndObject();
    return Ok(());
  }

  lemma DeviceTreeStep(devices: seq<LevelZeroDevice>, i: nat, rest: seq<Call>)
    requires i < |devices|
    ensures DeviceCalls(devices, i, rest) == TreeCalls(DeviceTree(devices[i]), DeviceCalls(devices, i + 1, rest))
  {
    hide TreeCalls, ItemCalls, DeviceTree;
    ItemStep(DeviceTrees(devices), i, [EndArray] + ([EndObject] + rest));
  }

  /**
   render_report: a result with both or neither of devices and an error is
   refused, and so are more than 64 devices; otherwise its report is rendered.
   */
  method RenderReport(result: ProbeResult) returns (r: Result<bytes, Error>)
    ensures r == if result.error.Some? == (result.vpuDevices != []) then Threw(InvalidArgument)
                 else if |result.vpuDevices| > MAX_OBSERVATIONS then Threw(LengthError)
                 else Rendered(ReportOf(result))
    ensures ValidReport(ReportOf(result)) && (result.error.Some? ==> result.vpuDevices == []) ==>
              r == Ok(Text(ReportTree(ReportOf(result))))
  {
    hide TreeCalls, FieldsFrom, ReportTree, ObservationsTree, Run, ReportCalls, Verdict, Next, Print;
    hide Rendered, ValidReport;
    Renders(result);
    if result.error.Some? == (result.vpuDevices != []) {
      return Threw(InvalidArgument);
    }
    ghost var tooMany := |result.vpuDevices| > MAX_OBSERVATIONS;
    ghost var report := if tooMany then ReportOf(Failure(LevelZeroInternalFailure)) else ReportOf(result);
    var writer := new Writer(LIMITS, ReportCalls(report));
    Started(writer, report);
    var _ :- BeginReport(writer, LevelZero, Enumerate, report);
    if result.error.Some? {
      var _ :- WriteFailure(writer, result.error.value, report);
    } else {
      if |result.vpuDevices| > MAX_OBSERVATIONS {
        return Threw(LengthError);
      }
      var _ :- BeginPassing(writer, report);
      var _ :- WriteObservations(writer, result.vpuDevices, report, FieldsFrom(report, 5));
      var _ :- EndPassing(writer, report);
    }
    r := EndReport(writer, report);
  }

  lemma Renders(result: ProbeResult)
    ensures ReportRun(ReportOf(Failure(LevelZeroInternalFailure))).Ok?
    ensures ReportRun(ReportOf(result)).Threw? ==>
              Rendered(ReportOf(result)) == Threw(ReportRun(ReportOf(result)).error)
    ensures ValidReport(ReportOf(result)) ==>
              && (result.error.None? ==> 0 < |result.vpuDevices| <= MAX_OBSERVATIONS)
              && Rendered(ReportOf(result)) == Ok(Text(ReportTree(ReportOf(result))))
  {
    hide ReportRun, ReportTree, Print;
    ValidReportRuns(ReportOf(Failure(LevelZeroInternalFailure)));
    if ValidReport(ReportOf(result)) {
      ValidReportRuns(ReportOf(result));
    }
  }
}
