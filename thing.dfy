/**
 * The thing service: classifying a device's sensor readings against its parameter
 * thresholds (getThingValueThreshold, validateThingData) and the in-place updates of a
 * thing's device list and status (updateAssociatedDevice, updateStatusActive,
 * updateStatusInactive, delete). Database lookups are replaced by the values they return.
 */
module ThingService {
  import opened Wrappers
  import Strings

  // ---------------------------------------------------------------------------
  // Data model
  // ---------------------------------------------------------------------------

  /** A named bucket of a parameter's native scale; a reading belongs to it when min <= v < max. */
  datatype Threshold = Threshold(name: string, color: string, min: real, max: real)

  /** A device's configuration for one measured quantity. */
  datatype ParameterStandard = ParameterStandard(
    name: string,
    unit: string,
    weight: real,
    thresholds: seq<Threshold>)

  datatype DeviceStatus = Active | Inactive | PendingSetup

  /** A device of a thing; fields the code can leave unset are optional. */
  datatype Device = Device(
    name: string,
    model: string,
    information: Option<string>,
    status: Option<DeviceStatus>,
    parameterStandards: seq<ParameterStandard>,
    parameterStandardDefault: Option<bool>)

  /** The notification types `TYPE.NORMAL` and `TYPE.WARNING`. */
  datatype ParameterType = Normal | Warning

  /** One parameter whose reading was classified. */
  datatype EvaluatedParameter = EvaluatedParameter(
    name: string,
    unit: string,
    weight: real,
    value: real,
    threshold: Threshold,
    kind: ParameterType)

  /** A device together with the classification of its readings. */
  datatype EvaluatedDevice = EvaluatedDevice(
    name: string,
    model: string,
    status: Option<DeviceStatus>,
    parameterStandards: seq<ParameterStandard>,
    parameterStandardDefault: Option<bool>,
    evaluatedParameterStandards: seq<EvaluatedParameter>)

  /** One reading message: its numeric fields by key; a key that is absent reads as `undefined`. */
  type ThingData = map<string, real>

  // ---------------------------------------------------------------------------
  // getThingValueThreshold
  // ---------------------------------------------------------------------------

  /** The half-open matching test of the forward scan. */
  predicate InThreshold(t: Threshold, v: real) {
    t.min <= v < t.max
  }

  /** The index of the last threshold among the first `k` that contains `v`. */
  function LastMatch(v: real, ts: seq<Threshold>, k: nat): (r: Option<nat>)
    requires k <= |ts|
    ensures r.Some? ==> r.value < k && InThreshold(ts[r.value], v)
    ensures r.Some? ==> forall j :: r.value < j < k ==> !InThreshold(ts[j], v)
    ensures r.None? ==> forall j :: 0 <= j < k ==> !InThreshold(ts[j], v)
  {
    if k == 0 then None
    else if InThreshold(ts[k - 1], v) then Some(k - 1)
    else LastMatch(v, ts, k - 1)
  }

  /** The value of `evaluatedValueThreshold` after the forward scan has looked at `k` thresholds. */
  function ScanResult(v: real, ts: seq<Threshold>, k: nat): Threshold
    requires 0 < |ts| && k <= |ts|
  {
    match LastMatch(v, ts, k)
    case Some(i) => ts[i]
    case None => ts[|ts| - 1]
  }

  /**
   * The threshold a reading is classified into: always one of the list; the last one that
   * contains the reading when several do; the last one of the list when none does.
   */
  function Resolve(v: real, ts: seq<Threshold>): (t: Threshold)
    requires 0 < |ts|
    ensures t in ts
    ensures forall i :: 0 <= i < |ts| && InThreshold(ts[i], v) && (forall j :: i < j < |ts| ==> !InThreshold(ts[j], v)) ==> t == ts[i]
    ensures (forall i :: 0 <= i < |ts| ==> !InThreshold(ts[i], v)) ==> t == ts[|ts| - 1]
    ensures (exists i :: 0 <= i < |ts| && InThreshold(ts[i], v)) ==> InThreshold(t, v)
  {
    ScanResult(v, ts, |ts|)
  }

  /**
   * Adjacent buckets that share a boundary: the boundary value belongs to the upper bucket
   * (min is inclusive, max exclusive), provided no later bucket also contains it.
   */
  lemma ResolveAtSharedBoundary(ts: seq<Threshold>, i: nat)
    requires i + 1 < |ts|
    requires ts[i].max == ts[i + 1].min < ts[i + 1].max
    requires forall j :: i + 1 < j < |ts| ==> !InThreshold(ts[j], ts[i].max)
    ensures !InThreshold(ts[i], ts[i].max)
    ensures Resolve(ts[i].max, ts) == ts[i + 1]
  {
  }

  /** getThingValueThreshold: the forward scan in which every later match overrides earlier ones. */
  method GetThingValueThreshold(value: real, parameter: ParameterStandard) returns (t: Threshold)
    requires 0 < |parameter.thresholds|
    ensures t == Resolve(value, parameter.thresholds)
  {
    var ts := parameter.thresholds;
    t := ts[|ts| - 1];
    var i := 0;
    while i < |ts|
      invariant 0 <= i <= |ts|
      invariant t == ScanResult(value, ts, i)
    {
      if value >= ts[i].min && value < ts[i].max {
        t := ts[i];
      }
      i := i + 1;
    }
  }

  // ---------------------------------------------------------------------------
  // validateThingData
  // ---------------------------------------------------------------------------

  /** The reading key of a parameter: its name lower-cased, with the first '.' removed. */
  function ReadingKey(name: string): string {
    Strings.ReplaceFirst(Strings.ToLower(name), ".", "")
  }

  /** A name without '.' is only lower-cased; a name with one loses exactly one character. */
  lemma ReadingKeyShape(name: string)
    ensures '.' !in name ==> ReadingKey(name) == Strings.ToLower(name)
    ensures '.' in name ==> |ReadingKey(name)| == |name| - 1
  {
    LowerCaseKeepsDots(name);
  }

  /** Lower-casing neither adds nor removes a '.'. */
  lemma LowerCaseKeepsDots(name: string)
    ensures '.' in name <==> exists j: nat :: Strings.OccursAt(Strings.ToLower(name), ".", j)
  {
    var low := Strings.ToLower(name);
    if '.' in name {
      var i :| 0 <= i < |name| && name[i] == '.';
      assert low[i..i + 1] == ".";
      assert Strings.OccursAt(low, ".", i);
    }
    if exists j: nat :: Strings.OccursAt(low, ".", j) {
      var j: nat :| Strings.OccursAt(low, ".", j);
      assert low[j] == low[j..j + 1][0] == '.';
      assert name[j] == '.';
    }
  }

  /** True iff the reading for `p` is truthy: present and not zero. */
  predicate Measured(data: ThingData, p: ParameterStandard) {
    ReadingKey(p.name) in data && data[ReadingKey(p.name)] != 0.0
  }

  /** The type of an entry: NORMAL for a threshold whose name is an acceptable one, WARNING otherwise. */
  function TypeOf(t: Threshold, acceptable: seq<string>): (kind: ParameterType)
    ensures kind == Normal <==> t.name in acceptable
  {
    if t.name in acceptable then Normal else Warning
  }

  /** Every parameter that has a truthy reading has a threshold to fall back on. */
  predicate Evaluable(data: ThingData, ps: seq<ParameterStandard>) {
    forall i :: 0 <= i < |ps| && Measured(data, ps[i]) ==> 0 < |ps[i].thresholds|
  }

  /** The entry pushed for one parameter with a truthy reading. */
  function EvaluateParameter(data: ThingData, p: ParameterStandard, acceptable: seq<string>): (e: EvaluatedParameter)
    requires Measured(data, p) && 0 < |p.thresholds|
    ensures e.name == p.name && e.unit == p.unit && e.weight == p.weight
    ensures e.value == data[ReadingKey(p.name)] && e.value != 0.0
    ensures e.threshold == Resolve(e.value, p.thresholds) && e.threshold in p.thresholds
    ensures e.kind == TypeOf(e.threshold, acceptable)
    ensures e.kind == Normal <==> e.threshold.name in acceptable
  {
    var value := data[ReadingKey(p.name)];
    var t := Resolve(value, p.thresholds);
    EvaluatedParameter(p.name, p.unit, p.weight, value, t, TypeOf(t, acceptable))
  }

  /** The entries the forEach over `ps` pushes, in order. */
  function EvaluatedParameters(data: ThingData, ps: seq<ParameterStandard>, acceptable: seq<string>): (es: seq<EvaluatedParameter>)
    requires Evaluable(data, ps)
    decreases |ps|
    ensures |es| <= |ps|
    ensures forall k :: 0 <= k < |es| ==> es[k].kind == TypeOf(es[k].threshold, acceptable)
  {
    if ps == [] then []
    else
      var init := ps[..|ps| - 1];
      var p := ps[|ps| - 1];
      assert forall i :: 0 <= i < |init| ==> init[i] == ps[i];
      EvaluatedParameters(data, init, acceptable)
        + (if Measured(data, p) then [EvaluateParameter(data, p, acceptable)] else [])
  }

  /** The parameters with a truthy reading, in their original order. */
  function MeasuredParameters(data: ThingData, ps: seq<ParameterStandard>): (r: seq<ParameterStandard>)
    decreases |ps|
    ensures |r| <= |ps|
    ensures forall k :: 0 <= k < |r| ==> r[k] in ps && Measured(data, r[k])
    ensures forall i :: 0 <= i < |ps| && Measured(data, ps[i]) ==> ps[i] in r
    ensures (forall i :: 0 <= i < |ps| ==> Measured(data, ps[i])) ==> r == ps
  {
    if ps == [] then []
    else
      var init := ps[..|ps| - 1];
      var p := ps[|ps| - 1];
      assert ps == init + [p];
      assert forall i :: 0 <= i < |init| ==> init[i] == ps[i];
      MeasuredParameters(data, init) + (if Measured(data, p) then [p] else [])
  }

  /** Filtering concatenated lists concatenates the filtered lists, so the filter keeps order. */
  lemma {:induction false} MeasuredParametersAppend(data: ThingData, ps: seq<ParameterStandard>, qs: seq<ParameterStandard>)
    decreases |qs|
    ensures MeasuredParameters(data, ps + qs) == MeasuredParameters(data, ps) + MeasuredParameters(data, qs)
  {
    if qs == [] {
      assert ps + qs == ps;
    } else {
      var init := qs[..|qs| - 1];
      assert (ps + qs)[..|ps + qs| - 1] == ps + init;
      assert (ps + qs)[|ps + qs| - 1] == qs[|qs| - 1];
      MeasuredParametersAppend(data, ps, init);
    }
  }

  /**
   * Evaluation drops exactly the parameters whose reading is falsy and turns each of the others
   * into one entry, in parameter order.
   */
  lemma {:induction false} EvaluatedParametersAreMeasured(data: ThingData, ps: seq<ParameterStandard>, acceptable: seq<string>)
    requires Evaluable(data, ps)
    decreases |ps|
    ensures var es := EvaluatedParameters(data, ps, acceptable);
      var ms := MeasuredParameters(data, ps);
      && |es| == |ms|
      && forall k :: 0 <= k < |ms| ==> 0 < |ms[k].thresholds| && es[k] == EvaluateParameter(data, ms[k], acceptable)
  {
    if ps != [] {
      var init := ps[..|ps| - 1];
      assert forall i :: 0 <= i < |init| ==> init[i] == ps[i];
      EvaluatedParametersAreMeasured(data, init, acceptable);
    }
  }

  /** Evaluating a concatenation of parameter lists concatenates the evaluations. */
  lemma {:induction false} EvaluatedParametersAppend(data: ThingData, ps: seq<ParameterStandard>, qs: seq<ParameterStandard>, acceptable: seq<string>)
    requires Evaluable(data, ps + qs)
    decreases |qs|
    ensures Evaluable(data, ps) && Evaluable(data, qs)
    ensures EvaluatedParameters(data, ps + qs, acceptable)
      == EvaluatedParameters(data, ps, acceptable) + EvaluatedParameters(data, qs, acceptable)
  {
    assert forall i :: 0 <= i < |ps| ==> (ps + qs)[i] == ps[i];
    assert forall i :: 0 <= i < |qs| ==> (ps + qs)[|ps| + i] == qs[i];
    if qs == [] {
      assert ps + qs == ps;
    } else {
      var init := qs[..|qs| - 1];
      assert (ps + qs)[..|ps + qs| - 1] == ps + init;
      assert forall i :: 0 <= i < |init| ==> init[i] == qs[i];
      EvaluatedParametersAppend(data, ps, init, acceptable);
    }
  }

  /** Evaluating one parameter: nothing for a falsy reading, one entry otherwise. */
  lemma EvaluatedParametersSingle(data: ThingData, p: ParameterStandard, acceptable: seq<string>)
    requires Measured(data, p) ==> 0 < |p.thresholds|
    ensures Evaluable(data, [p])
    ensures EvaluatedParameters(data, [p], acceptable)
      == if Measured(data, p) then [EvaluateParameter(data, p, acceptable)] else []
  {
    assert [p][..0] == [];
  }

  /** The evaluated device built for one device: its fields copied, its readings evaluated. */
  function EvaluateDevice(data: ThingData, d: Device, acceptable: seq<string>): (e: EvaluatedDevice)
    requires Evaluable(data, d.parameterStandards)
    ensures e.name == d.name && e.model == d.model && e.status == d.status
    ensures e.parameterStandards == d.parameterStandards && e.parameterStandardDefault == d.parameterStandardDefault
    ensures |e.evaluatedParameterStandards| <= |d.parameterStandards|
  {
    EvaluatedDevice(d.name, d.model, d.status, d.parameterStandards, d.parameterStandardDefault,
      EvaluatedParameters(data, d.parameterStandards, acceptable))
  }

  predicate AllEvaluable(data: ThingData, devices: seq<Device>) {
    forall i :: 0 <= i < |devices| ==> Evaluable(data, devices[i].parameterStandards)
  }

  /**
   * What validateThingData returns: `undefined` for an empty device list, otherwise one
   * evaluated device per device, in order, with the device's own fields copied.
   */
  function Validated(data: ThingData, devices: seq<Device>, acceptable: seq<string>): (r: Option<seq<EvaluatedDevice>>)
    requires AllEvaluable(data, devices)
    ensures r.None? <==> |devices| == 0
    ensures r.Some? ==> |r.value| == |devices|
    ensures r.Some? ==> forall i :: 0 <= i < |devices| ==>
      && r.value[i].name == devices[i].name
      && r.value[i].model == devices[i].model
      && r.value[i].status == devices[i].status
      && r.value[i].parameterStandards == devices[i].parameterStandards
      && r.value[i].parameterStandardDefault == devices[i].parameterStandardDefault
      && r.value[i].evaluatedParameterStandards == EvaluatedParameters(data, devices[i].parameterStandards, acceptable)
  {
    if |devices| == 0 then None
    else Some(seq(|devices|, i requires 0 <= i < |devices| => EvaluateDevice(data, devices[i], acceptable)))
  }

  /** The body of the forEach over one device's parameter standards. */
  method EvaluateParameterStandards(data: ThingData, ps: seq<ParameterStandard>, acceptable: seq<string>)
    returns (entries: seq<EvaluatedParameter>)
    requires Evaluable(data, ps)
    ensures entries == EvaluatedParameters(data, ps, acceptable)
  {
    entries := [];
    var i := 0;
    while i < |ps|
      invariant 0 <= i <= |ps|
      invariant Evaluable(data, ps[..i])
      invariant entries == EvaluatedParameters(data, ps[..i], acceptable)
    {
      var parameter := ps[i];
      var key := ReadingKey(parameter.name);
      assert ps[..i + 1][..i] == ps[..i];
      if key in data && data[key] != 0.0 {
        var threshold := GetThingValueThreshold(data[key], parameter);
        var kind := if threshold.name in acceptable then Normal else Warning;
        var entry := EvaluatedParameter(parameter.name, parameter.unit, parameter.weight, data[key], threshold, kind);
        assert entry == EvaluateParameter(data, parameter, acceptable);
        entries := entries + [entry];
      }
      i := i + 1;
    }
    assert ps[..|ps|] == ps;
  }

  /** validateThingData. */
  method ValidateThingData(data: ThingData, devices: seq<Device>, acceptable: seq<string>)
    returns (r: Option<seq<EvaluatedDevice>>)
    requires AllEvaluable(data, devices)
    ensures r == Validated(data, devices, acceptable)
  {
    if |devices| == 0 {
      return None;
    }
    var evaluated: seq<EvaluatedDevice> := [];
    var i := 0;
    while i < |devices|
      invariant 0 <= i <= |devices|
      invariant |evaluated| == i
      invariant forall k :: 0 <= k < i ==> evaluated[k] == EvaluateDevice(data, devices[k], acceptable)
    {
      var device := devices[i];
      var entries := EvaluateParameterStandards(data, device.parameterStandards, acceptable);
      evaluated := evaluated + [EvaluatedDevice(device.name, device.model, device.status,
        device.parameterStandards, device.parameterStandardDefault, entries)];
      i := i + 1;
    }
    r := Some(evaluated);
    assert evaluated == Validated(data, devices, acceptable).value;
  }

  // ---------------------------------------------------------------------------
  // updateAssociatedDevice
  // ---------------------------------------------------------------------------

  datatype Manager = Manager(userId: string, isOwner: bool)

  /** The request body of updateAssociatedDevice. */
  datatype DeviceDto = DeviceDto(
    name: string,
    model: string,
    parameterStandards: seq<ParameterStandard>,
    parameterStandardDefault: Option<bool>)

  /** `devices.findIndex(device => device.name === name)`, with `None` for -1. */
  function FindDeviceIndex(devices: seq<Device>, name: string): (r: Option<nat>)
    ensures r.Some? ==> r.value < |devices| && devices[r.value].name == name
    ensures r.Some? ==> forall j :: 0 <= j < r.value ==> devices[j].name != name
    ensures r.None? ==> forall j :: 0 <= j < |devices| ==> devices[j].name != name
  {
    if devices == [] then None
    else if devices[0].name == name then Some(0)
    else
      match FindDeviceIndex(devices[1..], name)
      case None => None
      case Some(j) => Some(j + 1)
  }

  predicate NameInUse(devices: seq<Device>, name: string) {
    exists i :: 0 <= i < |devices| && devices[i].name == name
  }

  predicate IsManager(managers: seq<Manager>, userId: string) {
    exists i :: 0 <= i < |managers| && managers[i].userId == userId
  }

  predicate DistinctNames(devices: seq<Device>) {
    forall i, j :: 0 <= i < j < |devices| ==> devices[i].name != devices[j].name
  }

  /**
   * The replacement device: only name, model and parameter standards are set; the standards
   * come from the request when `parameterStandardDefault === false`, from the device model otherwise.
   * `deviceModel` is the parameter standards of the device model that getDeviceModel finds, or
   * `None` when no device model matches, in which case the lookup throws `device-model-not-exist`.
   */
  function ReplacementDevice(dto: DeviceDto, deviceModel: Option<seq<ParameterStandard>>): (r: Result<Device, string>)
    ensures r.Failure? <==> dto.parameterStandardDefault != Some(false) && deviceModel.None?
    ensures r.Failure? ==> r.error == "device-model-not-exist"
    ensures r.Success? ==> r.value.name == dto.name && r.value.model == dto.model
    ensures r.Success? ==> r.value.information.None? && r.value.status.None? && r.value.parameterStandardDefault.None?
    ensures dto.parameterStandardDefault == Some(false) ==> r.Success? && r.value.parameterStandards == dto.parameterStandards
    ensures dto.parameterStandardDefault != Some(false) && deviceModel.Some? ==>
      r.Success? && r.value.parameterStandards == deviceModel.value
  {
    if dto.parameterStandardDefault == Some(false) then
      Success(Device(dto.name, dto.model, None, None, dto.parameterStandards, None))
    else if deviceModel.None? then
      Failure("device-model-not-exist")
    else
      Success(Device(dto.name, dto.model, None, None, deviceModel.value, None))
  }

  /** The new device list of updateAssociatedDevice, or the message of the exception it throws. */
  function UpdateDevices(devices: seq<Device>, managers: seq<Manager>, deviceName: string,
                         dto: DeviceDto, userId: string, deviceModel: Option<seq<ParameterStandard>>): (r: Result<seq<Device>, string>)
    ensures r.Failure? ==> r.error in ["device-not-exist", "device-name-exist", "no-permission", "device-model-not-exist"]
    ensures r.Success? ==> |r.value| == |devices| && NameInUse(r.value, dto.name)
    ensures r.Success? ==> IsManager(managers, userId)
  {
    match FindDeviceIndex(devices, deviceName)
    case None => Failure("device-not-exist")
    case Some(i) =>
      if dto.name != deviceName && NameInUse(devices, dto.name) then Failure("device-name-exist")
      else if !IsManager(managers, userId) then Failure("no-permission")
      else
        match ReplacementDevice(dto, deviceModel)
        case Failure(e) => Failure(e)
        case Success(d) =>
          var ds := devices[i := d];
          assert ds[i].name == dto.name;
          Success(ds)
  }

  /** The three guards of updateAssociatedDevice and then the device-model lookup, in the order the code runs them. */
  lemma UpdateDevicesErrors(devices: seq<Device>, managers: seq<Manager>, deviceName: string,
                            dto: DeviceDto, userId: string, deviceModel: Option<seq<ParameterStandard>>)
    ensures var r := UpdateDevices(devices, managers, deviceName, dto, userId, deviceModel);
      && (r == Failure("device-not-exist") <==> !NameInUse(devices, deviceName))
      && (r == Failure("device-name-exist") <==>
            NameInUse(devices, deviceName) && dto.name != deviceName && NameInUse(devices, dto.name))
      && (r == Failure("no-permission") <==>
            NameInUse(devices, deviceName) && (dto.name == deviceName || !NameInUse(devices, dto.name))
            && !IsManager(managers, userId))
      && (r == Failure("device-model-not-exist") <==>
            NameInUse(devices, deviceName) && (dto.name == deviceName || !NameInUse(devices, dto.name))
            && IsManager(managers, userId) && dto.parameterStandardDefault != Some(false) && deviceModel.None?)
      && (r.Success? <==>
            NameInUse(devices, deviceName) && (dto.name == deviceName || !NameInUse(devices, dto.name))
            && IsManager(managers, userId) && (dto.parameterStandardDefault == Some(false) || deviceModel.Some?))
  {
    var r := FindDeviceIndex(devices, deviceName);
    if r.Some? {
      assert NameInUse(devices, deviceName);
    }
  }

  /**
   * A successful update replaces only the slot of the first device named `deviceName`;
   * the list keeps its length and every other slot.
   */
  lemma UpdateDevicesReplacesOneSlot(devices: seq<Device>, managers: seq<Manager>, deviceName: string,
                                     dto: DeviceDto, userId: string, deviceModel: Option<seq<ParameterStandard>>)
    requires UpdateDevices(devices, managers, deviceName, dto, userId, deviceModel).Success?
    ensures var ds := UpdateDevices(devices, managers, deviceName, dto, userId, deviceModel).value;
      exists i :: 0 <= i < |devices| && devices[i].name == deviceName
        && (forall j :: 0 <= j < i ==> devices[j].name != deviceName)
        && |ds| == |devices|
        && ds[i] == ReplacementDevice(dto, deviceModel).value
        && (forall j :: 0 <= j < |devices| && j != i ==> ds[j] == devices[j])
  {
    var i := FindDeviceIndex(devices, deviceName).value;
    assert devices[i].name == deviceName;
  }

  /** A successful update keeps device names unique when they were unique before. */
  lemma UpdateDevicesKeepsNamesDistinct(devices: seq<Device>, managers: seq<Manager>, deviceName: string,
                                        dto: DeviceDto, userId: string, deviceModel: Option<seq<ParameterStandard>>)
    requires DistinctNames(devices)
    requires UpdateDevices(devices, managers, deviceName, dto, userId, deviceModel).Success?
    ensures DistinctNames(UpdateDevices(devices, managers, deviceName, dto, userId, deviceModel).value)
  {
    var i := FindDeviceIndex(devices, deviceName).value;
    var ds := UpdateDevices(devices, managers, deviceName, dto, userId, deviceModel).value;
    assert ds == devices[i := ReplacementDevice(dto, deviceModel).value];
    forall a, b | 0 <= a < b < |ds| ensures ds[a].name != ds[b].name {
      if a == i || b == i {
        var other := if a == i then b else a;
        assert ds[other] == devices[other];
        if dto.name == deviceName {
          assert devices[i].name == deviceName;
        } else {
          assert !NameInUse(devices, dto.name);
          assert devices[other].name != dto.name;
        }
      }
    }
  }

  // ---------------------------------------------------------------------------
  // updateStatusActive / updateStatusInactive
  // ---------------------------------------------------------------------------

  /** Every device with its status set to INACTIVE and nothing else changed. */
  function Deactivated(devices: seq<Device>): (r: seq<Device>)
    ensures |r| == |devices|
    ensures forall i :: 0 <= i < |devices| ==> r[i] == devices[i].(status := Some(Inactive))
  {
    seq(|devices|, i requires 0 <= i < |devices| => devices[i].(status := Some(Inactive)))
  }

  /** After the map every device is inactive and keeps its name; a second map changes nothing. */
  lemma DeactivatedIsIdempotent(devices: seq<Device>)
    ensures forall i :: 0 <= i < |devices| ==>
      Deactivated(devices)[i].status == Some(Inactive) && Deactivated(devices)[i].name == devices[i].name
    ensures Deactivated(Deactivated(devices)) == Deactivated(devices)
  {
  }

  // ---------------------------------------------------------------------------
  // The stored thing, updated in place
  // ---------------------------------------------------------------------------

  class Thing {
    const id: string
    var status: DeviceStatus
    var devices: seq<Device>
    var managers: seq<Manager>
    var isDeleted: bool
    var updatedBy: Option<string>

    constructor (id: string, status: DeviceStatus, devices: seq<Device>, managers: seq<Manager>)
      ensures this.id == id && this.status == status && this.devices == devices && this.managers == managers
      ensures !isDeleted && updatedBy == None
    {
      this.id := id;
      this.status := status;
      this.devices := devices;
      this.managers := managers;
      this.isDeleted := false;
      this.updatedBy := None;
    }

    /**
     * updateAssociatedDevice: on success the slot of `deviceName` is overwritten in place and the
     * acting user recorded; on failure nothing changes. `deviceModel` stands for the parameter
     * standards of the device model the database returns, `None` when none matches.
     */
    method UpdateAssociatedDevice(deviceName: string, dto: DeviceDto, userId: string, deviceModel: Option<seq<ParameterStandard>>)
      returns (r: Result<string, string>)
      modifies this
      ensures var u := UpdateDevices(old(devices), old(managers), deviceName, dto, userId, deviceModel);
        && (u.Failure? ==> r == Failure(u.error) && devices == old(devices) && updatedBy == old(updatedBy))
        && (u.Success? ==> r == Success(dto.name) && devices == u.value && updatedBy == Some(userId))
      ensures status == old(status) && managers == old(managers) && isDeleted == old(isDeleted)
    {
      var index := FindDeviceIndex(devices, deviceName);
      if index.None? {
        return Failure("device-not-exist");
      }
      if dto.name != deviceName && NameInUse(devices, dto.name) {
        return Failure("device-name-exist");
      }
      if !IsManager(managers, userId) {
        return Failure("no-permission");
      }
      var updatedDevice := ReplacementDevice(dto, deviceModel);
      if updatedDevice.Failure? {
        return Failure(updatedDevice.error);
      }
      devices := devices[index.value := updatedDevice.value];
      updatedBy := Some(userId);
      r := Success(dto.name);
    }

    /** Sets every device's status to INACTIVE, one device at a time. */
    method DeactivateDevices()
      modifies this
      ensures devices == Deactivated(old(devices))
      ensures status == old(status) && managers == old(managers)
      ensures isDeleted == old(isDeleted) && updatedBy == old(updatedBy)
    {
      var i := 0;
      while i < |devices|
        invariant 0 <= i <= |devices| == |old(devices)|
        invariant forall k :: 0 <= k < i ==> devices[k] == old(devices)[k].(status := Some(Inactive))
        invariant forall k :: i <= k < |devices| ==> devices[k] == old(devices)[k]
        invariant status == old(status) && managers == old(managers)
        invariant isDeleted == old(isDeleted) && updatedBy == old(updatedBy)
      {
        devices := devices[i := devices[i].(status := Some(Inactive))];
        i := i + 1;
      }
    }

    /** updateStatusActive: the thing becomes ACTIVE while all its devices become INACTIVE. */
    method UpdateStatusActive()
      modifies this
      ensures status == Active && devices == Deactivated(old(devices))
      ensures managers == old(managers) && isDeleted == old(isDeleted) && updatedBy == old(updatedBy)
    {
      DeactivateDevices();
      status := Active;
    }

    /** updateStatusInactive: the thing and all its devices become INACTIVE. */
    method UpdateStatusInactive()
      modifies this
      ensures status == Inactive && devices == Deactivated(old(devices))
      ensures managers == old(managers) && isDeleted == old(isDeleted) && updatedBy == old(updatedBy)
    {
      DeactivateDevices();
      status := Inactive;
    }

    /** delete: only a manager may delete, and only a thing still in PENDING_SETUP; deletion is a flag. */
    method Delete(userId: string) returns (r: Result<string, string>)
      modifies this
      ensures !IsManager(old(managers), userId) ==> r == Failure("no-permission")
      ensures IsManager(old(managers), userId) && old(status) != PendingSetup ==> r == Failure("thing-not-allowed-delete")
      ensures r.Success? <==> IsManager(old(managers), userId) && old(status) == PendingSetup
      ensures r.Success? ==> r.value == id && isDeleted && updatedBy == Some(userId)
      ensures r.Failure? ==> isDeleted == old(isDeleted) && updatedBy == old(updatedBy)
      ensures status == old(status) && devices == old(devices) && managers == old(managers)
    {
      if !IsManager(managers, userId) {
        return Failure("no-permission");
      }
      if status != PendingSetup {
        return Failure("thing-not-allowed-delete");
      }
      isDeleted := true;
      updatedBy := Some(userId);
      r := Success(id);
    }
  }
}
