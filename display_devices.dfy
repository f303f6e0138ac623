/** `get_display_devices`: the display-configuration targets, each resolved
    to its friendly name and, through the device map, its legacy name. */
module DisplayDevices {
  import opened Wrappers
  import opened WideStrings
  import opened MonitorErrors
  import opened DeviceMaps

  /** DISPLAYCONFIG_MODE_INFO_TYPE. */
  datatype ModeInfoType = Source | Target | DesktopImage

  /** A locally unique adapter identifier (LUID). */
  datatype Luid = Luid(lowPart: int, highPart: int)

  /** The fields of a DISPLAYCONFIG_MODE_INFO entry that the core reads. */
  datatype ModeInfo = ModeInfo(infoType: ModeInfoType, adapterId: Luid, id: int)

  /** The fields of DISPLAYCONFIG_TARGET_DEVICE_NAME that the core reads. */
  datatype TargetDeviceName = TargetDeviceName(
    monitorFriendlyDeviceName: FriendlyNameBuffer,
    monitorDevicePath: PathBuffer)

  /** What `DisplayConfigGetDeviceInfo` leaves in the (zeroed) target-name
      record for a given adapter and target id. */
  type TargetNameQuery = (Luid, int) -> TargetDeviceName

  /** One resolved target: its decoded friendly and legacy device names. */
  datatype DisplayDevice = DisplayDevice(friendlyName: seq<CodeUnit>, deviceName: seq<CodeUnit>)

  /** The `find` over the device map: the first entry whose whole 128-unit
      identifier buffer equals `path`. */
  function FindDeviceId(deviceMap: DeviceMap, path: PathBuffer): (r: Option<nat>)
    ensures r.Some? ==> r.value < |deviceMap| && deviceMap[r.value].deviceId == path
    ensures r.Some? ==> forall j :: 0 <= j < r.value ==> deviceMap[j].deviceId != path
    ensures r.None? <==> forall j :: 0 <= j < |deviceMap| ==> deviceMap[j].deviceId != path
  {
    if deviceMap == [] then None
    else if deviceMap[0].deviceId == path then Some(0)
    else
      match FindDeviceId(deviceMap[1..], path)
      case None => None
      case Some(k) => Some(k + 1)
  }

  /** The modes of kind Target, in mode order. */
  function Targets(modes: seq<ModeInfo>): seq<ModeInfo>
  {
    if modes == [] then []
    else
      var last := modes[|modes| - 1];
      Targets(modes[..|modes| - 1]) + (if last.infoType == Target then [last] else [])
  }

  /** The body of the loop for one target mode; the `unwrap` on a missing
      device path is the DevicePathNotFound failure. */
  function ResolveTarget(deviceMap: DeviceMap, mode: ModeInfo, queryTarget: TargetNameQuery): Result<DisplayDevice, Error>
  {
    var name := queryTarget(mode.adapterId, mode.id);
    match FindDeviceId(deviceMap, name.monitorDevicePath)
    case None => Failure(DevicePathNotFound(name.monitorDevicePath))
    case Some(k) =>
      Success(DisplayDevice(NtToString(name.monitorFriendlyDeviceName), NtToString(deviceMap[k].deviceName)))
  }

  /** Resolve targets in order, stopping at the first failure. */
  function ResolveAll(deviceMap: DeviceMap, targets: seq<ModeInfo>, queryTarget: TargetNameQuery): Result<seq<DisplayDevice>, Error>
  {
    if targets == [] then Success([])
    else
      match ResolveAll(deviceMap, targets[..|targets| - 1], queryTarget)
      case Failure(e) => Failure(e)
      case Success(devices) =>
        match ResolveTarget(deviceMap, targets[|targets| - 1], queryTarget)
        case Failure(e) => Failure(e)
        case Success(d) => Success(devices + [d])
  }

  /** The display devices of a mode list. */
  function DisplayDevicesOf(deviceMap: DeviceMap, modes: seq<ModeInfo>, queryTarget: TargetNameQuery): Result<seq<DisplayDevice>, Error>
  {
    ResolveAll(deviceMap, Targets(modes), queryTarget)
  }

  /** `get_display_devices`: build the device map, then resolve every target
      mode of the mode list in order. */
  method GetDisplayDevices(
    adapters: seq<Option<DisplayDeviceW>>, monitorOf: MonitorQuery,
    modes: seq<ModeInfo>, queryTarget: TargetNameQuery)
    returns (r: Result<seq<DisplayDevice>, Error>)
    ensures r == DisplayDevicesOf(DeviceMapOf(adapters, monitorOf), modes, queryTarget)
  {
    var deviceMap := GetDeviceMap(adapters, monitorOf);
    var devices := [];
    var i := 0;
    while i < |modes|
      invariant i <= |modes|
      invariant ResolveAll(deviceMap, Targets(modes[..i]), queryTarget) == Success(devices)
    {
      var mode := modes[i];
      TargetsStep(modes, i);
      if mode.infoType == Target {
        var name := queryTarget(mode.adapterId, mode.id);
        var friendlyName := NtToString(name.monitorFriendlyDeviceName);
        var found := FindDeviceId(deviceMap, name.monitorDevicePath);
        ResolveAllStep(deviceMap, Targets(modes[..i]), mode, queryTarget);
        if found.None? {
          r := Failure(DevicePathNotFound(name.monitorDevicePath));
          TargetsAppend(modes[..i + 1], modes[i + 1..]);
          assert modes[..i + 1] + modes[i + 1..] == modes;
          ResolveAllFailurePersists(deviceMap, Targets(modes[..i + 1]), Targets(modes[i + 1..]), queryTarget);
          return;
        }
        var device := DisplayDevice(friendlyName, NtToString(deviceMap[found.value].deviceName));
        assert ResolveTarget(deviceMap, mode, queryTarget) == Success(device);
        devices := devices + [device];
      } else {
        assert Targets(modes[..i + 1]) == Targets(modes[..i]);
      }
      i := i + 1;
    }
    assert modes[..i] == modes;
    r := Success(devices);
  }

  lemma TargetsStep(modes: seq<ModeInfo>, i: nat)
    requires i < |modes|
    ensures Targets(modes[..i + 1]) ==
      Targets(modes[..i]) + (if modes[i].infoType == Target then [modes[i]] else [])
  {
    assert modes[..i + 1][..i] == modes[..i];
  }

  lemma ResolveAllStep(deviceMap: DeviceMap, targets: seq<ModeInfo>, mode: ModeInfo, queryTarget: TargetNameQuery)
    ensures ResolveAll(deviceMap, targets + [mode], queryTarget) ==
      match ResolveAll(deviceMap, targets, queryTarget)
      case Failure(e) => Failure(e)
      case Success(devices) =>
        match ResolveTarget(deviceMap, mode, queryTarget)
        case Failure(e) => Failure(e)
        case Success(d) => Success(devices + [d])
  {
    assert (targets + [mode])[..|targets|] == targets;
  }

  /** Filtering distributes over concatenation, so target order follows mode
      order. */
  lemma {:induction false} TargetsAppend(a: seq<ModeInfo>, b: seq<ModeInfo>)
    ensures Targets(a + b) == Targets(a) + Targets(b)
    decreases |b|
  {
    if b == [] {
      assert a + b == a;
    } else {
      var b' := b[..|b| - 1];
      assert (a + b)[..|a + b| - 1] == a + b';
      assert (a + b)[|a + b| - 1] == b[|b| - 1];
      TargetsAppend(a, b');
    }
  }

  /** The targets are exactly the modes of kind Target. */
  lemma {:induction false} TargetsMembership(modes: seq<ModeInfo>, m: ModeInfo)
    ensures m in Targets(modes) <==> m in modes && m.infoType == Target
    decreases |modes|
  {
    if modes != [] {
      var init := modes[..|modes| - 1];
      TargetsMembership(init, m);
      assert modes == init + [modes[|modes| - 1]];
    }
  }

  /** A failure among the first targets is the failure of the whole list. */
  lemma {:induction false} ResolveAllFailurePersists(deviceMap: DeviceMap, a: seq<ModeInfo>, b: seq<ModeInfo>, queryTarget: TargetNameQuery)
    requires ResolveAll(deviceMap, a, queryTarget).Failure?
    ensures ResolveAll(deviceMap, a + b, queryTarget) == ResolveAll(deviceMap, a, queryTarget)
    decreases |b|
  {
    if b == [] {
      assert a + b == a;
    } else {
      var b' := b[..|b| - 1];
      assert (a + b)[..|a + b| - 1] == a + b';
      ResolveAllFailurePersists(deviceMap, a, b', queryTarget);
    }
  }

  /** Resolution succeeds exactly when every target resolves; then the k-th
      device is the k-th target's resolution. When it fails, the failure is
      that of the first target that does not resolve. */
  lemma {:induction false} ResolveAllCharacterization(deviceMap: DeviceMap, targets: seq<ModeInfo>, queryTarget: TargetNameQuery)
    ensures ResolveAll(deviceMap, targets, queryTarget).Success? <==>
      forall k :: 0 <= k < |targets| ==> ResolveTarget(deviceMap, targets[k], queryTarget).Success?
    ensures ResolveAll(deviceMap, targets, queryTarget).Success? ==>
      var devices := ResolveAll(deviceMap, targets, queryTarget).value;
      |devices| == |targets| &&
      forall k :: 0 <= k < |targets| ==> ResolveTarget(deviceMap, targets[k], queryTarget) == Success(devices[k])
    ensures ResolveAll(deviceMap, targets, queryTarget).Failure? ==>
      exists k :: 0 <= k < |targets| &&
        ResolveTarget(deviceMap, targets[k], queryTarget) == Failure(ResolveAll(deviceMap, targets, queryTarget).error) &&
        forall j :: 0 <= j < k ==> ResolveTarget(deviceMap, targets[j], queryTarget).Success?
    decreases |targets|
  {
    if targets != [] {
      var init := targets[..|targets| - 1];
      var last := |targets| - 1;
      ResolveAllCharacterization(deviceMap, init, queryTarget);
      assert forall k :: 0 <= k < last ==> init[k] == targets[k];
    }
  }

  /** Target resolution, stated on the mode list: success exactly when every
      Target-kind mode's device path is in the map; then one device per
      target, in mode order, with its decoded friendly name and the decoded
      legacy name of the first map entry whose identifier equals its path. */
  lemma DisplayDevicesOfSpec(deviceMap: DeviceMap, modes: seq<ModeInfo>, queryTarget: TargetNameQuery)
    ensures DisplayDevicesOf(deviceMap, modes, queryTarget).Success? <==>
      forall m :: m in modes && m.infoType == Target ==>
        FindDeviceId(deviceMap, queryTarget(m.adapterId, m.id).monitorDevicePath).Some?
    ensures DisplayDevicesOf(deviceMap, modes, queryTarget).Success? ==>
      var devices := DisplayDevicesOf(deviceMap, modes, queryTarget).value;
      var targets := Targets(modes);
      |devices| == |targets| &&
      forall k :: 0 <= k < |targets| ==>
        var name := queryTarget(targets[k].adapterId, targets[k].id);
        var found := FindDeviceId(deviceMap, name.monitorDevicePath);
        found.Some? &&
        devices[k] == DisplayDevice(NtToString(name.monitorFriendlyDeviceName), NtToString(deviceMap[found.value].deviceName))
  {
    var targets := Targets(modes);
    ResolveAllCharacterization(deviceMap, targets, queryTarget);
    forall m | m in modes && m.infoType == Target
      ensures m in targets
    {
      TargetsMembership(modes, m);
    }
    forall k | 0 <= k < |targets|
      ensures targets[k] in modes && targets[k].infoType == Target
    {
      TargetsMembership(modes, targets[k]);
    }
  }
}
