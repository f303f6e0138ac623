/** `get_monitors` and `Monitor`: the join of the display devices with the
    collected physical monitors into numbered monitors, and the power-mode
    read and write on a monitor's handle. */
module Monitors {
  import opened Wrappers
  import opened WideStrings
  import opened MonitorErrors
  import opened PowerModes
  import opened DeviceMaps
  import opened DisplayDevices
  import opened DisplayMonitors

  /** A resolved monitor: its 1-based position, its friendly name and the
      physical-monitor handle it is controlled through. */
  datatype Monitor = Monitor(id: int, name: seq<CodeUnit>, handle: Handle)

  /** What `GetVCPFeatureAndVCPFeatureReply` stores into its current-value
      argument for a handle and feature code: None when it stores nothing.
      Its return value is not read by the core. */
  type VcpRead = (Handle, u8) -> Option<u32>

  /** What `SetVCPFeature` returns for a handle, feature code and value. */
  type VcpWrite = (Handle, u8, u32) -> int

  /** `Monitor::power_mode`: the current value starts at 0 and is whatever
      the read stored, then decoded; an unknown value is a failure. */
  function PowerModeOf(monitor: Monitor, readVcp: VcpRead): (r: Result<PowerMode, Error>)
    ensures readVcp(monitor.handle, VcpPowerMode).None? ==> r == Success(Off)
    ensures r == Success(On) <==> readVcp(monitor.handle, VcpPowerMode) == Some(VcpPowerModeOn)
    ensures r.Failure? <==>
      readVcp(monitor.handle, VcpPowerMode).Some? &&
      readVcp(monitor.handle, VcpPowerMode).value !in {VcpPowerModeNone, VcpPowerModeOn, VcpPowerModeOff}
  {
    var value: u32 := match readVcp(monitor.handle, VcpPowerMode)
      case None => 0
      case Some(v) => v;
    FromVcpCode(value)
  }

  /** `Monitor::set_power_mode`: write the mode's raw value to the power-mode
      feature; success exactly when the write returns 1. */
  function SetPowerMode(monitor: Monitor, mode: PowerMode, writeVcp: VcpWrite): (r: Outcome<Error>)
    ensures r.Pass? <==> writeVcp(monitor.handle, VcpPowerMode, VcpCode(mode)) == 1
    ensures r.Fail? ==> r.error == SetPowerModeFailed
  {
    if writeVcp(monitor.handle, VcpPowerMode, VcpCode(mode)) == 1 then Pass
    else Fail(SetPowerModeFailed)
  }

  /** Switching on writes 0x01 and switching off writes 0x05 to feature D6h. */
  lemma SetPowerModeWrites(monitor: Monitor, writeVcp: VcpWrite)
    ensures SetPowerMode(monitor, On, writeVcp).Pass? <==> writeVcp(monitor.handle, 0xD6, 0x01) == 1
    ensures SetPowerMode(monitor, Off, writeVcp).Pass? <==> writeVcp(monitor.handle, 0xD6, 0x05) == 1
  {
  }

  /** The `find` over the collected records: the first one whose device name
      is a prefix of `deviceName`. */
  function FindMonitor(monitors: seq<DisplayMonitor>, deviceName: seq<CodeUnit>): (r: Option<nat>)
    ensures r.Some? ==> r.value < |monitors| && StartsWith(deviceName, monitors[r.value].deviceName)
    ensures r.Some? ==> forall j :: 0 <= j < r.value ==> !StartsWith(deviceName, monitors[j].deviceName)
    ensures r.None? <==> forall j :: 0 <= j < |monitors| ==> !StartsWith(deviceName, monitors[j].deviceName)
  {
    if monitors == [] then None
    else if StartsWith(deviceName, monitors[0].deviceName) then Some(0)
    else
      match FindMonitor(monitors[1..], deviceName)
      case None => None
      case Some(k) => Some(k + 1)
  }

  /** The join: device k (counting from 1) becomes monitor k, with the handle
      of the first record that prefixes its legacy name; the `unwrap` on a
      device without one is the NoMatchingPhysicalMonitor failure. */
  function JoinOf(devices: seq<DisplayDevice>, monitors: seq<DisplayMonitor>): Result<seq<Monitor>, Error>
  {
    if devices == [] then Success([])
    else
      match JoinOf(devices[..|devices| - 1], monitors)
      case Failure(e) => Failure(e)
      case Success(ms) =>
        var device := devices[|devices| - 1];
        match FindMonitor(monitors, device.deviceName)
        case None => Failure(NoMatchingPhysicalMonitor(device.deviceName))
        case Some(k) => Success(ms + [Monitor(|devices|, device.friendlyName, monitors[k].handle)])
  }

  /** The loop of `get_monitors`, with ids 1, 2, 3, ... zipped to the devices. */
  method Join(devices: seq<DisplayDevice>, monitors: seq<DisplayMonitor>) returns (r: Result<seq<Monitor>, Error>)
    ensures r == JoinOf(devices, monitors)
  {
    var result := [];
    var i := 0;
    var id := 1;
    while i < |devices|
      invariant i <= |devices|
      invariant id == i + 1
      invariant JoinOf(devices[..i], monitors) == Success(result)
    {
      var device := devices[i];
      assert devices[..i + 1][..i] == devices[..i];
      var found := FindMonitor(monitors, device.deviceName);
      if found.None? {
        r := Failure(NoMatchingPhysicalMonitor(device.deviceName));
        JoinFailurePersists(devices, i + 1, monitors);
        return;
      }
      result := result + [Monitor(id, device.friendlyName, monitors[found.value].handle)];
      i, id := i + 1, id + 1;
    }
    assert devices[..i] == devices;
    r := Success(result);
  }

  /** A failure on the first devices is the failure of the whole join. */
  lemma {:induction false} JoinFailurePersists(devices: seq<DisplayDevice>, n: nat, monitors: seq<DisplayMonitor>)
    requires n <= |devices|
    requires JoinOf(devices[..n], monitors).Failure?
    ensures JoinOf(devices, monitors) == JoinOf(devices[..n], monitors)
    decreases |devices| - n
  {
    if n < |devices| {
      assert devices[..n + 1][..n] == devices[..n];
      JoinFailurePersists(devices, n + 1, monitors);
    } else {
      assert devices[..n] == devices;
    }
  }

  /** Monitor `id` is device `device` joined with the first matching record. */
  predicate JoinedAs(monitors: seq<DisplayMonitor>, device: DisplayDevice, id: int, m: Monitor)
  {
    match FindMonitor(monitors, device.deviceName)
    case None => false
    case Some(k) => m == Monitor(id, device.friendlyName, monitors[k].handle)
  }

  /** The join succeeds exactly when every device has a matching record. */
  lemma {:induction false} JoinSucceedsIff(devices: seq<DisplayDevice>, monitors: seq<DisplayMonitor>)
    ensures JoinOf(devices, monitors).Success? <==>
      forall k :: 0 <= k < |devices| ==> FindMonitor(monitors, devices[k].deviceName).Some?
    decreases |devices|
  {
    if devices != [] {
      var last := |devices| - 1;
      var init := devices[..last];
      JoinSucceedsIff(init, monitors);
      assert forall k :: 0 <= k < last ==> init[k] == devices[k];
    }
  }

  /** A successful join has one monitor per device, in device order: the
      k-th has id k+1, device k's friendly name and the handle of device k's
      first matching record. */
  lemma {:induction false} JoinShape(devices: seq<DisplayDevice>, monitors: seq<DisplayMonitor>)
    requires JoinOf(devices, monitors).Success?
    ensures var ms := JoinOf(devices, monitors).value;
      |ms| == |devices| &&
      forall k :: 0 <= k < |devices| ==> JoinedAs(monitors, devices[k], k + 1, ms[k])
    decreases |devices|
  {
    if devices != [] {
      var last := |devices| - 1;
      var init := devices[..last];
      var device := devices[last];
      var ms := JoinOf(init, monitors).value;
      JoinShape(init, monitors);
      var j := FindMonitor(monitors, device.deviceName).value;
      var all := ms + [Monitor(|devices|, device.friendlyName, monitors[j].handle)];
      assert JoinOf(devices, monitors) == Success(all);
      assert JoinedAs(monitors, device, last + 1, all[last]);
      forall k | 0 <= k < last
        ensures JoinedAs(monitors, devices[k], k + 1, all[k])
      {
        assert init[k] == devices[k] && all[k] == ms[k];
      }
    }
  }

  /** A failed join fails for the first device that has no matching record. */
  lemma {:induction false} JoinFailsAtFirstUnmatched(devices: seq<DisplayDevice>, monitors: seq<DisplayMonitor>)
    requires JoinOf(devices, monitors).Failure?
    ensures exists k ::
      && 0 <= k < |devices|
      && FindMonitor(monitors, devices[k].deviceName).None?
      && JoinOf(devices, monitors).error == NoMatchingPhysicalMonitor(devices[k].deviceName)
      && forall j :: 0 <= j < k ==> FindMonitor(monitors, devices[j].deviceName).Some?
    decreases |devices|
  {
    var last := |devices| - 1;
    var init := devices[..last];
    assert forall k :: 0 <= k < last ==> init[k] == devices[k];
    if JoinOf(init, monitors).Failure? {
      JoinFailsAtFirstUnmatched(init, monitors);
      var k :| 0 <= k < |init| &&
        FindMonitor(monitors, init[k].deviceName).None? &&
        JoinOf(init, monitors).error == NoMatchingPhysicalMonitor(init[k].deviceName) &&
        forall j :: 0 <= j < k ==> FindMonitor(monitors, init[j].deviceName).Some?;
      assert JoinOf(devices, monitors) == JoinOf(init, monitors);
      assert devices[k] == init[k];
    } else {
      JoinSucceedsIff(init, monitors);
      assert JoinOf(devices, monitors).error == NoMatchingPhysicalMonitor(devices[last].deviceName);
    }
  }

  /** Monitor ids are 1..N without gaps or repeats. */
  lemma JoinIds(devices: seq<DisplayDevice>, monitors: seq<DisplayMonitor>)
    requires JoinOf(devices, monitors).Success?
    ensures var ms := JoinOf(devices, monitors).value;
      |ms| == |devices| &&
      (forall k :: 0 <= k < |ms| ==> ms[k].id == k + 1) &&
      (forall j, k :: 0 <= j < k < |ms| ==> ms[j].id != ms[k].id)
  {
    JoinShape(devices, monitors);
  }

  /** The whole of `get_monitors`: device resolution, then physical-monitor
      collection, then the join. */
  function GetMonitorsOf(
    adapters: seq<Option<DisplayDeviceW>>, monitorOf: MonitorQuery,
    modes: seq<ModeInfo>, queryTarget: TargetNameQuery,
    reports: seq<HMonitorReport>): Result<seq<Monitor>, Error>
  {
    match DisplayDevicesOf(DeviceMapOf(adapters, monitorOf), modes, queryTarget)
    case Failure(e) => Failure(e)
    case Success(devices) => JoinOf(devices, CollectedOf(reports))
  }

  /** `get_monitors`. */
  method GetMonitors(
    adapters: seq<Option<DisplayDeviceW>>, monitorOf: MonitorQuery,
    modes: seq<ModeInfo>, queryTarget: TargetNameQuery,
    reports: seq<HMonitorReport>)
    returns (r: Result<seq<Monitor>, Error>)
    ensures r == GetMonitorsOf(adapters, monitorOf, modes, queryTarget, reports)
  {
    var devices := GetDisplayDevices(adapters, monitorOf, modes, queryTarget);
    if devices.Failure? {
      return Failure(devices.error);
    }
    var displayMonitors := GetDisplayMonitors(reports);
    r := Join(devices.value, displayMonitors);
  }

  /** End to end: on success there is one monitor per Target-kind mode, in
      mode order; the k-th has id k+1 and that target's decoded friendly name. */
  lemma GetMonitorsSpec(
    adapters: seq<Option<DisplayDeviceW>>, monitorOf: MonitorQuery,
    modes: seq<ModeInfo>, queryTarget: TargetNameQuery,
    reports: seq<HMonitorReport>)
    requires GetMonitorsOf(adapters, monitorOf, modes, queryTarget, reports).Success?
    ensures var ms := GetMonitorsOf(adapters, monitorOf, modes, queryTarget, reports).value;
      var targets := Targets(modes);
      |ms| == |targets| &&
      forall k :: 0 <= k < |ms| ==>
        ms[k].id == k + 1 &&
        ms[k].name == NtToString(queryTarget(targets[k].adapterId, targets[k].id).monitorFriendlyDeviceName)
  {
    var deviceMap := DeviceMapOf(adapters, monitorOf);
    DisplayDevicesOfSpec(deviceMap, modes, queryTarget);
    var devices := DisplayDevicesOf(deviceMap, modes, queryTarget).value;
    JoinShape(devices, CollectedOf(reports));
  }

  /** With no active targets the result is the empty list, not a failure. */
  lemma NoTargetsNoMonitors(
    adapters: seq<Option<DisplayDeviceW>>, monitorOf: MonitorQuery,
    modes: seq<ModeInfo>, queryTarget: TargetNameQuery,
    reports: seq<HMonitorReport>)
    requires forall m :: m in modes ==> m.infoType != Target
    ensures GetMonitorsOf(adapters, monitorOf, modes, queryTarget, reports) == Success([])
  {
    if Targets(modes) != [] {
      TargetsMembership(modes, Targets(modes)[0]);
    }
  }

  /** The legacy name of a GDI monitor prefixes the device names of the
      monitors attached to it and no other display's. */
  lemma PrefixMatchExample(h1: Handle, h2: Handle)
    ensures var monitors := [DisplayMonitor(Wide("\\\\.\\DISPLAY2"), h2), DisplayMonitor(Wide("\\\\.\\DISPLAY1"), h1)];
      FindMonitor(monitors, Wide("\\\\.\\DISPLAY1\\Monitor0")) == Some(1)
  {
    var d1 := Wide("\\\\.\\DISPLAY1");
    var d2 := Wide("\\\\.\\DISPLAY2");
    var name := Wide("\\\\.\\DISPLAY1\\Monitor0");
    assert name[..|d1|] == d1;
    assert name[|d2| - 1] != d2[|d2| - 1];
  }

  /** The match is a plain prefix test, and the first record wins: a record
      for DISPLAY1 that comes first also claims a device of DISPLAY10. */
  lemma PrefixMatchFirstWins(h1: Handle, h10: Handle)
    ensures var monitors := [DisplayMonitor(Wide("\\\\.\\DISPLAY1"), h1), DisplayMonitor(Wide("\\\\.\\DISPLAY10"), h10)];
      FindMonitor(monitors, Wide("\\\\.\\DISPLAY10\\Monitor0")) == Some(0)
  {
    var d1 := Wide("\\\\.\\DISPLAY1");
    var name := Wide("\\\\.\\DISPLAY10\\Monitor0");
    assert name[..|d1|] == d1;
  }
}
