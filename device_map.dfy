/** `get_device_map`: the legacy adapter walk that pairs each monitor's long
    device identifier with its short legacy device name. */
module DeviceMaps {
  import opened Wrappers
  import opened WideStrings

  /** The fields of a DISPLAY_DEVICEW record that the core reads. */
  datatype DisplayDeviceW = DisplayDeviceW(deviceName: NameBuffer, deviceId: PathBuffer)

  /** One (DeviceID, DeviceName) pair of the device map. */
  datatype DeviceEntry = DeviceEntry(deviceId: PathBuffer, deviceName: NameBuffer)

  type DeviceMap = seq<DeviceEntry>

  /** The adapter query `EnumDisplayDevicesW(NULL, i, ..)` for adapter i:
      `adapters[i]`, where None is a failed query and every index past the
      end fails. The monitor query `EnumDisplayDevicesW(name, 0, .., 1)` for
      the adapter named `name` is `monitorOf(name)`. */
  type MonitorQuery = NameBuffer -> Option<DisplayDeviceW>

  /** The index of the first failed adapter query. */
  function FirstFailure(adapters: seq<Option<DisplayDeviceW>>): (n: nat)
    ensures n <= |adapters|
    ensures forall i :: 0 <= i < n ==> adapters[i].Some?
    ensures n < |adapters| ==> adapters[n].None?
  {
    if adapters == [] || adapters[0].None? then 0 else 1 + FirstFailure(adapters[1..])
  }

  /** What one adapter contributes: its first monitor's pair, if the monitor
      query succeeds. */
  function EntryOf(adapter: Option<DisplayDeviceW>, monitorOf: MonitorQuery): seq<DeviceEntry>
  {
    match adapter
    case None => []
    case Some(a) =>
      match monitorOf(a.deviceName)
      case None => []
      case Some(m) => [DeviceEntry(m.deviceId, m.deviceName)]
  }

  /** The contributions of a run of adapters, in index order. */
  function EntriesOf(adapters: seq<Option<DisplayDeviceW>>, monitorOf: MonitorQuery): DeviceMap
  {
    if adapters == [] then []
    else EntriesOf(adapters[..|adapters| - 1], monitorOf) + EntryOf(adapters[|adapters| - 1], monitorOf)
  }

  /** The device map: the contributions of the adapters before the first
      failed query. */
  function DeviceMapOf(adapters: seq<Option<DisplayDeviceW>>, monitorOf: MonitorQuery): DeviceMap
  {
    EntriesOf(adapters[..FirstFailure(adapters)], monitorOf)
  }

  /** `get_device_map`: visit adapters 0, 1, 2, ... until a query fails,
      appending a pair whenever the adapter has a monitor. */
  method GetDeviceMap(adapters: seq<Option<DisplayDeviceW>>, monitorOf: MonitorQuery)
    returns (deviceMap: DeviceMap)
    ensures deviceMap == DeviceMapOf(adapters, monitorOf)
  {
    deviceMap := [];
    var i := 0;
    while i < |adapters| && adapters[i].Some?
      invariant i <= |adapters|
      invariant forall j :: 0 <= j < i ==> adapters[j].Some?
      invariant deviceMap == EntriesOf(adapters[..i], monitorOf)
    {
      var name := adapters[i].value.deviceName;
      var monitor := monitorOf(name);
      if monitor.Some? {
        deviceMap := deviceMap + [DeviceEntry(monitor.value.deviceId, monitor.value.deviceName)];
      }
      assert adapters[..i + 1][..i] == adapters[..i];
      i := i + 1;
    }
  }

  /** The map of a concatenation is the concatenation of the maps: entries
      keep the order of the adapters they come from. */
  lemma {:induction false} EntriesAppend(a: seq<Option<DisplayDeviceW>>, b: seq<Option<DisplayDeviceW>>, monitorOf: MonitorQuery)
    ensures EntriesOf(a + b, monitorOf) == EntriesOf(a, monitorOf) + EntriesOf(b, monitorOf)
    decreases |b|
  {
    if b == [] {
      assert a + b == a;
    } else {
      var b' := b[..|b| - 1];
      assert (a + b)[..|a + b| - 1] == a + b';
      assert (a + b)[|a + b| - 1] == b[|b| - 1];
      EntriesAppend(a, b', monitorOf);
      assert EntriesOf(b, monitorOf) == EntriesOf(b', monitorOf) + EntryOf(b[|b| - 1], monitorOf);
    }
  }

  /** An entry is in the map of a run exactly when some adapter of the run
      contributes it. */
  lemma {:induction false} EntriesMembership(adapters: seq<Option<DisplayDeviceW>>, monitorOf: MonitorQuery, e: DeviceEntry)
    ensures e in EntriesOf(adapters, monitorOf) <==>
      exists i :: 0 <= i < |adapters| && EntryOf(adapters[i], monitorOf) == [e]
    decreases |adapters|
  {
    if adapters != [] {
      var init := adapters[..|adapters| - 1];
      EntriesMembership(init, monitorOf, e);
      var last := |adapters| - 1;
      if e in EntriesOf(adapters, monitorOf) && e !in EntriesOf(init, monitorOf) {
        assert EntryOf(adapters[last], monitorOf) == [e];
      }
      if exists i :: 0 <= i < |adapters| && EntryOf(adapters[i], monitorOf) == [e] {
        var i :| 0 <= i < |adapters| && EntryOf(adapters[i], monitorOf) == [e];
        if i < last {
          assert init[i] == adapters[i];
        }
      }
    }
  }

  /** An entry is in the device map exactly when some adapter before the first
      failed query has a monitor that produces it. */
  lemma DeviceMapMembership(adapters: seq<Option<DisplayDeviceW>>, monitorOf: MonitorQuery, e: DeviceEntry)
    ensures e in DeviceMapOf(adapters, monitorOf) <==>
      exists i, m :: 0 <= i < FirstFailure(adapters) && adapters[i] == Some(m) &&
        monitorOf(m.deviceName).Some? &&
        e == DeviceEntry(monitorOf(m.deviceName).value.deviceId, monitorOf(m.deviceName).value.deviceName)
  {
    var n := FirstFailure(adapters);
    var scanned := adapters[..n];
    EntriesMembership(scanned, monitorOf, e);
    assert forall i :: 0 <= i < n ==> scanned[i] == adapters[i];
  }

  /** Once a query has failed, later results are never looked at: appending
      anything after a failed query leaves the map unchanged. */
  lemma DeviceMapStopsAtFirstFailure(a: seq<Option<DisplayDeviceW>>, rest: seq<Option<DisplayDeviceW>>, monitorOf: MonitorQuery)
    requires FirstFailure(a) < |a|
    ensures DeviceMapOf(a + rest, monitorOf) == DeviceMapOf(a, monitorOf)
  {
    var n := FirstFailure(a);
    assert forall i :: 0 <= i <= n ==> (a + rest)[i] == a[i];
    assert FirstFailure(a + rest) == n;
    assert (a + rest)[..n] == a[..n];
  }
}
