# Display topology correlation and DDC/CI power mode, modelled in Dafny

This project models the monitor-resolution module of a small Windows service
that lists the attached displays and switches them on and off over DDC/CI
(`src/monitors.rs`). The module reconciles three OS enumerations into one
numbered list of monitors:

- the legacy adapter walk (`get_device_map`) gives (device identifier, legacy
  device name) pairs;
- the display-configuration mode list (`get_display_devices`) gives, for each
  Target-kind mode, a friendly name and a device path, and the path is looked
  up in the device map to find the legacy name;
- the GDI monitor walk (`get_display_monitors` / `enum_monitor_proc`) gives
  (GDI device name, physical-monitor handle) records;
- `get_monitors` joins them: device k (from 1) gets id k, its friendly name,
  and the handle of the first record whose name is a prefix of its legacy
  name.

A monitor's power mode is VCP feature D6h of the VESA Monitor Control Command
Set: 0x01 is On; 0x00 and 0x05 are Off; On is written as 0x01 and Off as 0x05.

Every Win32 call is an input of the model. The adapter queries are a sequence
of optional records, and the per-adapter monitor query is a function of the
adapter name. `DisplayConfigGetDeviceInfo` is a function of (adapter id,
target id). The two per-HMONITOR lookups are a sequence of reports. The VCP
read and write are functions of (handle, feature code[, value]). Every
`unwrap` and `panic!` of the Rust code is the `Failure` side of a `Result`,
and the `Err` of `set_power_mode` is the `Fail` side of an `Outcome`.

Files, one module each: `wrappers.dfy` (Option, Result, Outcome),
`wide_strings.dfy` (UTF-16 buffers and `utf16_nt_to_string`), `errors.dfy`,
`power_mode.dfy`, `device_map.dfy`, `display_devices.dfy`,
`display_monitors.dfy` (a class for the Vec that the callback appends to)
and `monitors.dfy` (the join and the power-mode calls).

Three details of the code that the model keeps as written:

- The monitor query is `EnumDisplayDevicesW(name, 0, .., 1)`: index 0 with
  the interface-name flag (src/monitors.rs:206). In the model the query is an
  input keyed by the adapter's name, so only its result matters.
- The join takes the first record whose name is a prefix and does not check
  that it is unique (src/monitors.rs:106-109).
- `set_power_mode` accepts exactly the result 1 (src/monitors.rs:91).

`Monitor::id` and `Monitor::name` are the fields of the Monitor datatype.

## Model

| member | source | states |
|---|---|---|
| `WideStrings.TerminatorIndex` | src/monitors.rs:306 | the count is the length of the longest run without a 0 at the start of the buffer: every unit before it is non-zero, and the unit at it (if any) is 0 |
| `WideStrings.NtToString` | src/monitors.rs:305-308 | the decoded text is a prefix of the buffer, holds no 0, and stops at the buffer's end or at a 0 |
| `WideStrings.NtToStringUnique` | src/monitors.rs:305-308 | any prefix with those three properties is the decoded text, so they define the decoder |
| `WideStrings.NtToStringWhole` | src/monitors.rs:306-307 | a buffer with no 0 is kept whole |
| `WideStrings.NtToStringIgnoresTail` | src/monitors.rs:306-307 | whatever follows the first 0 does not reach the decoded text |
| `WideStrings.NtToStringIdempotent` | src/monitors.rs:305-308 | decoding decoded text changes nothing |
| `PowerModes.FromVcpCode` | src/monitors.rs:43-49 | 0x01 decodes to On, 0x00 and 0x05 to Off, and every other value is the unsupported-power-mode failure carrying that value |
| `PowerModes.VcpCode` | src/monitors.rs:51-56 | On encodes to 0x01 and Off to 0x05, and decoding the code gives back the mode |
| `PowerModes.VcpCodeInjective` | src/monitors.rs:31-34 | the two modes are written as different raw values |
| `PowerModes.FromVcpCodeThenVcpCode` | src/monitors.rs:43-56 | decode then encode returns a decodable value unchanged exactly when it is not 0x00 |
| `DeviceMaps.FirstFailure` | src/monitors.rs:203 | the adapter walk stops at the first failed query: every earlier query succeeded and the one at the index failed or is past the end |
| `DeviceMaps.GetDeviceMap` | src/monitors.rs:192-215 | the loop builds exactly the entries of the adapters before the first failed query, one per adapter whose monitor query succeeds, in index order |
| `DeviceMaps.EntriesAppend` | src/monitors.rs:201-213 | the map of two runs of adapters is the first run's map followed by the second's, so entries keep adapter order |
| `DeviceMaps.EntriesMembership` | src/monitors.rs:204-208 | an entry is in the map of a run exactly when some adapter of the run contributes it |
| `DeviceMaps.DeviceMapMembership` | src/monitors.rs:201-213 | an entry is in the device map exactly when it is the (DeviceID, DeviceName) of the monitor of an adapter before the first failed query |
| `DeviceMaps.DeviceMapStopsAtFirstFailure` | src/monitors.rs:203 | appending anything after a failed query leaves the map unchanged: nothing after the first failure is read |
| `DisplayDevices.FindDeviceId` | src/monitors.rs:175-178 | the lookup returns the first entry whose whole 128-unit identifier buffer equals the device path, and nothing exactly when no entry does |
| `DisplayDevices.GetDisplayDevices` | src/monitors.rs:127-188 | builds the device map and resolves the Target-kind modes in order, failing at the first one whose path is not in the map |
| `DisplayDevices.TargetsAppend` | src/monitors.rs:156-157 | filtering the mode list to targets distributes over concatenation, so targets keep mode order |
| `DisplayDevices.TargetsMembership` | src/monitors.rs:156-157 | the targets are exactly the modes of kind Target |
| `DisplayDevices.ResolveAllCharacterization` | src/monitors.rs:156-185 | resolution succeeds exactly when every target resolves; then device k is target k's resolution; otherwise the failure is that of the first unresolved target |
| `DisplayDevices.DisplayDevicesOfSpec` | src/monitors.rs:156-185 | success exactly when every Target-kind mode's path is in the map; then one device per target in mode order, with the decoded friendly name and the decoded legacy name of the first equal map entry |
| `DisplayMonitors.MonitorCollector.constructor` | src/monitors.rs:224 | the collected list starts empty |
| `DisplayMonitors.MonitorCollector.EnumMonitorProc` | src/monitors.rs:238-270 | the callback always returns continue (1) and appends exactly the records of its HMONITOR to the list |
| `DisplayMonitors.GetDisplayMonitors` | src/monitors.rs:223-236 | the walk visits every HMONITOR (the callback never stops it) and returns the records of all of them in order |
| `DisplayMonitors.RecordsForShape` | src/monitors.rs:246-267 | a failed info or physical-monitor lookup adds no record; otherwise one record per physical monitor, in order, each with that HMONITOR's decoded device name |
| `DisplayMonitors.CollectedAppend` | src/monitors.rs:262-267 | the records of two runs of HMONITORs are the first run's followed by the second's |
| `DisplayMonitors.CollectedSkipsFailedHandle` | src/monitors.rs:246-260 | a failed HMONITOR adds nothing and does not cut off the records of the ones after it |
| `DisplayMonitors.CollectedMembership` | src/monitors.rs:262-267 | a record is collected exactly when it is one of the records of some HMONITOR |
| `Monitors.PowerModeOf` | src/monitors.rs:75-87 | reading starts from 0, so a reply that stores nothing is Off; the mode is On exactly for 0x01; it fails exactly for a stored value other than 0x00, 0x01 and 0x05 |
| `Monitors.SetPowerMode` | src/monitors.rs:89-96 | succeeds exactly when the write of the mode's code to feature D6h returns 1; otherwise it is the failed-to-set-power-mode error |
| `Monitors.SetPowerModeWrites` | src/monitors.rs:89-96 | switching on writes 0x01 and switching off writes 0x05 to feature D6h |
| `Monitors.FindMonitor` | src/monitors.rs:106-109 | returns the first record whose device name is a prefix of the device's legacy name, and nothing exactly when none is |
| `Monitors.Join` | src/monitors.rs:103-118 | the loop with ids zipped from 1 computes the join, failing at the first device without a matching record |
| `Monitors.JoinSucceedsIff` | src/monitors.rs:105-109 | the join succeeds exactly when every device has a record whose name prefixes its legacy name |
| `Monitors.JoinShape` | src/monitors.rs:105-116 | on success monitor k has id k+1, device k's friendly name and the handle of device k's first matching record, one monitor per device in device order |
| `Monitors.JoinFailsAtFirstUnmatched` | src/monitors.rs:106-109 | on failure the error names the first device that no record matches |
| `Monitors.JoinIds` | src/monitors.rs:105 | the ids are 1..N for N devices, without gaps or repeats |
| `Monitors.GetMonitors` | src/monitors.rs:99-119 | resolves devices (a failure there ends the call), collects physical monitors, then joins |
| `Monitors.GetMonitorsSpec` | src/monitors.rs:99-119 | on success there is one monitor per Target-kind mode, in mode order, the k-th with id k+1 and that target's decoded friendly name |
| `Monitors.NoTargetsNoMonitors` | src/monitors.rs:103-118 | a mode list without targets gives the empty list, not a failure |
| `Monitors.PrefixMatchExample` | src/monitors.rs:108 | a device `\\.\DISPLAY1\Monitor0` matches the record `\\.\DISPLAY1` and not `\\.\DISPLAY2` |
| `Monitors.PrefixMatchFirstWins` | src/monitors.rs:108 | the match is a plain prefix test and the first record wins: `\\.\DISPLAY1` listed first claims the device `\\.\DISPLAY10\Monitor0` |

## Left out

- The Win32 calls themselves (`EnumDisplayDevicesW`, `GetDisplayConfigBufferSizes`, `QueryDisplayConfig`, `DisplayConfigGetDeviceInfo`, `EnumDisplayMonitors`, `GetMonitorInfoW`, the physical-monitor and VCP calls): their results are inputs.
- The path array of `QueryDisplayConfig` is fetched but never read, and the size query can race with the data query; only the resulting mode list is modelled.
- `get_monitor_info` and `get_physical_monitors` (a count call, then a fill call) are each one optional result per HMONITOR; a zero count and a failed call look the same to the callback.
- The ignored return values of `DisplayConfigGetDeviceInfo`, `EnumDisplayMonitors` and the VCP read: the model uses only what those calls leave in their output arguments.
- `String::from_utf16_lossy` is a library conversion; text stays as UTF-16 code units.
- Monitors.FindMonitor: compares code units rather than the UTF-8 text produced by the lossy conversion; the two agree on well-formed UTF-16 and differ whenever either name holds an unpaired surrogate, since the conversion turns every one of them into U+FFFD.
- Monitors.Join: ids are unbounded integers; the Rust code's `i32` counter would overflow only past 2^31 - 1 displays.
- The release of physical-monitor handles, which the code never closes, and handle lifetimes in general.
- The logging of skipped HMONITORs (`eprint!`).
- `src/main.rs` (TCP listener, JSON requests and replies, lookup of a monitor by id), `src/powrprof.rs` (one foreign call to suspend the system) and `bindings/build.rs` (generation of the Win32 bindings): glue without logic of this module.
