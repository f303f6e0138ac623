/** `get_display_monitors` and its callback `enum_monitor_proc`: the GDI
    monitor walk that records every physical monitor with the legacy device
    name of the GDI monitor it belongs to. */
module DisplayMonitors {
  import opened Wrappers
  import opened WideStrings

  /** An OS handle to a physical monitor, used for DDC/CI. */
  datatype Handle = Handle(raw: int)

  /** What the two lookups of the callback report for one HMONITOR:
      `get_monitor_info` (its szDevice on success) and
      `get_physical_monitors` (its physical-monitor handles on success). */
  datatype HMonitorReport = HMonitorReport(
    monitorInfo: Option<NameBuffer>,
    physicalMonitors: Option<seq<Handle>>)

  /** One collected record: a GDI device name and a physical-monitor handle. */
  datatype DisplayMonitor = DisplayMonitor(deviceName: seq<CodeUnit>, handle: Handle)

  /** The BOOL a callback returns to let the enumeration go on. */
  const EnumContinue: int := 1

  /** The records one HMONITOR contributes. */
  function RecordsFor(report: HMonitorReport): seq<DisplayMonitor>
  {
    match report.monitorInfo
    case None => []
    case Some(info) =>
      match report.physicalMonitors
      case None => []
      case Some(handles) =>
        seq(|handles|, k requires 0 <= k < |handles| => DisplayMonitor(NtToString(info), handles[k]))
  }

  /** The records of a run of HMONITORs, in enumeration order. */
  function CollectedOf(reports: seq<HMonitorReport>): seq<DisplayMonitor>
  {
    if reports == [] then []
    else CollectedOf(reports[..|reports| - 1]) + RecordsFor(reports[|reports| - 1])
  }

  /** The `Vec<DisplayMonitor>` that the enumeration's LPARAM points to. */
  class MonitorCollector {
    var monitors: seq<DisplayMonitor>

    constructor ()
      ensures monitors == []
    {
      monitors := [];
    }

    /** `enum_monitor_proc` for one HMONITOR: a failed lookup adds nothing,
        otherwise one record per physical monitor is appended; either way the
        enumeration is told to continue. */
    method EnumMonitorProc(report: HMonitorReport) returns (cont: int)
      modifies this
      ensures cont == EnumContinue
      ensures monitors == old(monitors) + RecordsFor(report)
    {
      if report.monitorInfo.None? {
        return EnumContinue;
      }
      var info := report.monitorInfo.value;
      if report.physicalMonitors.None? {
        return EnumContinue;
      }
      var handles := report.physicalMonitors.value;
      var k := 0;
      while k < |handles|
        invariant k <= |handles|
        invariant monitors == old(monitors) + RecordsFor(report)[..k]
      {
        monitors := monitors + [DisplayMonitor(NtToString(info), handles[k])];
        k := k + 1;
      }
      assert RecordsFor(report)[..k] == RecordsFor(report);
      return EnumContinue;
    }
  }

  /** `get_display_monitors`: hand every HMONITOR to the callback in turn,
      as EnumDisplayMonitors does, stopping early only if the callback asks
      to stop. */
  method GetDisplayMonitors(reports: seq<HMonitorReport>) returns (monitors: seq<DisplayMonitor>)
    ensures monitors == CollectedOf(reports)
  {
    var collector := new MonitorCollector();
    var i := 0;
    var cont := EnumContinue;
    while i < |reports| && cont != 0
      invariant i <= |reports|
      invariant cont == EnumContinue
      invariant collector.monitors == CollectedOf(reports[..i])
    {
      cont := collector.EnumMonitorProc(reports[i]);
      assert reports[..i + 1][..i] == reports[..i];
      i := i + 1;
    }
    assert reports[..i] == reports;
    monitors := collector.monitors;
  }

  /** The collection of a concatenation is the concatenation of the
      collections: records keep the order of their HMONITORs. */
  lemma {:induction false} CollectedAppend(a: seq<HMonitorReport>, b: seq<HMonitorReport>)
    ensures CollectedOf(a + b) == CollectedOf(a) + CollectedOf(b)
    decreases |b|
  {
    if b == [] {
      assert a + b == a;
    } else {
      var b' := b[..|b| - 1];
      assert (a + b)[..|a + b| - 1] == a + b';
      assert (a + b)[|a + b| - 1] == b[|b| - 1];
      CollectedAppend(a, b');
      assert CollectedOf(b) == CollectedOf(b') + RecordsFor(b[|b| - 1]);
    }
  }

  /** An HMONITOR whose info or physical-monitor lookup fails adds nothing,
      and does not cut short the records of the ones after it. */
  lemma CollectedSkipsFailedHandle(a: seq<HMonitorReport>, report: HMonitorReport, b: seq<HMonitorReport>)
    requires report.monitorInfo.None? || report.physicalMonitors.None?
    ensures CollectedOf(a + [report] + b) == CollectedOf(a) + CollectedOf(b)
  {
    assert RecordsFor(report) == [];
    assert CollectedOf([report]) == [] by {
      assert [report][..0] == [];
    }
    CollectedAppend(a, [report]);
    assert CollectedOf(a + [report]) == CollectedOf(a);
    CollectedAppend(a + [report], b);
  }

  /** A record is collected exactly when some HMONITOR with both lookups
      succeeding has it among its physical monitors, carrying that
      HMONITOR's decoded device name. */
  lemma {:induction false} CollectedMembership(reports: seq<HMonitorReport>, dm: DisplayMonitor)
    ensures dm in CollectedOf(reports) <==>
      exists i :: 0 <= i < |reports| && dm in RecordsFor(reports[i])
    decreases |reports|
  {
    if reports != [] {
      var init := reports[..|reports| - 1];
      CollectedMembership(init, dm);
      assert forall i :: 0 <= i < |init| ==> init[i] == reports[i];
    }
  }

  /** The records of one HMONITOR: none if a lookup failed, otherwise one per
      physical monitor, in order, all with that HMONITOR's device name. */
  lemma RecordsForShape(report: HMonitorReport)
    ensures report.monitorInfo.None? || report.physicalMonitors.None? ==> RecordsFor(report) == []
    ensures report.monitorInfo.Some? && report.physicalMonitors.Some? ==>
      var handles := report.physicalMonitors.value;
      |RecordsFor(report)| == |handles| &&
      forall k :: 0 <= k < |handles| ==>
        RecordsFor(report)[k] == DisplayMonitor(NtToString(report.monitorInfo.value), handles[k])
  {
  }
}
