/** The failures of the core. `src/monitors.rs` aborts the process for the first
    three (`panic!` and `unwrap`) and returns an error value for the last. */
module MonitorErrors {
  import opened WideStrings

  datatype Error =
    /** A power-mode reply other than 0x00, 0x01 or 0x05. */
    | UnsupportedPowerMode(value: int)
    /** A display target whose device path has no entry in the device map. */
    | DevicePathNotFound(devicePath: seq<CodeUnit>)
    /** A display device whose legacy name no physical monitor's name prefixes. */
    | NoMatchingPhysicalMonitor(deviceName: seq<CodeUnit>)
    /** The VCP write did not report success ("failed to set power mode"). */
    | SetPowerModeFailed
}
