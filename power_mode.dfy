/** The DDC/CI power-mode feature: VCP code D6h of the VESA Monitor Control
    Command Set, and the mapping between its raw values and PowerMode. */
module PowerModes {
  import opened Wrappers
  import opened MonitorErrors

  type u8 = x: int | 0 <= x < 0x100
  type u32 = x: int | 0 <= x < 0x1_0000_0000

  /** The VCP feature code of "Power Mode". */
  const VcpPowerMode: u8 := 0xD6
  const VcpPowerModeNone: u32 := 0x00
  const VcpPowerModeOn: u32 := 0x01
  const VcpPowerModeOff: u32 := 0x05

  datatype PowerMode = On | Off

  /** `PowerMode::from_vcp_code`; the `panic!` for an unknown value is the
      UnsupportedPowerMode failure. */
  function FromVcpCode(value: u32): (r: Result<PowerMode, Error>)
    ensures r == Success(On) <==> value == VcpPowerModeOn
    ensures r == Success(Off) <==> value == VcpPowerModeNone || value == VcpPowerModeOff
    ensures r.Failure? <==> value !in {VcpPowerModeNone, VcpPowerModeOn, VcpPowerModeOff}
    ensures r.Failure? ==> r.error == UnsupportedPowerMode(value)
  {
    if value == VcpPowerModeOn then Success(On)
    else if value == VcpPowerModeNone || value == VcpPowerModeOff then Success(Off)
    else Failure(UnsupportedPowerMode(value))
  }

  /** `PowerMode::vcp_code`: the raw value written for each mode, which the
      decoder maps back to the same mode. */
  function VcpCode(mode: PowerMode): (code: u32)
    ensures code == VcpPowerModeOn || code == VcpPowerModeOff
    ensures FromVcpCode(code) == Success(mode)
  {
    match mode
    case On => VcpPowerModeOn
    case Off => VcpPowerModeOff
  }

  /** Distinct modes are written as distinct raw values. */
  lemma VcpCodeInjective(a: PowerMode, b: PowerMode)
    ensures VcpCode(a) == VcpCode(b) <==> a == b
  {
  }

  /** Decoding is a partial inverse of encoding: a decodable raw value comes
      back unchanged from a decode/encode round trip exactly when it is not
      0x00, the second spelling of Off. */
  lemma FromVcpCodeThenVcpCode(value: u32)
    requires FromVcpCode(value).Success?
    ensures VcpCode(FromVcpCode(value).value) == value <==> value != VcpPowerModeNone
  {
  }
}
