/** UTF-16 code units and the fixed-size, null-terminated buffers that the
    Win32 display APIs fill in. Text is kept as code units: the lossy
    UTF-16 to UTF-8 conversion is not part of this model. */
module WideStrings {

  /** One UTF-16 code unit (a Rust `u16`). */
  type CodeUnit = x: int | 0 <= x < 0x1_0000

  function Zeros(n: nat): (b: seq<CodeUnit>)
    ensures |b| == n
    ensures forall i :: 0 <= i < n ==> b[i] == 0
  {
    seq(n, _ => 0)
  }

  /** `[u16; 32]`: DISPLAY_DEVICEW.DeviceName and MONITORINFOEXW.szDevice. */
  type NameBuffer = b: seq<CodeUnit> | |b| == 32 witness Zeros(32)

  /** `[u16; 64]`: DISPLAYCONFIG_TARGET_DEVICE_NAME.monitorFriendlyDeviceName. */
  type FriendlyNameBuffer = b: seq<CodeUnit> | |b| == 64 witness Zeros(64)

  /** `[u16; 128]`: DISPLAY_DEVICEW.DeviceID and
      DISPLAYCONFIG_TARGET_DEVICE_NAME.monitorDevicePath. */
  type PathBuffer = b: seq<CodeUnit> | |b| == 128 witness Zeros(128)

  /** The number of code units before the first 0 (all of them when there
      is no 0): the `take_while(|&&i| i != 0).count()` of the decoder. */
  function TerminatorIndex(buf: seq<CodeUnit>): (n: nat)
    ensures n <= |buf|
    ensures forall i :: 0 <= i < n ==> buf[i] != 0
    ensures n < |buf| ==> buf[n] == 0
  {
    if buf == [] || buf[0] == 0 then 0 else 1 + TerminatorIndex(buf[1..])
  }

  /** `utf16_nt_to_string`: the code units before the first terminator. */
  function NtToString(buf: seq<CodeUnit>): (s: seq<CodeUnit>)
    ensures s <= buf
    ensures 0 !in s
    ensures |s| < |buf| ==> buf[|s|] == 0
  {
    buf[..TerminatorIndex(buf)]
  }

  /** The three properties of NtToString determine its result: any prefix
      without a 0 that ends at the buffer's end or at a 0 is that result. */
  lemma NtToStringUnique(buf: seq<CodeUnit>, s: seq<CodeUnit>)
    requires s <= buf && 0 !in s
    requires |s| < |buf| ==> buf[|s|] == 0
    ensures NtToString(buf) == s
  {
    assert forall i :: 0 <= i < |s| ==> buf[i] == s[i];
  }

  /** A buffer that holds no terminator is decoded whole. */
  lemma NtToStringWhole(buf: seq<CodeUnit>)
    requires 0 !in buf
    ensures NtToString(buf) == buf
  {
    NtToStringUnique(buf, buf);
  }

  /** Whatever follows the first terminator does not reach the decoded text. */
  lemma NtToStringIgnoresTail(s: seq<CodeUnit>, tail: seq<CodeUnit>)
    requires 0 !in s
    ensures NtToString(s + [0] + tail) == s
  {
    var buf := s + [0] + tail;
    assert s <= buf;
    assert buf[|s|] == 0;
    NtToStringUnique(buf, s);
  }

  /** Decoding text that was already decoded changes nothing. */
  lemma NtToStringIdempotent(buf: seq<CodeUnit>)
    ensures NtToString(NtToString(buf)) == NtToString(buf)
  {
    NtToStringWhole(NtToString(buf));
  }

  /** Rust's `str::starts_with`, over code units. */
  predicate StartsWith(s: seq<CodeUnit>, prefix: seq<CodeUnit>)
  {
    |prefix| <= |s| && s[..|prefix|] == prefix
  }

  /** ASCII text as code units, for stating examples. */
  function Wide(text: string): (units: seq<CodeUnit>)
    requires forall i :: 0 <= i < |text| ==> text[i] as int < 0x80
    ensures |units| == |text|
    ensures forall i :: 0 <= i < |text| ==> units[i] == text[i] as int
  {
    seq(|text|, i requires 0 <= i < |text| => text[i] as int)
  }
}
