/**
 * The Board's introspection helpers that reformat a value obtained from the
 * platform runtime. The platform value is a parameter.
 */
module SystemInfo {
  import opened Types

  // Flash chip access modes as the ESP8266 core numbers them.
  const FM_QIO: uint8 := 0
  const FM_QOUT: uint8 := 1
  const FM_DIO: uint8 := 2
  const FM_DOUT: uint8 := 3

  /** The name getFlashMode reports for the chip's flash mode. Every mode
      other than the four known ones reads "UNKNOWN", and a known mode's
      name identifies it again. */
  function FlashModeName(mode: uint8): (name: string)
    ensures name == "UNKNOWN" <==> mode > FM_DOUT
    ensures mode <= FM_DOUT ==> FlashModeOf(name) == Some(mode)
  {
    if mode == FM_QIO then "QIO"
    else if mode == FM_QOUT then "QOUT"
    else if mode == FM_DIO then "DIO"
    else if mode == FM_DOUT then "DOUT"
    else "UNKNOWN"
  }

  /** Reads a flash-mode name back; None for "UNKNOWN" and anything else. */
  function FlashModeOf(name: string): Option<uint8> {
    if name == "QIO" then Some(FM_QIO)
    else if name == "QOUT" then Some(FM_QOUT)
    else if name == "DIO" then Some(FM_DIO)
    else if name == "DOUT" then Some(FM_DOUT)
    else None
  }

  /** Distinct modes get distinct names, except that all unknown modes
      share "UNKNOWN". */
  lemma FlashModeNamesDistinct(m1: uint8, m2: uint8)
    requires m1 != m2
    requires m1 <= FM_DOUT
    ensures FlashModeName(m1) != FlashModeName(m2)
  {
    if m2 <= FM_DOUT {
      assert FlashModeOf(FlashModeName(m1)) != FlashModeOf(FlashModeName(m2));
    }
  }

  const HZ_PER_MHZ: int := 1000000

  /** getCPUFreqMhz: the clock the platform reports in MHz (an 8-bit value),
      converted to Hz. The product always fits in 32 bits, so the
      conversion is exact and loses nothing. */
  function CpuFreqHz(mhz: uint8): (hz: uint32)
    ensures hz as int / HZ_PER_MHZ == mhz as int
    ensures hz as int % HZ_PER_MHZ == 0
  {
    (mhz as int * HZ_PER_MHZ) as uint32
  }

  const REASON_PREFIX: string := "{\"cpu0\":\""
  const REASON_SUFFIX: string := "\"}"

  /** restartReason: the platform's reset-reason text wrapped as the JSON
      object {"cpu0":"<reason>"}; the text is inserted verbatim and can be
      recovered from the report. */
  function RestartReason(reason: string): (report: string)
    ensures |report| == |reason| + |REASON_PREFIX| + |REASON_SUFFIX|
    ensures ReasonOf(report) == Some(reason)
  {
    REASON_PREFIX + reason + REASON_SUFFIX
  }

  /** Extracts the reason from a report of the form {"cpu0":"<reason>"}. */
  function ReasonOf(report: string): Option<string> {
    var n := |report|;
    if n >= |REASON_PREFIX| + |REASON_SUFFIX|
       && report[..|REASON_PREFIX|] == REASON_PREFIX
       && report[n - |REASON_SUFFIX|..] == REASON_SUFFIX
    then Some(report[|REASON_PREFIX|..n - |REASON_SUFFIX|])
    else None
  }

  /** Every well-formed report is the wrapping of exactly one reason. */
  lemma ReasonOfIsInverse(report: string)
    requires ReasonOf(report).Some?
    ensures RestartReason(ReasonOf(report).value) == report
  {
    var n := |report|;
    var reason := report[|REASON_PREFIX|..n - |REASON_SUFFIX|];
    assert report == report[..|REASON_PREFIX|] + reason + report[n - |REASON_SUFFIX|..];
  }
}
