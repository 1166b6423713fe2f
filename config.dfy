/** The program's options once parsed: the device filter, which may be
    overridden on the command line and otherwise takes the built-in
    DeathAdder identifiers, and the three optional settings to apply. */
module Config {
  import opened Wrappers
  import opened Bytes

  const VID: uint16 := 0x1532
  const PID_WIRE: uint16 := 0x00c2
  const PID_WIRELESS: uint16 := 0x00c3
  const USAGE: uint16 := 2
  const USAGE_PAGE: uint16 := 1

  datatype AppArgs = AppArgs(
    vid: uint16,
    pidWire: uint16,
    pidWireless: uint16,
    usage: uint16,
    usagePage: uint16,
    dpi: Option<uint16>,
    hz: Option<uint16>,
    whz: Option<uint16>)

  function OrDefault(o: Option<uint16>, default: uint16): uint16 {
    match o
    case Some(v) => v
    case None => default
  }

  /** Builds the options from already-parsed values: each filter field takes
      the value given on the command line, or its built-in constant when the
      flag is absent; the three settings stay optional. */
  function WithDefaults(
    vid: Option<uint16>, pidWire: Option<uint16>, pidWireless: Option<uint16>,
    usage: Option<uint16>, usagePage: Option<uint16>,
    dpi: Option<uint16>, hz: Option<uint16>, whz: Option<uint16>): (a: AppArgs)
    ensures vid.Some? ==> a.vid == vid.value
    ensures vid.None? ==> a.vid == VID
    ensures pidWire.Some? ==> a.pidWire == pidWire.value
    ensures pidWire.None? ==> a.pidWire == PID_WIRE
    ensures pidWireless.Some? ==> a.pidWireless == pidWireless.value
    ensures pidWireless.None? ==> a.pidWireless == PID_WIRELESS
    ensures usage.Some? ==> a.usage == usage.value
    ensures usage.None? ==> a.usage == USAGE
    ensures usagePage.Some? ==> a.usagePage == usagePage.value
    ensures usagePage.None? ==> a.usagePage == USAGE_PAGE
    ensures a.dpi == dpi && a.hz == hz && a.whz == whz
  {
    AppArgs(
      OrDefault(vid, VID), OrDefault(pidWire, PID_WIRE), OrDefault(pidWireless, PID_WIRELESS),
      OrDefault(usage, USAGE), OrDefault(usagePage, USAGE_PAGE),
      dpi, hz, whz)
  }
}
