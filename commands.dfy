/** The command table of `main`: for each setting, the opcode bytes, the
    argument bytes and the footer byte handed to `send_cmd`. Rust's `match`
    on a number is modelled as its list of arms, tried in order, the first
    arm whose pattern equals the number winning, so that arms written after
    an equal pattern are present in the model and provably never taken. */
module Commands {
  import opened Wrappers
  import opened Bytes
  import opened Report
  import Search

  datatype CommandSpec = CommandSpec(opcode: seq<uint8>, args: seq<uint8>, footer: uint8)

  /** One arm `rate => (cmd, arg, footer)` of a `match`. */
  datatype Arm = Arm(rate: uint16, spec: CommandSpec)

  /** The `match` over `arms`: the spec of the first arm whose rate is
      `rate`, or None for the `_ => unreachable!()` arm. */
  function Select(arms: seq<Arm>, rate: uint16): (r: Option<CommandSpec>)
    ensures r.None? <==> forall i :: 0 <= i < |arms| ==> arms[i].rate != rate
    ensures forall i :: 0 <= i < |arms| && arms[i].rate == rate ==>
      (forall j :: 0 <= j < i ==> arms[j].rate != rate) ==> r == Some(arms[i].spec)
  {
    match Search.FirstIndex(arms, (a: Arm) => a.rate == rate)
    case Some(i) => Some(arms[i].spec)
    case None => None
  }

  /** The footer is the checksum of the report: the exclusive or of the
      opcode and argument bytes. */
  predicate ChecksumOk(c: CommandSpec) {
    c.footer as bv8 == Xor(c.opcode + c.args)
  }

  /** A four-byte opcode, and arguments short enough for the report. */
  predicate Sendable(c: CommandSpec) {
    |c.opcode| == 4 && Fits(c.opcode, c.args)
  }

  // ---- DPI ----

  const DPI_OPCODE: seq<uint8> := [0x07, 0x04, 0x05, 0x01]
  const DPI_FOOTER: uint8 := 0x07

  /** `u16::to_be_bytes`: high byte first. */
  function ToBeBytes(v: uint16): (b: seq<uint8>)
    ensures |b| == 2 && b[0] as int * 0x100 + b[1] as int == v
  {
    [v / 0x100, v % 0x100]
  }

  /** The DPI command: the value's big-endian bytes, then the same two bytes
      again, with the fixed opcode and footer. */
  function DpiCommand(dpi: uint16): (c: CommandSpec)
    ensures c.opcode == DPI_OPCODE && c.footer == DPI_FOOTER
    ensures |c.args| == 4 && c.args[2..] == c.args[..2]
    ensures c.args[0] as int * 0x100 + c.args[1] as int == dpi
  {
    var args := ToBeBytes(dpi);
    CommandSpec(DPI_OPCODE, args + args, DPI_FOOTER)
  }

  /** The two argument bytes determine the DPI value: distinct values give
      distinct commands. */
  lemma DpiCommandInjective(d1: uint16, d2: uint16)
    requires DpiCommand(d1) == DpiCommand(d2)
    ensures d1 == d2
  {
    var a := DpiCommand(d1).args;
    assert a[0] as int * 0x100 + a[1] as int == d1;
  }

  /** Whatever the value, the DPI command's footer is its checksum: the two
      copies of the value cancel out. */
  lemma DpiCommandChecksum(dpi: uint16)
    ensures ChecksumOk(DpiCommand(dpi))
  {
    var c := DpiCommand(dpi);
    var h, l := c.args[0], c.args[1];
    assert c.opcode + c.args == [0x07, 0x04, 0x05, 0x01, h, l, h, l];
    XorPair(h, l);
    XorAppend([h, l], [h, l]);
    XorAppend(DPI_OPCODE, [h, l, h, l]);
    assert [h, l] + [h, l] == [h, l, h, l];
    XorPair(0x07, 0x04);
    XorPair(0x05, 0x01);
    XorAppend([0x07, 0x04], [0x05, 0x01]);
    assert [0x07, 0x04] + [0x05, 0x01] == DPI_OPCODE;
  }

  lemma XorPair(a: uint8, b: uint8)
    ensures Xor([a, b]) == (a as bv8) ^ (b as bv8)
  {
    assert [a, b][1..] == [b];
    assert [b][1..] == [];
    assert Xor([b]) == (b as bv8) ^ 0;
  }

  /** DPI 800 (0x0320) is sent as 03 20 03 20. */
  lemma Dpi800()
    ensures DpiCommand(800).args == [0x03, 0x20, 0x03, 0x20]
  {
  }

  // ---- Wired polling rate ----

  const WIRED_125: CommandSpec := CommandSpec([0x01, 0x00, 0x05, 0x08], [0x00], 0x0c)
  const WIRED_500: CommandSpec := CommandSpec([0x01, 0x00, 0x05, 0x02], [0x00], 0x06)
  const WIRED_1000: CommandSpec := CommandSpec([0x01, 0x00, 0x05, 0x01], [0x00], 0x05)

  /** The arms of the `match hz` exactly as written: the first three give
      every rate the 125 Hz encoding, and the last two repeat the patterns
      500 and 1000 with their own encodings. */
  const WIRED_ARMS: seq<Arm> := [
    Arm(125, WIRED_125),
    Arm(500, WIRED_125),
    Arm(1000, WIRED_125),
    Arm(500, WIRED_500),
    Arm(1000, WIRED_1000)]

  /** The wired polling-rate command as the program computes it: 125, 500
      and 1000 all yield 01 00 05 08 / 00 / 0c; any other rate reaches
      `unreachable!()`. */
  function WiredRate(hz: uint16): (r: Option<CommandSpec>)
    ensures r.Some? <==> hz == 125 || hz == 500 || hz == 1000
    ensures r.Some? ==> r.value == WIRED_125
  {
    assert WIRED_ARMS[0].rate == 125 && WIRED_ARMS[1].rate == 500 && WIRED_ARMS[2].rate == 1000;
    Select(WIRED_ARMS, hz)
  }

  /** The fourth and fifth arms are shadowed: no rate ever selects them. */
  lemma WiredLateArmsUnreachable(hz: uint16)
    ensures Search.FirstIndex(WIRED_ARMS, (a: Arm) => a.rate == hz) != Some(3)
    ensures Search.FirstIndex(WIRED_ARMS, (a: Arm) => a.rate == hz) != Some(4)
  {
    assert WIRED_ARMS[1].rate == 500 && WIRED_ARMS[2].rate == 1000;
  }

  /** As written, the wired table cannot tell 500 Hz or 1000 Hz from 125 Hz:
      the device is sent the 125 Hz encoding for all three. */
  lemma WiredRateCollapses()
    ensures WiredRate(500) == WiredRate(125) && WiredRate(1000) == WiredRate(125)
  {
  }

  /** The wired table the program's comments and its shadowed arms describe:
      each rate with its own opcode and footer. */
  function IntendedWiredRate(hz: uint16): (r: Option<CommandSpec>)
    ensures r.Some? <==> hz == 125 || hz == 500 || hz == 1000
    ensures r.Some? ==> |r.value.opcode| == 4 && r.value.opcode[..3] == [0x01, 0x00, 0x05] && r.value.args == [0x00]
    ensures hz == 125 ==> r == Some(CommandSpec([0x01, 0x00, 0x05, 0x08], [0x00], 0x0c))
    ensures hz == 500 ==> r == Some(CommandSpec([0x01, 0x00, 0x05, 0x02], [0x00], 0x06))
    ensures hz == 1000 ==> r == Some(CommandSpec([0x01, 0x00, 0x05, 0x01], [0x00], 0x05))
  {
    match hz
    case 125 => Some(WIRED_125)
    case 500 => Some(WIRED_500)
    case 1000 => Some(WIRED_1000)
    case _ => None
  }

  /** The intended table is what each rate's LAST arm in the `match` says, and
      it gives every rate a different encoding. */
  lemma IntendedWiredRateFromArms(hz: uint16)
    ensures hz == 125 ==> IntendedWiredRate(hz) == Some(WIRED_ARMS[0].spec)
    ensures hz == 500 ==> IntendedWiredRate(hz) == Some(WIRED_ARMS[3].spec)
    ensures hz == 1000 ==> IntendedWiredRate(hz) == Some(WIRED_ARMS[4].spec)
  {
  }

  lemma IntendedWiredRateInjective(h1: uint16, h2: uint16)
    requires IntendedWiredRate(h1).Some? && IntendedWiredRate(h1) == IntendedWiredRate(h2)
    ensures h1 == h2
  {
  }

  // ---- Wireless polling rate ----

  const WIRELESS_ARMS: seq<Arm> := [
    Arm(125, CommandSpec([0x02, 0x00, 0x40, 0x01], [0x40], 0x03)),
    Arm(500, CommandSpec([0x02, 0x00, 0x40, 0x01], [0x10], 0x53)),
    Arm(1000, CommandSpec([0x02, 0x00, 0x40, 0x00], [0x08], 0x4a)),
    Arm(2000, CommandSpec([0x02, 0x00, 0x40, 0x01], [0x04], 0x47)),
    Arm(4000, CommandSpec([0x02, 0x00, 0x40, 0x01], [0x02], 0x41)),
    Arm(8000, CommandSpec([0x02, 0x00, 0x40, 0x01], [0x01], 0x42))]

  /** The wireless polling-rate command: six supported rates, each with its
      own argument byte and footer; any other rate reaches `unreachable!()`. */
  function WirelessRate(whz: uint16): (r: Option<CommandSpec>)
    ensures r.Some? <==> whz in {125, 500, 1000, 2000, 4000, 8000}
    ensures whz == 125 ==> r == Some(CommandSpec([0x02, 0x00, 0x40, 0x01], [0x40], 0x03))
    ensures whz == 500 ==> r == Some(CommandSpec([0x02, 0x00, 0x40, 0x01], [0x10], 0x53))
    ensures whz == 1000 ==> r == Some(CommandSpec([0x02, 0x00, 0x40, 0x00], [0x08], 0x4a))
    ensures whz == 2000 ==> r == Some(CommandSpec([0x02, 0x00, 0x40, 0x01], [0x04], 0x47))
    ensures whz == 4000 ==> r == Some(CommandSpec([0x02, 0x00, 0x40, 0x01], [0x02], 0x41))
    ensures whz == 8000 ==> r == Some(CommandSpec([0x02, 0x00, 0x40, 0x01], [0x01], 0x42))
  {
    Select(WIRELESS_ARMS, whz)
  }

  /** Only 1000 Hz clears the last opcode byte, and no two wireless rates
      share an encoding. */
  lemma WirelessRateDistinct(w1: uint16, w2: uint16)
    requires WirelessRate(w1).Some? && WirelessRate(w2).Some?
    ensures WirelessRate(w1).value.opcode[3] == 0 <==> w1 == 1000
    ensures WirelessRate(w1) == WirelessRate(w2) ==> w1 == w2
  {
  }

  /** Every rate command of both wired tables carries its checksum as
      footer. */
  lemma WiredRateChecksum(hz: uint16)
    ensures WiredRate(hz).Some? ==> ChecksumOk(WiredRate(hz).value)
    ensures IntendedWiredRate(hz).Some? ==> ChecksumOk(IntendedWiredRate(hz).value)
  {
    RateCommandChecksum(WIRED_125);
    RateCommandChecksum(WIRED_500);
    RateCommandChecksum(WIRED_1000);
  }

  /** Every wireless rate command carries its checksum as footer. */
  lemma WirelessRateChecksum(whz: uint16)
    ensures WirelessRate(whz).Some? ==> ChecksumOk(WirelessRate(whz).value)
  {
    RateCommandChecksum(WIRELESS_ARMS[0].spec);
    RateCommandChecksum(WIRELESS_ARMS[1].spec);
    RateCommandChecksum(WIRELESS_ARMS[2].spec);
    RateCommandChecksum(WIRELESS_ARMS[3].spec);
    RateCommandChecksum(WIRELESS_ARMS[4].spec);
    RateCommandChecksum(WIRELESS_ARMS[5].spec);
  }

  /** A polling-rate command, with four opcode bytes and one argument byte,
      carries its checksum when its footer is the exclusive or of those five
      bytes. */
  lemma RateCommandChecksum(c: CommandSpec)
    requires |c.opcode| == 4 && |c.args| == 1
    requires c.footer as bv8 == (c.opcode[0] as bv8) ^ (c.opcode[1] as bv8) ^ (c.opcode[2] as bv8)
      ^ (c.opcode[3] as bv8) ^ (c.args[0] as bv8)
    ensures ChecksumOk(c)
  {
    var o, a := c.opcode, c.args;
    XorPair(o[0], o[1]);
    XorPair(o[2], o[3]);
    assert o == [o[0], o[1]] + [o[2], o[3]];
    XorAppend([o[0], o[1]], [o[2], o[3]]);
    XorAppend(o, a);
    assert a[1..] == [];
  }
}
