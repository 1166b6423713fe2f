/** The 91-byte feature report of `send_cmd`: a six-byte zero header (report
    number, status, four bytes of padding), the opcode bytes, the argument
    bytes, zero padding up to offset 89, the footer byte, and a final zero. */
module Report {
  import opened Bytes
  import opened Hid

  const HEADER_LEN := 6
  const FOOTER_AT := 89
  const REPORT_LEN := 91

  function Zeros(n: nat): (z: seq<uint8>)
    ensures |z| == n && forall i :: 0 <= i < n ==> z[i] == 0
  {
    seq(n, _ => 0)
  }

  /** The padding length `89 - buf.len()` is computed on an unsigned size
      after the header, opcode and arguments have been pushed: it does not
      underflow exactly when they end at or before the footer's offset. */
  predicate Fits(cmd: seq<uint8>, args: seq<uint8>) {
    HEADER_LEN + |cmd| + |args| <= FOOTER_AT
  }

  /** The report `send_cmd` writes for opcode `cmd`, arguments `args` and
      footer `footer`. (`to_le_bytes()[0]` of a `u8` is that byte.) */
  function Layout(cmd: seq<uint8>, args: seq<uint8>, footer: uint8): (buf: seq<uint8>)
    requires Fits(cmd, args)
    ensures |buf| == REPORT_LEN
  {
    Zeros(HEADER_LEN) + cmd + args + Zeros(FOOTER_AT - HEADER_LEN - |cmd| - |args|) + [footer, 0]
  }

  /** Region by region, the report holds exactly its inputs: zero header,
      opcode from offset 6, arguments right after it, zeros up to offset 89,
      the footer at 89 and a zero at 90. */
  lemma LayoutRegions(cmd: seq<uint8>, args: seq<uint8>, footer: uint8)
    requires Fits(cmd, args)
    ensures var buf := Layout(cmd, args, footer);
      && (forall i :: 0 <= i < HEADER_LEN ==> buf[i] == 0)
      && buf[HEADER_LEN..HEADER_LEN + |cmd|] == cmd
      && buf[HEADER_LEN + |cmd|..HEADER_LEN + |cmd| + |args|] == args
      && (forall i :: HEADER_LEN + |cmd| + |args| <= i < FOOTER_AT ==> buf[i] == 0)
      && buf[FOOTER_AT] == footer
      && buf[FOOTER_AT + 1] == 0
  {
    var buf := Layout(cmd, args, footer);
    var pre := Zeros(HEADER_LEN) + cmd;
    assert buf == pre + args + Zeros(FOOTER_AT - HEADER_LEN - |cmd| - |args|) + [footer, 0];
    assert buf[HEADER_LEN..HEADER_LEN + |cmd|] == pre[HEADER_LEN..];
    assert buf[HEADER_LEN + |cmd|..HEADER_LEN + |cmd| + |args|] == (pre + args)[|pre|..];
  }

  /** Reading the three fields back out of a report, given the opcode and
      argument lengths. */
  function Fields(buf: seq<uint8>, cmdLen: nat, argLen: nat): (f: (seq<uint8>, seq<uint8>, uint8))
    requires HEADER_LEN + cmdLen + argLen <= FOOTER_AT < |buf|
  {
    (buf[HEADER_LEN..HEADER_LEN + cmdLen], buf[HEADER_LEN + cmdLen..HEADER_LEN + cmdLen + argLen], buf[FOOTER_AT])
  }

  /** The layout loses nothing: the opcode, the arguments and the footer are
      recovered from the report, so two different commands of the same shape
      never produce the same report. */
  lemma FieldsOfLayout(cmd: seq<uint8>, args: seq<uint8>, footer: uint8)
    requires Fits(cmd, args)
    ensures Fields(Layout(cmd, args, footer), |cmd|, |args|) == (cmd, args, footer)
  {
    LayoutRegions(cmd, args, footer);
  }

  /** The eight-bit exclusive or of a sequence of bytes. */
  function Xor(s: seq<uint8>): bv8 {
    if |s| == 0 then 0 else (s[0] as bv8) ^ Xor(s[1..])
  }

  lemma {:induction false} XorAppend(a: seq<uint8>, b: seq<uint8>)
    ensures Xor(a + b) == Xor(a) ^ Xor(b)
  {
    if |a| == 0 {
      assert a + b == b;
    } else {
      assert (a + b)[1..] == a[1..] + b;
      XorAppend(a[1..], b);
    }
  }

  lemma {:induction false} XorZeros(n: nat)
    ensures Xor(Zeros(n)) == 0
  {
    if n > 0 {
      assert Zeros(n)[1..] == Zeros(n - 1);
      XorZeros(n - 1);
    }
  }

  /** The exclusive or of the bytes from offset 2 up to offset 88, which
      every footer in the command tables equals (`ChecksumOfLayout`,
      `SentReportsWellFormed`). */
  function Checksum(buf: seq<uint8>): bv8
    requires |buf| >= FOOTER_AT
  {
    Xor(buf[2..FOOTER_AT])
  }

  /** Only the opcode and argument bytes contribute to the checksum, since
      everything else between offsets 2 and 88 is zero. */
  lemma ChecksumOfLayout(cmd: seq<uint8>, args: seq<uint8>, footer: uint8)
    requires Fits(cmd, args)
    ensures Checksum(Layout(cmd, args, footer)) == Xor(cmd + args)
  {
    var pad := Zeros(FOOTER_AT - HEADER_LEN - |cmd| - |args|);
    var buf := Layout(cmd, args, footer);
    assert buf[2..FOOTER_AT] == Zeros(HEADER_LEN - 2) + (cmd + args) + pad;
    XorAppend(Zeros(HEADER_LEN - 2) + (cmd + args), pad);
    XorAppend(Zeros(HEADER_LEN - 2), cmd + args);
    XorZeros(HEADER_LEN - 2);
    XorZeros(|pad|);
  }

  /** `send_cmd`'s buffer construction, step by step: zero header, opcode
      bytes pushed one at a time, argument bytes pushed one at a time, zero
      padding to offset 89, then the footer and the terminating zero. */
  method BuildReport(cmd: seq<uint8>, args: seq<uint8>, footer: uint8) returns (buf: seq<uint8>)
    requires Fits(cmd, args)
    ensures buf == Layout(cmd, args, footer)
  {
    buf := Zeros(HEADER_LEN);
    for i := 0 to |cmd|
      invariant buf == Zeros(HEADER_LEN) + cmd[..i]
    {
      buf := buf + [cmd[i]];
    }
    for i := 0 to |args|
      invariant buf == Zeros(HEADER_LEN) + cmd + args[..i]
    {
      buf := buf + [args[i]];
    }
    buf := buf + Zeros(FOOTER_AT - |buf|);
    buf := buf + [footer];
    buf := buf + [0];
  }

  /** `send_cmd`: builds the report and writes it to the device as one
      feature report. */
  method SendCmd(device: HidDevice, cmd: seq<uint8>, args: seq<uint8>, footer: uint8)
    requires Fits(cmd, args)
    modifies device
    ensures device.sent == old(device.sent) + [Layout(cmd, args, footer)]
  {
    var buf := BuildReport(cmd, args, footer);
    device.SendFeatureReport(buf);
  }
}
