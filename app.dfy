/** The body of `main` once the options are parsed: find the mouse, open it,
    then send the DPI command, the wired polling-rate command and the
    wireless polling-rate command, each only when its option was given, in
    that order. A rate the table does not know stops the run where it is
    (the program panics at `unreachable!()`), after the reports already
    sent. */
module App {
  import opened Wrappers
  import opened Bytes
  import opened Hid
  import opened Config
  import opened DeviceFilter
  import opened Report
  import opened Commands

  /** Which wired polling-rate table a run uses: the one the program
      executes, or the per-rate one its comments and shadowed arms give. */
  datatype WiredTable = AsWritten | Intended

  /** One setting to apply. */
  datatype Request = SetDpi(dpi: uint16) | SetWiredRate(hz: uint16) | SetWirelessRate(whz: uint16)

  datatype Failure = DeviceNotFound(reason: string) | Unsupported(request: Request)

  /** Position of a setting in the fixed send order. */
  function Rank(r: Request): nat {
    match r
    case SetDpi(_) => 0
    case SetWiredRate(_) => 1
    case SetWirelessRate(_) => 2
  }

  function Count(o: Option<uint16>): nat {
    if o.Some? then 1 else 0
  }

  /** The settings requested by the options, in the order `main` handles
      them: one per option present. */
  function Requests(args: AppArgs): (rs: seq<Request>)
    ensures |rs| == Count(args.dpi) + Count(args.hz) + Count(args.whz)
  {
    (if args.dpi.Some? then [SetDpi(args.dpi.value)] else [])
    + (if args.hz.Some? then [SetWiredRate(args.hz.value)] else [])
    + (if args.whz.Some? then [SetWirelessRate(args.whz.value)] else [])
  }

  /** The requests are ordered DPI, wired, wireless; each carries the value
      of its own option, and each option present has its request. */
  lemma RequestsInOrder(args: AppArgs)
    ensures var rs := Requests(args);
      && (forall i, j :: 0 <= i < j < |rs| ==> Rank(rs[i]) < Rank(rs[j]))
      && (forall r :: r in rs ==>
            match r
            case SetDpi(d) => args.dpi == Some(d)
            case SetWiredRate(h) => args.hz == Some(h)
            case SetWirelessRate(w) => args.whz == Some(w))
      && (args.dpi.Some? ==> SetDpi(args.dpi.value) in rs)
      && (args.hz.Some? ==> SetWiredRate(args.hz.value) in rs)
      && (args.whz.Some? ==> SetWirelessRate(args.whz.value) in rs)
  {
  }

  /** The command table lookup for one setting; None where the program
      reaches `unreachable!()`. Whatever it yields can be sent. */
  function Encode(r: Request, table: WiredTable): (c: Option<CommandSpec>)
    ensures c.Some? ==> Sendable(c.value)
  {
    match r
    case SetDpi(d) => Some(DpiCommand(d))
    case SetWiredRate(h) => if table == AsWritten then WiredRate(h) else IntendedWiredRate(h)
    case SetWirelessRate(w) => WirelessRate(w)
  }

  /** Every command the table yields carries its checksum as footer. */
  lemma EncodeChecksum(r: Request, table: WiredTable)
    ensures Encode(r, table).Some? ==> ChecksumOk(Encode(r, table).value)
  {
    match r
    case SetDpi(d) => DpiCommandChecksum(d);
    case SetWiredRate(h) => WiredRateChecksum(h);
    case SetWirelessRate(w) => WirelessRateChecksum(w);
  }

  /** A setting together with the result of its table lookup. */
  datatype Step = Step(request: Request, command: Option<CommandSpec>)

  /** The lookups of a sequence of requests, one step per request. */
  function Lookups(rs: seq<Request>, table: WiredTable): (steps: seq<Step>)
    ensures |steps| == |rs|
    ensures forall i :: 0 <= i < |rs| ==> steps[i] == Step(rs[i], Encode(rs[i], table))
  {
    seq(|rs|, i requires 0 <= i < |rs| => Step(rs[i], Encode(rs[i], table)))
  }

  /** How far a run got: the commands sent, and the failure that stopped it. */
  datatype Progress = Progress(sent: seq<CommandSpec>, failure: Option<Failure>)

  /** Handling the looked-up requests in order: each command is sent, until
      a request without one, which stops the run with nothing after it
      sent. */
  function Execute(steps: seq<Step>): (p: Progress)
    ensures |p.sent| <= |steps|
    ensures p.failure.None? ==> |p.sent| == |steps|
    ensures p.failure.Some? ==>
      |p.sent| < |steps| && steps[|p.sent|].command.None? && p.failure == Some(Unsupported(steps[|p.sent|].request))
  {
    if |steps| == 0 then Progress([], None)
    else match steps[0].command
      case None => Progress([], Some(Unsupported(steps[0].request)))
      case Some(c) =>
        var rest := Execute(steps[1..]);
        Progress([c] + rest.sent, rest.failure)
  }

  /** The i-th command sent is the command of the i-th step. */
  lemma {:induction false} ExecuteSendsInOrder(steps: seq<Step>)
    ensures forall i :: 0 <= i < |Execute(steps).sent| ==> steps[i].command == Some(Execute(steps).sent[i])
  {
    if |steps| > 0 && steps[0].command.Some? {
      ExecuteSendsInOrder(steps[1..]);
      var rest := Execute(steps[1..]).sent;
      assert Execute(steps).sent == [steps[0].command.value] + rest;
    }
  }

  /** Handling one more step after a prefix that went through: its command
      is sent, or it is the one that stops the run. */
  lemma {:induction false} ExecuteSnoc(steps: seq<Step>, s: Step)
    requires Execute(steps).failure.None?
    ensures Execute(steps + [s]) ==
      match s.command
      case Some(c) => Progress(Execute(steps).sent + [c], None)
      case None => Progress(Execute(steps).sent, Some(Unsupported(s.request)))
  {
    if |steps| > 0 {
      assert (steps + [s])[1..] == steps[1..] + [s];
      ExecuteSnoc(steps[1..], s);
    } else {
      assert steps + [s] == [s];
    }
  }

  /** Once the steps handled so far stop the run, the steps after them make
      no difference. */
  lemma {:induction false} ExecuteStops(steps: seq<Step>, more: seq<Step>)
    requires Execute(steps).failure.Some?
    ensures Execute(steps + more) == Execute(steps)
  {
    assert (steps + more)[0] == steps[0];
    match steps[0].command
    case None =>
    case Some(c) =>
      assert (steps + more)[1..] == steps[1..] + more;
      ExecuteStops(steps[1..], more);
  }

  lemma LookupsSnoc(rs: seq<Request>, r: Request, table: WiredTable)
    ensures Lookups(rs + [r], table) == Lookups(rs, table) + [Step(r, Encode(r, table))]
  {
  }

  /** Looking requests up one list at a time is looking the whole list up. */
  lemma LookupsAppend(a: seq<Request>, b: seq<Request>, table: WiredTable)
    ensures Lookups(a + b, table) == Lookups(a, table) + Lookups(b, table)
  {
  }

  function Reports(cs: seq<CommandSpec>): (bufs: seq<seq<uint8>>)
    requires forall i :: 0 <= i < |cs| ==> Fits(cs[i].opcode, cs[i].args)
    ensures |bufs| == |cs|
    ensures forall i :: 0 <= i < |cs| ==> bufs[i] == Layout(cs[i].opcode, cs[i].args, cs[i].footer)
  {
    if |cs| == 0 then [] else [Layout(cs[0].opcode, cs[0].args, cs[0].footer)] + Reports(cs[1..])
  }

  /** Sending one more command adds its report at the end. */
  lemma {:induction false} ReportsSnoc(cs: seq<CommandSpec>, c: CommandSpec)
    requires forall i :: 0 <= i < |cs| ==> Fits(cs[i].opcode, cs[i].args)
    requires Fits(c.opcode, c.args)
    ensures Reports(cs + [c]) == Reports(cs) + [Layout(c.opcode, c.args, c.footer)]
  {
    if |cs| == 0 {
      assert cs + [c] == [c];
    } else {
      assert (cs + [c])[1..] == cs[1..] + [c];
      ReportsSnoc(cs[1..], c);
    }
  }

  /** The reports sent when handling the requests `rs` in order. */
  function SentReports(rs: seq<Request>, table: WiredTable): seq<seq<uint8>> {
    var steps := Lookups(rs, table);
    ExecuteSendsInOrder(steps);
    Reports(Execute(steps).sent)
  }

  /** What a run leaves behind: the reports written to the device, in order,
      and the failure that ended it, if any. */
  datatype Outcome = Outcome(sent: seq<seq<uint8>>, failure: Option<Failure>)

  function Expected(args: AppArgs, devices: seq<DeviceInfo>, table: WiredTable): Outcome {
    match FirstMatch(args, devices)
    case Err(e) => Outcome([], Some(DeviceNotFound(e)))
    case Ok(_) =>
      var rs := Requests(args);
      Outcome(SentReports(rs, table), Execute(Lookups(rs, table)).failure)
  }

  /** One `if let Some(..)` block of `main`: look the setting up in the
      command table, then send it with `send_cmd`; a setting the table does
      not know stops the run with nothing sent. */
  method Apply(device: HidDevice, r: Request, table: WiredTable, ghost rs: seq<Request>)
    returns (failure: Option<Failure>)
    requires Execute(Lookups(rs, table)).failure.None?
    requires device.sent == SentReports(rs, table)
    modifies device
    ensures failure == Execute(Lookups(rs + [r], table)).failure
    ensures device.sent == SentReports(rs + [r], table)
  {
    var spec := Encode(r, table);
    ghost var done := Lookups(rs, table);
    ghost var s := Step(r, spec);
    LookupsSnoc(rs, r, table);
    ExecuteSnoc(done, s);
    if spec.None? {
      return Some(Unsupported(r));
    }
    var c := spec.value;
    SendCmd(device, c.opcode, c.args, c.footer);
    ghost var before := Execute(done).sent;
    ReportsSnoc(before, c);
    failure := None;
  }

  /** The run of `main` after option parsing, over the enumerated endpoints
      `devices`: the returned handle is the one opened on the first matching
      endpoint, and its log holds exactly the reports of Expected. */
  method Run(args: AppArgs, devices: seq<DeviceInfo>, table: WiredTable)
    returns (device: HidDevice?, failure: Option<Failure>)
    ensures failure == Expected(args, devices, table).failure
    ensures device == null <==> FirstMatch(args, devices).Err?
    ensures device != null ==> fresh(device)
    ensures device != null ==> device.path == FirstMatch(args, devices).value.path
    ensures device != null ==> device.sent == Expected(args, devices, table).sent
  {
    var info := GetDeviceInfo(args, devices);
    if info.Err? {
      return null, Some(DeviceNotFound(info.error));
    }
    var dev := new HidDevice.Open(info.value.path);
    failure := SendRequested(dev, args, table);
    device := dev;
  }

  /** The three `if let Some(..)` blocks of `main`, in order, on the opened
      device. */
  method SendRequested(device: HidDevice, args: AppArgs, table: WiredTable) returns (failure: Option<Failure>)
    requires device.sent == []
    modifies device
    ensures failure == Execute(Lookups(Requests(args), table)).failure
    ensures device.sent == SentReports(Requests(args), table)
  {
    // The settings handled so far; the steps done are their lookups.
    ghost var rs: seq<Request> := [];
    // The settings the blocks still to come may add.
    ghost var hzPart := if args.hz.Some? then [SetWiredRate(args.hz.value)] else [];
    ghost var whzPart := if args.whz.Some? then [SetWirelessRate(args.whz.value)] else [];

    if args.dpi.Some? {
      var r := SetDpi(args.dpi.value);
      failure := Apply(device, r, table, rs);
      rs := rs + [r];
    }
    assert Requests(args) == rs + hzPart + whzPart;

    if args.hz.Some? {
      var r := SetWiredRate(args.hz.value);
      failure := Apply(device, r, table, rs);
      rs := rs + [r];
      assert Requests(args) == rs + whzPart;
      if failure.Some? {
        LookupsAppend(rs, whzPart, table);
        ExecuteStops(Lookups(rs, table), Lookups(whzPart, table));
        return;
      }
    }
    assert Requests(args) == rs + whzPart;

    if args.whz.Some? {
      var r := SetWirelessRate(args.whz.value);
      failure := Apply(device, r, table, rs);
      rs := rs + [r];
      assert Requests(args) == rs;
      if failure.Some? {
        return;
      }
    }
    assert Requests(args) == rs;
    failure := None;
  }

  // ---- Properties of a whole run ----

  /** Every report a run writes is a complete 91-byte feature report: zero
      header, terminating zero, and the footer equal to the checksum of
      offsets 2 to 88. */
  lemma SentReportsWellFormed(args: AppArgs, devices: seq<DeviceInfo>, table: WiredTable)
    ensures forall i :: 0 <= i < |Expected(args, devices, table).sent| ==>
      var buf := Expected(args, devices, table).sent[i];
      && |buf| == REPORT_LEN
      && (forall k :: 0 <= k < HEADER_LEN ==> buf[k] == 0)
      && buf[FOOTER_AT] as bv8 == Checksum(buf)
      && buf[FOOTER_AT + 1] == 0
  {
    var o := Expected(args, devices, table);
    if FirstMatch(args, devices).Ok? {
      var rs := Requests(args);
      var steps := Lookups(rs, table);
      var cs := Execute(steps).sent;
      ExecuteSendsInOrder(steps);
      forall i | 0 <= i < |o.sent|
        ensures |o.sent[i]| == REPORT_LEN
        ensures forall k :: 0 <= k < HEADER_LEN ==> o.sent[i][k] == 0
        ensures o.sent[i][FOOTER_AT] as bv8 == Checksum(o.sent[i])
        ensures o.sent[i][FOOTER_AT + 1] == 0
      {
        var c := cs[i];
        assert steps[i].command == Some(c);
        EncodeChecksum(rs[i], table);
        LayoutRegions(c.opcode, c.args, c.footer);
        ChecksumOfLayout(c.opcode, c.args, c.footer);
      }
    }
  }

  /** The reports go out in request order (DPI, then wired rate, then
      wireless rate), at most one per option: the i-th report carries the
      opcode and arguments of the i-th requested setting. */
  lemma SendOrder(args: AppArgs, devices: seq<DeviceInfo>, table: WiredTable)
    ensures |Expected(args, devices, table).sent| <= |Requests(args)| <= 3
    ensures forall i :: 0 <= i < |Expected(args, devices, table).sent| ==>
      Encode(Requests(args)[i], table).Some? &&
      var c := Encode(Requests(args)[i], table).value;
      Expected(args, devices, table).sent[i][HEADER_LEN..HEADER_LEN + 4] == c.opcode &&
      Expected(args, devices, table).sent[i][HEADER_LEN + 4..HEADER_LEN + 4 + |c.args|] == c.args
  {
    var o := Expected(args, devices, table);
    if FirstMatch(args, devices).Ok? {
      var rs := Requests(args);
      var steps := Lookups(rs, table);
      var cs := Execute(steps).sent;
      ExecuteSendsInOrder(steps);
      forall i | 0 <= i < |o.sent|
        ensures Encode(rs[i], table) == Some(cs[i])
        ensures o.sent[i][HEADER_LEN..HEADER_LEN + 4] == cs[i].opcode
        ensures o.sent[i][HEADER_LEN + 4..HEADER_LEN + 4 + |cs[i].args|] == cs[i].args
      {
        LayoutRegions(cs[i].opcode, cs[i].args, cs[i].footer);
      }
    }
  }

  /** With every requested value in the tables, a run on a found device
      sends exactly one report per option given, and nothing when no option
      is given. */
  lemma OneReportPerOption(args: AppArgs, devices: seq<DeviceInfo>, table: WiredTable)
    requires FirstMatch(args, devices).Ok?
    requires args.hz.Some? ==> Encode(SetWiredRate(args.hz.value), table).Some?
    requires args.whz.Some? ==> Encode(SetWirelessRate(args.whz.value), table).Some?
    ensures Expected(args, devices, table).failure.None?
    ensures |Expected(args, devices, table).sent| == Count(args.dpi) + Count(args.hz) + Count(args.whz)
  {
  }

  /** A device that is not found ends the run before anything is sent. */
  lemma NotFoundSendsNothing(args: AppArgs, devices: seq<DeviceInfo>, table: WiredTable)
    requires forall j :: 0 <= j < |devices| ==> !Matches(args, devices[j])
    ensures Expected(args, devices, table) == Outcome([], Some(DeviceNotFound(NOT_FOUND)))
  {
    FirstMatchIsFirst(args, devices);
  }

  /** An unsupported wired rate stops the run at the wired block: the DPI
      report, when requested, has already been sent, and the wireless
      setting is never sent. */
  lemma UnsupportedWiredRateStops(args: AppArgs, devices: seq<DeviceInfo>, table: WiredTable)
    requires FirstMatch(args, devices).Ok?
    requires args.hz.Some? && Encode(SetWiredRate(args.hz.value), table).None?
    ensures Expected(args, devices, table).failure == Some(Unsupported(SetWiredRate(args.hz.value)))
    ensures args.dpi.None? ==> Expected(args, devices, table).sent == []
    ensures args.dpi.Some? ==>
      Expected(args, devices, table).sent == [Layout(DPI_OPCODE, DpiCommand(args.dpi.value).args, DPI_FOOTER)]
  {
    var rs := Requests(args);
    var steps := Lookups(rs, table);
    var n := Count(args.dpi);
    assert rs[n] == SetWiredRate(args.hz.value);
    assert steps[n].command.None?;
    ExecuteSendsInOrder(steps);
    if n == 1 {
      assert steps[0].command == Some(DpiCommand(args.dpi.value));
    }
  }

  /** The DPI 800 report: opcode at 6, 03 20 03 20 at 10, footer 07 at 89. */
  lemma Dpi800Report()
    ensures var b := Layout(DPI_OPCODE, DpiCommand(800).args, DPI_FOOTER);
      b[6..10] == [0x07, 0x04, 0x05, 0x01] && b[10..14] == [0x03, 0x20, 0x03, 0x20]
      && b[89] == 0x07 && b[90] == 0x00
  {
    Dpi800();
    LayoutRegions(DPI_OPCODE, DpiCommand(800).args, DPI_FOOTER);
  }

  /** The wireless 8000 Hz and 1000 Hz reports. */
  lemma WirelessReports()
    ensures var c := WirelessRate(8000).value; var b := Layout(c.opcode, c.args, c.footer);
      b[6..10] == [0x02, 0x00, 0x40, 0x01] && b[10] == 0x01 && b[89] == 0x42
    ensures var c := WirelessRate(1000).value; var b := Layout(c.opcode, c.args, c.footer);
      b[6..10] == [0x02, 0x00, 0x40, 0x00] && b[10] == 0x08 && b[89] == 0x4a
  {
    var c := WirelessRate(8000).value;
    LayoutRegions(c.opcode, c.args, c.footer);
    assert c.args == Layout(c.opcode, c.args, c.footer)[10..11];
    c := WirelessRate(1000).value;
    LayoutRegions(c.opcode, c.args, c.footer);
    assert c.args == Layout(c.opcode, c.args, c.footer)[10..11];
  }
}
