# DeathAdder polling-rate helper: a verified model of its protocol core

The program sets the DPI and the wired and wireless polling rates of a Razer
DeathAdder mouse. It sends vendor-defined HID feature reports. This project
models the part of `src/main.rs` that has design content, in Dafny:

- **Device filter** (`DeviceFilter`, in `device_filter.dfy`). From the
  enumerated HID endpoints, the program picks the first one whose vendor id,
  product id (wired `0x00c2` or wireless `0x00c3`), usage and usage page all
  equal the options. The options default to `0x1532`, `0x00c2`, `0x00c3`, `2`
  and `1` (`Config`). If no endpoint matches, the result is the error
  "invalid version". `GetDeviceInfo` keeps the source's `for`/`continue`
  loop and is proved equal to the pure `FirstMatch`.
- **Command table** (`Commands`). It maps each setting to an opcode, argument
  bytes and a footer:
  - DPI: its big-endian bytes, written twice.
  - Wired polling rate: five `match` arms.
  - Wireless polling rate: six arms.

  In Rust, a `match` on a number takes the first arm whose pattern equals the
  value. The model keeps each `match` as its ordered list of arms (`Arm`,
  `Select`). That way the two shadowed wired arms stay in the model, and a
  lemma proves they are never taken.
- **Report builder** (`Report`). `send_cmd` builds a 91-byte buffer step by
  step:
  - six zero bytes;
  - the opcode, then the argument bytes;
  - zeros up to offset 89;
  - the footer, then a zero.

  `BuildReport` keeps those steps, including the two push loops. It is proved
  equal to the function `Layout`, whose contract gives the 91-byte length;
  the lemma `LayoutRegions` gives where each field lies.
- **Sequencing** (`App`). After the device is found and opened, `main` runs
  up to three blocks: DPI, then the wired rate, then the wireless rate. Each
  block runs only if its option is present. `Run` and `SendRequested` keep
  that structure. The device handle `Hid.HidDevice` records every report it
  is given in a ghost log `sent`. The whole run is proved equal to the
  function `Expected`.

All three tables turn out to follow one rule. Every footer is the exclusive
or of the opcode and argument bytes. In the report, that is the exclusive or
of offsets 2 to 88, a checksum. For DPI the rule holds for every value,
because the two copies of the value cancel out. The source never computes this
checksum: its footers are constants. The model proves that every one of them
satisfies the rule (`ChecksumOk`, `SentReportsWellFormed`).

Two behaviours of the code are worth stating on their own:

- **Unsupported rate after DPI.** Each option is checked only when its block
  runs: when `match hz` reaches `unreachable!()`, the DPI block has already
  sent its report. The model keeps that DPI report in the log
  (`UnsupportedWiredRateStops`).
- **Wired rates.** The comments at lines 157-170 and the shadowed arms at
  lines 175-176 give separate encodings for 500 Hz and 1000 Hz; the code
  sends the 125 Hz encoding for all three wired rates; see "## Findings".
  The run takes an explicit `WiredTable` argument. `AsWritten` reproduces
  the program. `Intended` uses the corrected table.

Bytes and 16-bit values are the subset types `uint8` and `uint16` of `int`
(module `Bytes`).
A panic becomes an error value (`Failure`) that ends the run.

## Model

| member | source | states |
|---|---|---|
| `Config.WithDefaults` | src/main.rs:91-117 | each filter field is the value given, or its built-in constant (lines 5-9) when absent; the three settings stay optional |
| `Search.FirstIndex` | src/main.rs:15-41 | returns the index of an element satisfying the test, with no element before it satisfying it; None only when no element satisfies it |
| `DeviceFilter.GetDeviceInfo` | src/main.rs:11-42 | the loop returns `FirstMatch`. A returned endpoint is in the list, has the filter's vendor id, usage and usage page, and one of the two product ids. The result is the "invalid version" error exactly when no endpoint passes |
| `DeviceFilter.FirstMatchIsFirst` | src/main.rs:15-41 | a chosen endpoint passes the filter and every earlier endpoint fails it; the error occurs exactly when every endpoint fails it |
| `DeviceFilter.FirstMatchStableUnderAppend` | src/main.rs:15-41 | endpoints enumerated after a match never change the choice |
| `DeviceFilter.EmptyEnumerationNotFound` | src/main.rs:41 | an empty enumeration gives the "invalid version" error |
| `DeviceFilter.SingleEndpoint` | src/main.rs:16-22 | a lone endpoint is chosen exactly when it passes; one that differs from the filter in vendor id, product id, usage or usage page is refused |
| `Report.Layout` | src/main.rs:46-63 | when header, opcode and arguments end at or before offset 89, the report is exactly 91 bytes |
| `Report.LayoutRegions` | src/main.rs:52-63 | bytes 0-5 are zero; the opcode starts at 6; the arguments follow it; zeros run up to 89; the footer is at 89 and a zero at 90 |
| `Report.FieldsOfLayout` | src/main.rs:54-62 | opcode, arguments and footer can be read back from the report, so nothing is lost or overwritten |
| `Report.ChecksumOfLayout` | src/main.rs:52-62 | the exclusive or of report bytes 2 to 88 equals the exclusive or of the opcode and argument bytes |
| `Report.BuildReport` | src/main.rs:46-63 | the step-by-step construction (zero header, two push loops, padding, footer, terminator) yields exactly `Layout` |
| `Report.SendCmd` | src/main.rs:44-69 | the device log grows by exactly the one report `Layout` describes |
| `Hid.HidDevice.Open` | src/main.rs:144 | a freshly opened handle on the given path, to which nothing has been sent |
| `Hid.HidDevice.SendFeatureReport` | src/main.rs:68 | appends the buffer to the device's log and changes nothing else |
| `Commands.Select` | src/main.rs:171-178 | a `match` yields None only when no arm has the value; otherwise it yields the spec of the first arm whose pattern equals it |
| `Commands.ToBeBytes` | src/main.rs:150 | two bytes, high byte first: `b[0]*256 + b[1]` is the value |
| `Commands.DpiCommand` | src/main.rs:148-152 | opcode `07 04 05 01`, footer `07`, four argument bytes: the big-endian value, then the same two bytes again |
| `Commands.DpiCommandInjective` | src/main.rs:150-151 | distinct DPI values give distinct commands |
| `Commands.DpiCommandChecksum` | src/main.rs:149-152 | for every DPI value the footer `07` is the checksum of the command's bytes |
| `Commands.Dpi800` | src/main.rs:150-151 | DPI 800 is sent as `03 20 03 20` |
| `Commands.WiredRate` | src/main.rs:171-178 | as written: 125, 500 and 1000 all yield `01 00 05 08 / 00 / 0c`; every other rate reaches `unreachable!()` |
| `Commands.WiredLateArmsUnreachable` | src/main.rs:175-176 | no rate ever selects the fourth or fifth arm |
| `Commands.WiredRateCollapses` | src/main.rs:172-174 | 500 Hz and 1000 Hz get exactly the command of 125 Hz |
| `Commands.IntendedWiredRate` | src/main.rs:157-170 | the per-rate table in the comments: defined exactly for 125, 500 and 1000, with `01 00 05 08 / 00 / 0c`, `01 00 05 02 / 00 / 06` and `01 00 05 01 / 00 / 05` |
| `Commands.IntendedWiredRateFromArms` | src/main.rs:172-176 | the intended table is the 125 arm plus the two shadowed arms |
| `Commands.IntendedWiredRateInjective` | src/main.rs:157-170 | in the intended table, different rates have different commands |
| `Commands.WiredRateChecksum` | src/main.rs:171-178 | every wired command, in both tables, has its checksum as footer |
| `Commands.WirelessRate` | src/main.rs:212-220 | the exact six-entry table (125, 500, 1000, 2000, 4000, 8000 Hz); every other rate reaches `unreachable!()` |
| `Commands.WirelessRateDistinct` | src/main.rs:213-218 | only 1000 Hz has `00` as the last opcode byte; no two wireless rates share a command |
| `Commands.WirelessRateChecksum` | src/main.rs:212-220 | every wireless command has its checksum as footer |
| `App.Requests` | src/main.rs:148-222 | as many requests as options given, so at most three |
| `App.RequestsInOrder` | src/main.rs:148-222 | the requests come in the order DPI, wired, wireless; each carries its own option's value, and every option given has its request |
| `App.Encode` | src/main.rs:148-221 | every command the table yields has a four-byte opcode and fits the report |
| `App.EncodeChecksum` | src/main.rs:148-221 | every command the table yields has its checksum as footer |
| `App.Execute` | src/main.rs:148-222 | a run without failure sends one command per request; a failed run stops at the first request the table rejects, names that request, and has sent one command for each request before it only |
| `App.ExecuteSendsInOrder` | src/main.rs:148-222 | the i-th command sent is the command the table gives the i-th request |
| `App.ExecuteSnoc` | src/main.rs:171-179 | after requests that all went through, one more request either adds its command at the end or stops the run with that request as the failure |
| `App.ExecuteStops` | src/main.rs:171-222 | once a request is rejected, the requests after it change neither what is sent nor the failure |
| `App.Apply` | src/main.rs:171-179 | one block: the log grows by the request's report, or the run stops with nothing sent |
| `App.SendRequested` | src/main.rs:148-222 | the three blocks in order produce exactly the reports and the failure of `Execute` |
| `App.Run` | src/main.rs:137-222 | no handle when no endpoint matches. Otherwise the handle is opened on the first matching endpoint's path, and its log and the failure are those of `Expected` |
| `App.SentReportsWellFormed` | src/main.rs:46-63 | every report a run sends is 91 bytes, with a zero header, a zero at 90 and its checksum at 89 |
| `App.SendOrder` | src/main.rs:148-222 | at most three reports; the i-th carries the opcode and arguments of the i-th requested setting |
| `App.OneReportPerOption` | src/main.rs:148-222 | when every requested value is in the tables, the run succeeds and sends one report per option given |
| `App.NotFoundSendsNothing` | src/main.rs:137-142 | when no endpoint matches, nothing is sent and the run fails with "invalid version" |
| `App.UnsupportedWiredRateStops` | src/main.rs:148-180 | an unsupported wired rate stops the run. Only the DPI report, if requested, has been sent, and the wireless setting never is |
| `App.Dpi800Report` | src/main.rs:148-153 | the DPI 800 report has `07 04 05 01` at offset 6, `03 20 03 20` at 10, `07` at 89 and `00` at 90 |
| `App.WirelessReports` | src/main.rs:212-221 | the 8000 Hz report has argument `01` and footer `42`; the 1000 Hz report has opcode `02 00 40 00`, argument `08` and footer `4a` |

## Left out

- HID transport. `HidApi::new`, `device_list`, `open_path` and `send_feature_report` (lines 130-135, 144, 68) are calls into the `hidapi` crate. Here the enumeration is a sequence of `DeviceInfo` values, opening always succeeds, and a send appends to a ghost log. Their failures (the `panic!` at line 133 and the two `unwrap`s) and the wire protocol of HID SET_REPORT feature reports (section 7.2.2 of the USB Device Class Definition for HID 1.11) are not modelled.
- Argument parsing. `parse_args`, `parse_number` and `pico_args` (lines 84-120) parse strings; `Config.WithDefaults` takes the already-parsed values. The parse-failure `panic!` (line 126) is not modelled.
- Debug output. The `cfg!(debug_assertions)` printing (lines 24-37, 65-66) and the `windows_subsystem` attribute (line 1) have no logical content. `DeviceInfo.interfaceNumber` is kept, but only the printing reads it.
- `errorcode`. The variable (line 146) and `errorcode += send_cmd(...)` (line 153) are not modelled: `send_cmd` returns `()`, so that line does not type-check.
- Panics. A panic (`panic!` at line 140, `unreachable!()` at lines 177 and 219) ends the process. Here it is a `Failure` value that ends the run; nothing after it is sent.
- `Report.SendCmd` requires that the header, opcode and arguments end at or before offset 89. It does not model the panic or wrap-around of `89 - buf.len()` on `usize` when they do not. Every command the tables produce satisfies the bound (`App.Encode`).
- `Vec::with_capacity(256)` (line 46) only reserves memory; the model does not represent capacity.

## Findings

| source | as written | input that shows it | evidently intended | confidence | as-written member | corrected member |
|---|---|---|---|---|---|---|
| src/main.rs:172-176 | the arms for 500 and 1000 repeat the 125 Hz command `01 00 05 08 / 00 / 0c`, and the arms with each rate's own command come after them and are never reached | `--hz 500` sends opcode `01 00 05 08` with footer `0c`, the 125 Hz command | 500 Hz sends `01 00 05 02 / 00 / 06` and 1000 Hz sends `01 00 05 01 / 00 / 05`, as the comments at lines 157-170 and the shadowed arms give | high (the comments and the dead arms agree); not executed | `Commands.WiredRateCollapses` | `Commands.IntendedWiredRateInjective` |

`Commands.WiredRate` models the table as written. `Commands.IntendedWiredRate`
is the corrected table. A run uses the corrected table when its `WiredTable`
argument is `Intended`, and reproduces the program's behaviour when it is
`AsWritten`.
