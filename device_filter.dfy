/** Selecting the mouse among all enumerated HID endpoints: the first
    endpoint whose vendor id, product id (wired or wireless variant), usage
    and usage page all agree with the options. */
module DeviceFilter {
  import opened Wrappers
  import opened Bytes
  import opened Hid
  import opened Config
  import Search

  const NOT_FOUND: string := "invalid version"

  /** The filter, stated positively: every field agrees, and the product id is
      one of the two variants. */
  predicate Matches(args: AppArgs, d: DeviceInfo) {
    && d.vendorId == args.vid
    && (d.productId == args.pidWire || d.productId == args.pidWireless)
    && d.usage == args.usage
    && d.usagePage == args.usagePage
  }

  /** The endpoint the program picks: the first matching one in enumeration
      order, or the "invalid version" error. */
  function FirstMatch(args: AppArgs, devices: seq<DeviceInfo>): (r: Result<DeviceInfo, string>)
  {
    match Search.FirstIndex(devices, d => Matches(args, d))
    case Some(i) => Ok(devices[i])
    case None => Err(NOT_FOUND)
  }

  /** The scan of `get_device_info`: an endpoint that fails any one of the
      four tests is skipped, the first one that passes them all is returned,
      and running off the end of the list is the error. */
  method GetDeviceInfo(args: AppArgs, devices: seq<DeviceInfo>) returns (r: Result<DeviceInfo, string>)
    ensures r == FirstMatch(args, devices)
    ensures r.Ok? ==> r.value in devices
    ensures r.Ok? ==> r.value.vendorId == args.vid
    ensures r.Ok? ==> r.value.productId == args.pidWire || r.value.productId == args.pidWireless
    ensures r.Ok? ==> r.value.usage == args.usage && r.value.usagePage == args.usagePage
    ensures r.Err? <==> forall d :: d in devices ==> !Matches(args, d)
    ensures r.Err? ==> r.error == NOT_FOUND
  {
    for i := 0 to |devices|
      invariant forall j :: 0 <= j < i ==> !Matches(args, devices[j])
    {
      var device := devices[i];
      if device.vendorId != args.vid
        || (device.productId != args.pidWire && device.productId != args.pidWireless)
        || device.usage != args.usage
        || device.usagePage != args.usagePage
      {
        continue;
      }
      Search.FirstIndexUnique(devices, d => Matches(args, d), i);
      return Ok(device);
    }
    return Err(NOT_FOUND);
  }

  /** First match: a returned endpoint passes the filter and every endpoint
      listed before it fails it; without a passing endpoint the result is the
      error. */
  lemma FirstMatchIsFirst(args: AppArgs, devices: seq<DeviceInfo>)
    ensures FirstMatch(args, devices).Ok? ==>
      exists i :: 0 <= i < |devices| && devices[i] == FirstMatch(args, devices).value
        && Matches(args, devices[i])
        && forall j :: 0 <= j < i ==> !Matches(args, devices[j])
    ensures FirstMatch(args, devices).Err? <==> forall j :: 0 <= j < |devices| ==> !Matches(args, devices[j])
  {
    var p := d => Matches(args, d);
    match Search.FirstIndex(devices, p)
    case Some(i) =>
      assert devices[i] == FirstMatch(args, devices).value;
    case None =>
  }

  /** The scan ignores the endpoints behind the first match: appending
      endpoints to the enumeration cannot change a successful choice. */
  lemma {:induction false} FirstMatchStableUnderAppend(args: AppArgs, devices: seq<DeviceInfo>, more: seq<DeviceInfo>)
    requires FirstMatch(args, devices).Ok?
    ensures FirstMatch(args, devices + more) == FirstMatch(args, devices)
  {
    var p := d => Matches(args, d);
    var i := Search.FirstIndex(devices, p).value;
    assert (devices + more)[i] == devices[i];
    forall j | 0 <= j < i ensures !p((devices + more)[j]) {
      assert (devices + more)[j] == devices[j];
    }
    Search.FirstIndexUnique(devices + more, p, i);
  }

  /** An empty enumeration always yields the error. */
  lemma EmptyEnumerationNotFound(args: AppArgs)
    ensures FirstMatch(args, []) == Err(NOT_FOUND)
  {
  }

  /** A lone endpoint is chosen exactly when it passes the filter; one that
      differs from the filter in any single field is refused. */
  lemma SingleEndpoint(args: AppArgs, d: DeviceInfo)
    ensures FirstMatch(args, [d]) == (if Matches(args, d) then Ok(d) else Err(NOT_FOUND))
    ensures d.vendorId != args.vid ==> FirstMatch(args, [d]).Err?
    ensures d.productId != args.pidWire && d.productId != args.pidWireless ==> FirstMatch(args, [d]).Err?
    ensures d.usage != args.usage ==> FirstMatch(args, [d]).Err?
    ensures d.usagePage != args.usagePage ==> FirstMatch(args, [d]).Err?
  {
  }
}
