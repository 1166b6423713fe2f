/** The slice of the `hidapi` crate the program relies on: an enumerated
    HID endpoint, and an open device handle to which feature reports are
    written. */
module Hid {
  import opened Bytes

  /** One entry of `HidApi::device_list()`: the descriptor fields the program
      reads, and the platform path used to open it. */
  datatype DeviceInfo = DeviceInfo(
    vendorId: uint16,
    productId: uint16,
    usage: uint16,
    usagePage: uint16,
    interfaceNumber: int,
    path: string)

  /** An open `HidDevice`. The device's firmware is not modelled; what the
      program does to it is recorded in the ghost log `sent`, one entry per
      feature report, in the order they were written. */
  class HidDevice {
    const path: string
    ghost var sent: seq<seq<uint8>>

    /** `HidApi::open_path`: a fresh handle to which nothing has been written. */
    constructor Open(path: string)
      ensures this.path == path && sent == []
    {
      this.path := path;
      sent := [];
    }

    /** `send_feature_report`: appends exactly one report to the log. */
    method SendFeatureReport(buf: seq<uint8>)
      modifies this
      ensures sent == old(sent) + [buf]
    {
      sent := sent + [buf];
    }
  }
}
