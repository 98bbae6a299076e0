/**
 * Finding the headset among the attached USB devices and running the
 * sidetone control transfer on it: auto-detach flag, first interface of the
 * active configuration, kernel driver detach, claim, one class-specific
 * control write, release, and kernel driver reattach with a device reset
 * when the reattach fails.
 *
 * Every USB library call stops the operation on failure and returns its
 * error (Rust's `?`), except the reattach, whose failure leads to the reset.
 */
module UsbControl {
  import opened Primitives
  import opened UsbRequest
  import opened UsbHandle

  // ---------------------------------------------------------------------
  // Device locator
  // ---------------------------------------------------------------------

  /** The device's descriptor can be read and carries the wanted IDs. */
  predicate IdsMatch(d: Device, vid: u16, pid: u16)
  {
    d.descriptor.Ok? && d.descriptor.value.vendorId == vid && d.descriptor.value.productId == pid
  }

  /** The locator accepts a device: its IDs match and it opens. */
  predicate Qualifies(d: Device, vid: u16, pid: u16)
  {
    IdsMatch(d, vid, pid) && d.openResult.Ok?
  }

  /** Device k of the enumeration is the first one the locator accepts. */
  predicate Located(devices: Result<seq<Device>>, vid: u16, pid: u16, k: nat)
  {
    && devices.Ok?
    && k < |devices.value|
    && Qualifies(devices.value[k], vid, pid)
    && forall j | 0 <= j < k :: !Qualifies(devices.value[j], vid, pid)
  }

  /** The enumeration failed, or no device in it is accepted. */
  predicate NoneQualifies(devices: Result<seq<Device>>, vid: u16, pid: u16)
  {
    devices.Err? || forall j | 0 <= j < |devices.value| :: !Qualifies(devices.value[j], vid, pid)
  }

  /** At most one device is the first accepted one, and there is none exactly when no device qualifies. */
  lemma LocatedUnique(devices: Result<seq<Device>>, vid: u16, pid: u16, k1: nat, k2: nat)
    requires Located(devices, vid, pid, k1) && Located(devices, vid, pid, k2)
    ensures k1 == k2 && !NoneQualifies(devices, vid, pid)
  {
  }

  /**
   * `open_device`: scans the enumeration in order, skipping devices whose
   * descriptor cannot be read or that fail to open, and returns (the position
   * of) the first one with the wanted vendor and product IDs that opens.
   */
  method OpenDevice(devices: Result<seq<Device>>, vid: u16, pid: u16) returns (found: Option<nat>)
    ensures found.Some? ==> Located(devices, vid, pid, found.value)
    ensures found.None? <==> NoneQualifies(devices, vid, pid)
  {
    if devices.Err? {
      return None;
    }
    var list := devices.value;
    for i := 0 to |list|
      invariant forall j | 0 <= j < i :: !Qualifies(list[j], vid, pid)
    {
      var device := list[i];
      if device.descriptor.Err? {
        continue;
      }
      var desc := device.descriptor.value;
      if desc.vendorId == vid && desc.productId == pid {
        if device.openResult.Ok? {
          return Some(i);
        }
      }
    }
    return None;
  }

  // ---------------------------------------------------------------------
  // The control transfer, as a trace of calls
  // ---------------------------------------------------------------------

  /** The calls an operation made, in order, and what it returned. */
  datatype Trace = Trace(calls: seq<Entry>, result: Result<()>)

  /** Indexing the active configuration's interface list does not panic. */
  predicate HasInterface(d: Device)
  {
    d.activeConfig.Ok? ==> |d.activeConfig.value| > 0
  }

  /** A run that stops here, successfully. */
  const Done: Trace := Trace([], Ok(()))

  /** Entry e, then the run t. */
  function Prepend(e: Entry, t: Trace): Trace
  {
    Trace([e] + t.calls, t.result)
  }

  /**
   * Call c followed by `?`: if c fails, the run stops there with c's error;
   * otherwise it goes on with `rest`.
   */
  function Then(d: Device, c: Call, rest: Trace): Trace
  {
    if Outcome(d, c).Err? then Trace([Entry(c, false)], Outcome(d, c))
    else Prepend(Entry(c, true), rest)
  }

  /**
   * What `control_transfer` does on a handle of device d whose interfaces
   * with a kernel driver bound are `attached`: the calls it makes, in order,
   * and the result it returns. Acquisition first; if it succeeds, the
   * session on the first interface of the active configuration.
   */
  function TransferTrace(d: Device, attached: set<u8>): Trace
    requires HasInterface(d)
  {
    var acquire := AcquireTrace(d, attached);
    if acquire.result.Err? then acquire
    else
      var iface := d.activeConfig.value[0];
      var session := SessionTrace(d, iface, iface in attached);
      Trace(acquire.calls + session.calls, session.result)
  }

  /**
   * Up to the claim: set the auto-detach flag, read the device descriptor
   * and the active configuration, ask whether a kernel driver is bound to
   * the configuration's first interface and detach it if so.
   */
  function AcquireTrace(d: Device, attached: set<u8>): Trace
    requires HasInterface(d)
  {
    Then(d, Call.SetAutoDetachKernelDriver(true),
    Then(d, GetDeviceDescriptor,
      match d.activeConfig
      case Err(e) => Trace([Entry(GetActiveConfigDescriptor, false)], Err(e))
      case Ok(interfaces) => Prepend(Entry(GetActiveConfigDescriptor, true), DetachTrace(d, interfaces[0], attached))))
  }

  /** The kernel driver query on interface `iface`, and the detach when a driver is bound. */
  function DetachTrace(d: Device, iface: u8, attached: set<u8>): Trace
  {
    Then(d, KernelDriverActive(iface),
      if iface in attached then Then(d, DetachKernelDriver(iface), Done) else Done)
  }

  /**
   * From the claim on: claim, write, release, then restore the kernel
   * driver when `kernelWasAttached` (the source's local flag).
   */
  function SessionTrace(d: Device, iface: u8, kernelWasAttached: bool): Trace
  {
    Then(d, ClaimInterface(iface),
    Then(d, WriteControl(SidetoneRequest()),
    Then(d, ReleaseInterface(iface),
      if kernelWasAttached then RestoreTrace(d, iface) else Done)))
  }

  /** Reattach the kernel driver; if that fails, reset the device, whose outcome is the result. */
  function RestoreTrace(d: Device, iface: u8): Trace
  {
    if Outcome(d, AttachKernelDriver(iface)).Ok? then Trace([Entry(AttachKernelDriver(iface), true)], Ok(()))
    else Prepend(Entry(AttachKernelDriver(iface), false), Then(d, Reset, Done))
  }

  /**
   * Replaying a run that starts with call c: c's effect, then, if c
   * succeeded, the replay of the rest.
   */
  lemma ReplayThen(s: HandleState, d: Device, c: Call, rest: Trace)
    ensures Outcome(d, c).Err? ==> Replay(s, Then(d, c, rest).calls) == Effect(s, Entry(c, false))
    ensures Outcome(d, c).Ok? ==> Replay(s, Then(d, c, rest).calls) == Replay(Effect(s, Entry(c, true)), rest.calls)
  {
    ReplayAppend(s, [Entry(c, Outcome(d, c).Ok?)], rest.calls);
    assert Replay(s, [Entry(c, Outcome(d, c).Ok?)]) == Effect(Replay(s, []), Entry(c, Outcome(d, c).Ok?));
  }

  /**
   * The second half of `control_transfer`, from the claim on interface
   * `iface`: makes exactly the calls of SessionTrace, leaves the handle in
   * the state they lead to, and returns its result.
   */
  method RunSession(handle: DeviceHandle, iface: u8, kernelWasAttached: bool) returns (r: Result<()>)
    modifies handle
    ensures var t := SessionTrace(handle.device, iface, kernelWasAttached);
            r == t.result && handle.State() == Replay(old(handle.State()), t.calls)
  {
    ghost var d := handle.device;
    ghost var restore := if kernelWasAttached then RestoreTrace(d, iface) else Done;
    ghost var afterWrite := Then(d, ReleaseInterface(iface), restore);
    ghost var afterClaim := Then(d, WriteControl(SidetoneRequest()), afterWrite);

    ReplayThen(handle.State(), d, ClaimInterface(iface), afterClaim);
    var _ :- handle.ClaimInterface(iface);
    // the source sleeps 1 ms here

    ReplayThen(handle.State(), d, WriteControl(SidetoneRequest()), afterWrite);
    var _ :- handle.WriteControl(SidetoneRequest());
    // the source sleeps 3 s here

    ReplayThen(handle.State(), d, ReleaseInterface(iface), restore);
    var _ :- handle.ReleaseInterface(iface);
    // the source sleeps 100 ms here

    if kernelWasAttached {
      ghost var attach := Entry(AttachKernelDriver(iface), Outcome(d, AttachKernelDriver(iface)).Ok?);
      ReplayAppend(handle.State(), [attach], Then(d, Reset, Done).calls);
      ReplayAppend(handle.State(), [attach], []);
      var reattach := handle.AttachKernelDriver(iface);
      if reattach.Err? {
        ReplayThen(handle.State(), d, Reset, Done);
        var _ :- handle.Reset();
      }
    }
    return Ok(());
  }

  /**
   * `control_transfer` on a handle: makes exactly the calls of TransferTrace,
   * leaves the handle in the state they lead to, and returns its result.
   */
  method ControlTransfer(handle: DeviceHandle) returns (r: Result<()>)
    requires HasInterface(handle.device)
    modifies handle
    ensures var t := TransferTrace(handle.device, old(handle.kernelAttached));
            r == t.result && handle.State() == Replay(old(handle.State()), t.calls)
  {
    ghost var s0, d, attached := handle.State(), handle.device, handle.kernelAttached;
    ghost var acquire := AcquireTrace(d, attached);

    ghost var config := match d.activeConfig
      case Err(e) => Trace([Entry(GetActiveConfigDescriptor, false)], Err(e))
      case Ok(interfaces) => Prepend(Entry(GetActiveConfigDescriptor, true), DetachTrace(d, interfaces[0], attached));
    ReplayThen(handle.State(), d, Call.SetAutoDetachKernelDriver(true), Then(d, GetDeviceDescriptor, config));
    var _ :- handle.SetAutoDetachKernelDriver(true);

    ReplayThen(handle.State(), d, GetDeviceDescriptor, config);
    var _ :- handle.DeviceDescriptor();

    ReplayAppend(handle.State(), [Entry(GetActiveConfigDescriptor, d.activeConfig.Ok?)], []);
    if d.activeConfig.Ok? {
      ReplayAppend(handle.State(), [Entry(GetActiveConfigDescriptor, true)], DetachTrace(d, d.activeConfig.value[0], attached).calls);
    }
    var interfaces :- handle.ActiveConfigDescriptor();
    var iface := interfaces[0];

    var kernelWasAttached := false;
    ghost var afterQuery := if iface in attached then Then(d, DetachKernelDriver(iface), Done) else Done;
    ReplayThen(handle.State(), d, KernelDriverActive(iface), afterQuery);
    var active :- handle.KernelDriverActive(iface);
    if active {
      ReplayThen(handle.State(), d, DetachKernelDriver(iface), Done);
      var _ :- handle.DetachKernelDriver(iface);
      kernelWasAttached := true;
    }
    assert handle.State() == Replay(s0, acquire.calls) && acquire.result == Ok(());

    r := RunSession(handle, iface, kernelWasAttached);
    ReplayAppend(s0, acquire.calls, SessionTrace(d, iface, kernelWasAttached).calls);
  }

  /**
   * `do_the_thing`: locate the device, and run the control transfer on a
   * handle opened on it. Returns the result and the calls made on the handle.
   */
  method DoTheThing(devices: Result<seq<Device>>, vid: u16, pid: u16) returns (r: Result<()>, calls: seq<Entry>)
    requires forall k: nat | Located(devices, vid, pid, k) :: HasInterface(devices.value[k])
    ensures NoneQualifies(devices, vid, pid) ==> r == Err(NotFound) && calls == []
    ensures forall k: nat | Located(devices, vid, pid, k) ::
              Trace(calls, r) == TransferTrace(devices.value[k], devices.value[k].kernelBound)
  {
    var found := OpenDevice(devices, vid, pid);
    if found.None? {
      return Err(NotFound), [];
    }
    var device := devices.value[found.value];
    var handle := new DeviceHandle(device);
    r := ControlTransfer(handle);
    calls := handle.log;
    ReplayLog(HandleState(false, device.kernelBound, {}, []), TransferTrace(device, device.kernelBound).calls);
    forall k: nat | Located(devices, vid, pid, k)
      ensures k == found.value
    {
      LocatedUnique(devices, vid, pid, k, found.value);
    }
  }
}
