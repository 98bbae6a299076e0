/**
 * An open USB device handle as the program uses it: the calls it makes on
 * the handle, each with the outcome the device supplies, and the handle state
 * those calls change (the auto-detach flag, which interfaces have a kernel
 * driver bound, which interfaces this handle has claimed, and a log of calls).
 */
module UsbHandle {
  import opened Primitives
  import opened UsbRequest

  /** The error kinds of the USB library. */
  datatype UsbError =
    | Io | InvalidParam | Access | NoDevice | NotFound | Busy | Timeout
    | Overflow | Pipe | Interrupted | NoMem | NotSupported | BadDescriptor | Other

  /** The library's `Result<T>`; `:-` plays the part of Rust's `?`. */
  datatype Result<+T> = Ok(value: T) | Err(error: UsbError)
  {
    predicate IsFailure() { Err? }

    function PropagateFailure<U>(): Result<U>
      requires Err?
    {
      Err(error)
    }

    function Extract(): T
      requires Ok?
    {
      value
    }
  }

  /** The part of the device descriptor the program looks at. */
  datatype DeviceDescriptor = DeviceDescriptor(vendorId: u16, productId: u16)

  /** A call the program makes on a device handle. */
  datatype Call =
    | SetAutoDetachKernelDriver(enable: bool)
    | GetDeviceDescriptor
    | GetActiveConfigDescriptor
    | KernelDriverActive(iface: u8)
    | DetachKernelDriver(iface: u8)
    | ClaimInterface(iface: u8)
    | WriteControl(request: ControlRequest)
    | ReleaseInterface(iface: u8)
    | AttachKernelDriver(iface: u8)
    | Reset

  /**
   * One attached device, given by the outcome of everything the program can
   * ask of it: reading its descriptor, opening it, reading its active
   * configuration (the numbers of its interfaces), which interfaces have a
   * kernel driver bound when it is opened, and which handle calls fail and
   * with what error.
   */
  datatype Device = Device(
    descriptor: Result<DeviceDescriptor>,
    openResult: Result<()>,
    activeConfig: Result<seq<u8>>,
    kernelBound: set<u8>,
    faults: map<Call, UsbError>)

  /** The success or failure the device gives to call c. */
  function Outcome(d: Device, c: Call): (r: Result<()>)
    ensures !c.GetDeviceDescriptor? && !c.GetActiveConfigDescriptor? ==> (r.Ok? <==> c !in d.faults)
  {
    match c
    case GetDeviceDescriptor => if d.descriptor.Ok? then Ok(()) else Err(d.descriptor.error)
    case GetActiveConfigDescriptor => if d.activeConfig.Ok? then Ok(()) else Err(d.activeConfig.error)
    case _ => if c in d.faults then Err(d.faults[c]) else Ok(())
  }

  /** A logged call and whether it succeeded. */
  datatype Entry = Entry(call: Call, ok: bool)

  /** The state of a handle, with the log of calls made on it. */
  datatype HandleState = HandleState(
    autoDetach: bool,
    kernelAttached: set<u8>,
    claimed: set<u8>,
    log: seq<Entry>)

  /**
   * What one call does to the handle. Every call is logged; a failed call
   * changes nothing else. A successful reset leaves the driver binding as it
   * is: nothing guarantees the kernel driver comes back after a reset.
   */
  function Effect(s: HandleState, e: Entry): (t: HandleState)
    ensures t.log == s.log + [e]
    ensures t.autoDetach != s.autoDetach ==> e.ok && e.call.SetAutoDetachKernelDriver?
    ensures t.kernelAttached != s.kernelAttached ==> e.ok && (e.call.DetachKernelDriver? || e.call.AttachKernelDriver?)
    ensures t.claimed != s.claimed ==> e.ok && (e.call.ClaimInterface? || e.call.ReleaseInterface?)
  {
    var logged := s.(log := s.log + [e]);
    if !e.ok then logged
    else match e.call
      case SetAutoDetachKernelDriver(enable) => logged.(autoDetach := enable)
      case DetachKernelDriver(i) => logged.(kernelAttached := s.kernelAttached - {i})
      case AttachKernelDriver(i) => logged.(kernelAttached := s.kernelAttached + {i})
      case ClaimInterface(i) => logged.(claimed := s.claimed + {i})
      case ReleaseInterface(i) => logged.(claimed := s.claimed - {i})
      case _ => logged
  }

  /** The state reached from s by the calls es, in order. */
  function Replay(s: HandleState, es: seq<Entry>): HandleState
  {
    if es == [] then s else Effect(Replay(s, es[..|es| - 1]), es[|es| - 1])
  }

  lemma ReplaySnoc(s: HandleState, es: seq<Entry>, e: Entry)
    ensures Replay(s, es + [e]) == Effect(Replay(s, es), e)
  {
    assert (es + [e])[..|es|] == es;
  }

  /** Replaying two runs one after the other is replaying their concatenation. */
  lemma {:induction false} ReplayAppend(s: HandleState, xs: seq<Entry>, ys: seq<Entry>)
    ensures Replay(s, xs + ys) == Replay(Replay(s, xs), ys)
    decreases |ys|
  {
    if ys == [] {
      assert xs + ys == xs;
    } else {
      var init, last := ys[..|ys| - 1], ys[|ys| - 1];
      assert ys == init + [last];
      assert xs + ys == (xs + init) + [last];
      ReplaySnoc(s, xs + init, last);
      ReplayAppend(s, xs, init);
      ReplaySnoc(Replay(s, xs), init, last);
    }
  }

  /** The log after a replay is the old log followed by the replayed calls. */
  lemma {:induction false} ReplayLog(s: HandleState, es: seq<Entry>)
    ensures Replay(s, es).log == s.log + es
    decreases |es|
  {
    if es != [] {
      var init := es[..|es| - 1];
      ReplayLog(s, init);
      assert init + [es[|es| - 1]] == es;
    }
  }

  /**
   * A handle opened on one device. The device is fixed; every method is one
   * call of the USB library on the handle, answered by the device.
   */
  class DeviceHandle {
    const device: Device
    var autoDetach: bool
    var kernelAttached: set<u8>
    var claimed: set<u8>
    var log: seq<Entry>

    function State(): HandleState
      reads this
    {
      HandleState(autoDetach, kernelAttached, claimed, log)
    }

    /** A freshly opened handle: auto-detach off, nothing claimed, nothing logged. */
    constructor (device: Device)
      ensures this.device == device
      ensures State() == HandleState(false, device.kernelBound, {}, [])
    {
      this.device := device;
      autoDetach := false;
      kernelAttached := device.kernelBound;
      claimed := {};
      log := [];
    }

    /** Logs call c and applies its effect; returns its outcome. */
    method Perform(c: Call) returns (r: Result<()>)
      modifies this
      ensures r == Outcome(device, c)
      ensures State() == Effect(old(State()), Entry(c, r.Ok?))
    {
      r := Outcome(device, c);
      var s := Effect(State(), Entry(c, r.Ok?));
      autoDetach, kernelAttached, claimed, log := s.autoDetach, s.kernelAttached, s.claimed, s.log;
    }

    method SetAutoDetachKernelDriver(enable: bool) returns (r: Result<()>)
      modifies this
      ensures r == Outcome(device, Call.SetAutoDetachKernelDriver(enable))
      ensures State() == Effect(old(State()), Entry(Call.SetAutoDetachKernelDriver(enable), r.Ok?))
    {
      r := Perform(Call.SetAutoDetachKernelDriver(enable));
    }

    method DeviceDescriptor() returns (r: Result<DeviceDescriptor>)
      modifies this
      ensures r == device.descriptor
      ensures State() == Effect(old(State()), Entry(GetDeviceDescriptor, r.Ok?))
    {
      var _ := Perform(GetDeviceDescriptor);
      r := device.descriptor;
    }

    /** The interface numbers of the active configuration, in order. */
    method ActiveConfigDescriptor() returns (r: Result<seq<u8>>)
      modifies this
      ensures r == device.activeConfig
      ensures State() == Effect(old(State()), Entry(GetActiveConfigDescriptor, r.Ok?))
    {
      var _ := Perform(GetActiveConfigDescriptor);
      r := device.activeConfig;
    }

    /** Whether a kernel driver is bound to the interface, unless the query fails. */
    method KernelDriverActive(iface: u8) returns (r: Result<bool>)
      modifies this
      ensures Outcome(device, Call.KernelDriverActive(iface)).Err? ==> r == Err(Outcome(device, Call.KernelDriverActive(iface)).error)
      ensures Outcome(device, Call.KernelDriverActive(iface)).Ok? ==> r == Ok(iface in old(kernelAttached))
      ensures State() == Effect(old(State()), Entry(Call.KernelDriverActive(iface), r.Ok?))
    {
      var bound := iface in kernelAttached;
      var q := Perform(Call.KernelDriverActive(iface));
      r := if q.Ok? then Ok(bound) else Err(q.error);
    }

    method DetachKernelDriver(iface: u8) returns (r: Result<()>)
      modifies this
      ensures r == Outcome(device, Call.DetachKernelDriver(iface))
      ensures State() == Effect(old(State()), Entry(Call.DetachKernelDriver(iface), r.Ok?))
    {
      r := Perform(Call.DetachKernelDriver(iface));
    }

    method ClaimInterface(iface: u8) returns (r: Result<()>)
      modifies this
      ensures r == Outcome(device, Call.ClaimInterface(iface))
      ensures State() == Effect(old(State()), Entry(Call.ClaimInterface(iface), r.Ok?))
    {
      r := Perform(Call.ClaimInterface(iface));
    }

    method WriteControl(request: ControlRequest) returns (r: Result<()>)
      modifies this
      ensures r == Outcome(device, Call.WriteControl(request))
      ensures State() == Effect(old(State()), Entry(Call.WriteControl(request), r.Ok?))
    {
      r := Perform(Call.WriteControl(request));
    }

    method ReleaseInterface(iface: u8) returns (r: Result<()>)
      modifies this
      ensures r == Outcome(device, Call.ReleaseInterface(iface))
      ensures State() == Effect(old(State()), Entry(Call.ReleaseInterface(iface), r.Ok?))
    {
      r := Perform(Call.ReleaseInterface(iface));
    }

    method AttachKernelDriver(iface: u8) returns (r: Result<()>)
      modifies this
      ensures r == Outcome(device, Call.AttachKernelDriver(iface))
      ensures State() == Effect(old(State()), Entry(Call.AttachKernelDriver(iface), r.Ok?))
    {
      r := Perform(Call.AttachKernelDriver(iface));
    }

    method Reset() returns (r: Result<()>)
      modifies this
      ensures r == Outcome(device, Call.Reset)
      ensures State() == Effect(old(State()), Entry(Call.Reset, r.Ok?))
    {
      r := Perform(Call.Reset);
    }
  }
}
