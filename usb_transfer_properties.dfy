/**
 * What the control transfer guarantees, and what it does not: the order of
 * its calls, which failures stop it before the claim, when the kernel driver
 * is detached and reattached, when the device is reset, and the driver
 * binding and claim it leaves behind.
 */
module UsbTransferProperties {
  import opened Primitives
  import opened UsbRequest
  import opened UsbHandle
  import opened UsbControl

  /** Call c was made (whatever its outcome). */
  ghost predicate Attempted(calls: seq<Entry>, c: Call)
  {
    Entry(c, true) in calls || Entry(c, false) in calls
  }

  /** Call c was made and succeeded. */
  ghost predicate Succeeded(calls: seq<Entry>, c: Call)
  {
    Entry(c, true) in calls
  }

  /** The interface a call addresses, if it takes one. */
  function InterfaceArg(c: Call): Option<u8>
  {
    match c
    case KernelDriverActive(i) => Some(i)
    case DetachKernelDriver(i) => Some(i)
    case ClaimInterface(i) => Some(i)
    case ReleaseInterface(i) => Some(i)
    case AttachKernelDriver(i) => Some(i)
    case _ => None
  }

  /** The position of each call in the source text of `control_transfer`. */
  function Rank(c: Call): nat
  {
    match c
    case SetAutoDetachKernelDriver(_) => 0
    case GetDeviceDescriptor => 1
    case GetActiveConfigDescriptor => 2
    case KernelDriverActive(_) => 3
    case DetachKernelDriver(_) => 4
    case ClaimInterface(_) => 5
    case WriteControl(_) => 6
    case ReleaseInterface(_) => 7
    case AttachKernelDriver(_) => 8
    case Reset => 9
  }

  /** Every call comes after every call with a smaller rank: in particular no call is made twice. */
  ghost predicate InSourceOrder(es: seq<Entry>)
  {
    forall j, k | 0 <= j < k < |es| :: Rank(es[j].call) < Rank(es[k].call)
  }

  /** A run in source order stays so when a call of lower rank than its first is put in front. */
  lemma InSourceOrderCons(e: Entry, es: seq<Entry>)
    requires InSourceOrder(es)
    requires es != [] ==> Rank(e.call) < Rank(es[0].call)
    ensures InSourceOrder([e] + es)
  {
    var es' := [e] + es;
    forall j, k | 0 <= j < k < |es'|
      ensures Rank(es'[j].call) < Rank(es'[k].call)
    {
      if j == 0 && k > 1 {
        assert Rank(es[0].call) < Rank(es[k - 1].call);
      }
    }
  }

  /** The first interface of the active configuration: the one `control_transfer` claims. */
  function FirstInterface(d: Device): u8
    requires HasInterface(d) && d.activeConfig.Ok?
  {
    d.activeConfig.value[0]
  }

  /**
   * A step before the claim fails: setting the auto-detach flag, reading the
   * device descriptor, reading the active configuration, asking whether a
   * kernel driver is bound, or detaching the bound driver.
   */
  ghost predicate AcquisitionFails(d: Device, attached: set<u8>)
    requires HasInterface(d)
  {
    || Outcome(d, Call.SetAutoDetachKernelDriver(true)).Err?
    || d.descriptor.Err?
    || d.activeConfig.Err?
    || Outcome(d, KernelDriverActive(FirstInterface(d))).Err?
    || (FirstInterface(d) in attached && Outcome(d, DetachKernelDriver(FirstInterface(d))).Err?)
  }

  /**
   * An entry logs the device's outcome for its call, a call that takes an
   * interface addresses the first interface of the active configuration, and
   * a write is the sidetone request.
   */
  ghost predicate Faithful(d: Device, e: Entry)
  {
    && e.ok == Outcome(d, e.call).Ok?
    && (InterfaceArg(e.call).Some? ==>
          d.activeConfig.Ok? && d.activeConfig.value != [] && InterfaceArg(e.call).value == d.activeConfig.value[0])
    && (e.call.WriteControl? ==> e.call.request == SidetoneRequest())
  }

  /** A run returns the outcome of its last call, and only that call and a failed reattach can have failed. */
  ghost predicate EndsWithResult(d: Device, t: Trace)
  {
    && t.calls != []
    && t.result == Outcome(d, t.calls[|t.calls| - 1].call)
    && forall k | 0 <= k < |t.calls| - 1 :: t.calls[k].ok || t.calls[k].call.AttachKernelDriver?
  }

  // ---------------------------------------------------------------------
  // Acquisition: the calls before the claim
  // ---------------------------------------------------------------------

  /** Acquisition fails exactly when one of its steps does, and then its last call is the failed one. */
  lemma AcquireResult(d: Device, attached: set<u8>)
    requires HasInterface(d)
    ensures var a := AcquireTrace(d, attached);
            && (a.result.Err? <==> AcquisitionFails(d, attached))
            && (a.result.Err? ==> EndsWithResult(d, a))
            && (a.result.Ok? ==> a.result == Ok(()) && forall e | e in a.calls :: e.ok)
  {
  }

  /** Acquisition's calls are in source order, starting with the auto-detach flag. */
  lemma AcquireInSourceOrder(d: Device, attached: set<u8>)
    requires HasInterface(d)
    ensures var calls := AcquireTrace(d, attached).calls;
            InSourceOrder(calls) && calls != [] && calls[0].call == Call.SetAutoDetachKernelDriver(true)
  {
    if d.activeConfig.Ok? {
      var i := FirstInterface(d);
      if i in attached {
        ThenInSourceOrder(d, DetachKernelDriver(i), Done);
      }
      var detach := if i in attached then Then(d, DetachKernelDriver(i), Done) else Done;
      ThenInSourceOrder(d, KernelDriverActive(i), detach);
      InSourceOrderCons(Entry(GetActiveConfigDescriptor, true), DetachTrace(d, i, attached).calls);
    }
    var config := match d.activeConfig
      case Err(e) => Trace([Entry(GetActiveConfigDescriptor, false)], Err(e))
      case Ok(interfaces) => Prepend(Entry(GetActiveConfigDescriptor, true), DetachTrace(d, interfaces[0], attached));
    ThenInSourceOrder(d, GetDeviceDescriptor, config);
    ThenInSourceOrder(d, Call.SetAutoDetachKernelDriver(true), Then(d, GetDeviceDescriptor, config));
  }

  /** Acquisition makes calls of rank 4 at most. */
  lemma AcquireRanks(d: Device, attached: set<u8>)
    requires HasInterface(d)
    ensures forall e | e in AcquireTrace(d, attached).calls :: Rank(e.call) <= 4
  {
  }

  /** Every call of the acquisition is faithful to the device. */
  lemma AcquireFaithful(d: Device, attached: set<u8>)
    requires HasInterface(d)
    ensures forall e | e in AcquireTrace(d, attached).calls :: Faithful(d, e)
  {
  }

  /** The detach is attempted exactly when the query succeeded and found a driver bound. */
  lemma AcquireDetach(d: Device, attached: set<u8>)
    requires HasInterface(d) && d.activeConfig.Ok?
    ensures var a, i := AcquireTrace(d, attached), FirstInterface(d);
            && (Attempted(a.calls, DetachKernelDriver(i)) <==> Succeeded(a.calls, KernelDriverActive(i)) && i in attached)
            && (Succeeded(a.calls, DetachKernelDriver(i)) <==> a.result.Ok? && i in attached)
  {
  }

  /**
   * Acquisition unbinds the first interface's kernel driver exactly when it
   * succeeds with a driver bound, and claims nothing.
   */
  lemma AcquireFinalState(s: HandleState, d: Device, attached: set<u8>)
    requires HasInterface(d) && d.activeConfig.Ok?
    ensures var a, i := AcquireTrace(d, attached), FirstInterface(d);
            var f := Replay(s, a.calls);
            && (i in f.kernelAttached <==> i in s.kernelAttached && !(a.result.Ok? && i in attached))
            && (i in f.claimed <==> i in s.claimed)
  {
    var auto, i := Call.SetAutoDetachKernelDriver(true), FirstInterface(d);
    var detach := DetachTrace(d, i, attached);
    var config := Prepend(Entry(GetActiveConfigDescriptor, true), detach);
    ReplayThen(s, d, auto, Then(d, GetDeviceDescriptor, config));
    if Outcome(d, auto).Ok? {
      var s1 := Effect(s, Entry(auto, true));
      ReplayThen(s1, d, GetDeviceDescriptor, config);
      if d.descriptor.Ok? {
        var s2 := Effect(s1, Entry(GetDeviceDescriptor, true));
        ReplayAppend(s2, [Entry(GetActiveConfigDescriptor, true)], detach.calls);
        ReplayAppend(s2, [Entry(GetActiveConfigDescriptor, true)], []);
        DetachFinalState(Effect(s2, Entry(GetActiveConfigDescriptor, true)), d, i, attached);
      }
    }
  }

  /** The kernel driver query and detach unbind i exactly when both succeed, and claim nothing. */
  lemma DetachFinalState(s: HandleState, d: Device, i: u8, attached: set<u8>)
    ensures var t := DetachTrace(d, i, attached);
            var f := Replay(s, t.calls);
            && (i in f.kernelAttached <==> i in s.kernelAttached && !(t.result.Ok? && i in attached))
            && (i in f.claimed <==> i in s.claimed)
  {
    var afterQuery := if i in attached then Then(d, DetachKernelDriver(i), Done) else Done;
    ReplayThen(s, d, KernelDriverActive(i), afterQuery);
    if Outcome(d, KernelDriverActive(i)).Ok? && i in attached {
      ReplayThen(Effect(s, Entry(KernelDriverActive(i), true)), d, DetachKernelDriver(i), Done);
    }
  }

  // ---------------------------------------------------------------------
  // The session: the calls from the claim on
  // ---------------------------------------------------------------------

  /** Putting a call of lower rank in front of a run in source order keeps it in source order. */
  lemma ThenInSourceOrder(d: Device, c: Call, rest: Trace)
    requires InSourceOrder(rest.calls)
    requires rest.calls != [] ==> Rank(c) < Rank(rest.calls[0].call)
    ensures var calls := Then(d, c, rest).calls;
            InSourceOrder(calls) && calls != [] && calls[0].call == c
  {
    if Outcome(d, c).Ok? {
      InSourceOrderCons(Entry(c, true), rest.calls);
    }
  }

  /** The restore of the driver is in source order and starts with the reattach. */
  lemma RestoreInSourceOrder(d: Device, i: u8)
    ensures var calls := RestoreTrace(d, i).calls;
            InSourceOrder(calls) && calls != [] && calls[0].call == AttachKernelDriver(i)
  {
    if Outcome(d, AttachKernelDriver(i)).Err? {
      ThenInSourceOrder(d, Reset, Done);
      InSourceOrderCons(Entry(AttachKernelDriver(i), false), Then(d, Reset, Done).calls);
    }
  }

  /** The session's calls are in source order, starting with the claim. */
  lemma SessionInSourceOrder(d: Device, i: u8, kernelWasAttached: bool)
    ensures var calls := SessionTrace(d, i, kernelWasAttached).calls;
            InSourceOrder(calls) && calls != [] && calls[0].call == ClaimInterface(i)
  {
    var restore := if kernelWasAttached then RestoreTrace(d, i) else Done;
    if kernelWasAttached {
      RestoreInSourceOrder(d, i);
    }
    ThenInSourceOrder(d, ReleaseInterface(i), restore);
    var afterWrite := Then(d, ReleaseInterface(i), restore);
    ThenInSourceOrder(d, WriteControl(SidetoneRequest()), afterWrite);
    var afterClaim := Then(d, WriteControl(SidetoneRequest()), afterWrite);
    ThenInSourceOrder(d, ClaimInterface(i), afterClaim);
  }

  /** Every call of the session has rank 5 or more. */
  lemma SessionRanks(d: Device, i: u8, kernelWasAttached: bool)
    ensures forall e | e in SessionTrace(d, i, kernelWasAttached).calls :: Rank(e.call) >= 5
  {
    var s := SessionTrace(d, i, kernelWasAttached);
    SessionInSourceOrder(d, i, kernelWasAttached);
    forall e | e in s.calls
      ensures Rank(e.call) >= 5
    {
      var k :| 0 <= k < |s.calls| && s.calls[k] == e;
      assert k == 0 || Rank(s.calls[0].call) < Rank(s.calls[k].call);
    }
  }

  lemma SessionFaithful(d: Device, kernelWasAttached: bool)
    requires HasInterface(d) && d.activeConfig.Ok?
    ensures forall e | e in SessionTrace(d, FirstInterface(d), kernelWasAttached).calls :: Faithful(d, e)
  {
  }

  lemma SessionEndsWithResult(d: Device, i: u8, kernelWasAttached: bool)
    ensures EndsWithResult(d, SessionTrace(d, i, kernelWasAttached))
  {
  }

  /** Write after claim, release after write, reattach after release and only if the driver was detached. */
  lemma SessionSteps(d: Device, i: u8, kernelWasAttached: bool)
    ensures var calls := SessionTrace(d, i, kernelWasAttached).calls;
            && (Attempted(calls, WriteControl(SidetoneRequest())) ==> Succeeded(calls, ClaimInterface(i)))
            && (Attempted(calls, ReleaseInterface(i)) ==> Succeeded(calls, WriteControl(SidetoneRequest())))
            && (Attempted(calls, AttachKernelDriver(i)) <==> kernelWasAttached && Succeeded(calls, ReleaseInterface(i)))
  {
  }

  /** Reset exactly after a failed reattach, and then its outcome is the result. */
  lemma SessionRestore(d: Device, i: u8, kernelWasAttached: bool)
    ensures var t := SessionTrace(d, i, kernelWasAttached);
            && (Attempted(t.calls, Reset) <==> Entry(AttachKernelDriver(i), false) in t.calls)
            && (Entry(AttachKernelDriver(i), false) in t.calls ==> t.result == Outcome(d, Reset))
            && (Succeeded(t.calls, AttachKernelDriver(i)) ==> t.result == Ok(()))
            && (!kernelWasAttached ==> !Attempted(t.calls, AttachKernelDriver(i)) && !Attempted(t.calls, Reset))
  {
  }

  /** Which session calls succeed: each step needs every step before it. */
  lemma SessionOutcomes(d: Device, i: u8, kernelWasAttached: bool)
    ensures var calls := SessionTrace(d, i, kernelWasAttached).calls;
            var claim, write, release := Outcome(d, ClaimInterface(i)).Ok?, Outcome(d, WriteControl(SidetoneRequest())).Ok?, Outcome(d, ReleaseInterface(i)).Ok?;
            && (Succeeded(calls, ClaimInterface(i)) <==> claim)
            && (Succeeded(calls, WriteControl(SidetoneRequest())) <==> claim && write)
            && (Succeeded(calls, ReleaseInterface(i)) <==> claim && write && release)
            && (Succeeded(calls, AttachKernelDriver(i)) <==>
                  kernelWasAttached && claim && write && release && Outcome(d, AttachKernelDriver(i)).Ok?)
  {
  }

  /** The reattach binds the driver back when it succeeds; neither it nor the reset claims or releases. */
  lemma RestoreFinalState(s: HandleState, d: Device, i: u8)
    ensures var f := Replay(s, RestoreTrace(d, i).calls);
            && (i in f.kernelAttached <==> i in s.kernelAttached || Outcome(d, AttachKernelDriver(i)).Ok?)
            && f.claimed == s.claimed
  {
    var attach := Entry(AttachKernelDriver(i), Outcome(d, AttachKernelDriver(i)).Ok?);
    ReplayAppend(s, [attach], Then(d, Reset, Done).calls);
    ReplayAppend(s, [attach], []);
    ReplayThen(Effect(s, attach), d, Reset, Done);
  }

  /** From the release on: a successful release unclaims i; the restore may bind it back. */
  lemma ReleaseStageFinalState(s: HandleState, d: Device, i: u8, kernelWasAttached: bool)
    ensures var restore := if kernelWasAttached then RestoreTrace(d, i) else Done;
            var f := Replay(s, Then(d, ReleaseInterface(i), restore).calls);
            var release := Outcome(d, ReleaseInterface(i)).Ok?;
            && (i in f.kernelAttached <==>
                  i in s.kernelAttached || (kernelWasAttached && release && Outcome(d, AttachKernelDriver(i)).Ok?))
            && (release ==> i !in f.claimed)
            && (!release ==> (i in f.claimed <==> i in s.claimed))
  {
    var restore := if kernelWasAttached then RestoreTrace(d, i) else Done;
    ReplayThen(s, d, ReleaseInterface(i), restore);
    if Outcome(d, ReleaseInterface(i)).Ok? && kernelWasAttached {
      RestoreFinalState(Effect(s, Entry(ReleaseInterface(i), true)), d, i);
    }
  }

  /** From the write on: i is unclaimed only when the write and the release succeed. */
  lemma WriteStageFinalState(s: HandleState, d: Device, i: u8, kernelWasAttached: bool)
    ensures var restore := if kernelWasAttached then RestoreTrace(d, i) else Done;
            var afterWrite := Then(d, ReleaseInterface(i), restore);
            var f := Replay(s, Then(d, WriteControl(SidetoneRequest()), afterWrite).calls);
            var write, release := Outcome(d, WriteControl(SidetoneRequest())).Ok?, Outcome(d, ReleaseInterface(i)).Ok?;
            && (i in f.kernelAttached <==>
                  i in s.kernelAttached || (kernelWasAttached && write && release && Outcome(d, AttachKernelDriver(i)).Ok?))
            && (write && release ==> i !in f.claimed)
            && (!(write && release) ==> (i in f.claimed <==> i in s.claimed))
  {
    var restore := if kernelWasAttached then RestoreTrace(d, i) else Done;
    var afterWrite := Then(d, ReleaseInterface(i), restore);
    ReplayThen(s, d, WriteControl(SidetoneRequest()), afterWrite);
    if Outcome(d, WriteControl(SidetoneRequest())).Ok? {
      ReleaseStageFinalState(Effect(s, Entry(WriteControl(SidetoneRequest()), true)), d, i, kernelWasAttached);
    }
  }

  /**
   * The session leaves interface i bound to a kernel driver exactly when it
   * was bound before or the reattach succeeded; a session whose claim, write
   * and release succeed leaves it released; a claim not followed by a
   * successful write and release leaves it claimed.
   */
  lemma SessionFinalState(s: HandleState, d: Device, i: u8, kernelWasAttached: bool)
    ensures var f := Replay(s, SessionTrace(d, i, kernelWasAttached).calls);
            var claim, write, release := Outcome(d, ClaimInterface(i)).Ok?, Outcome(d, WriteControl(SidetoneRequest())).Ok?, Outcome(d, ReleaseInterface(i)).Ok?;
            && (i in f.kernelAttached <==>
                  i in s.kernelAttached || (kernelWasAttached && claim && write && release && Outcome(d, AttachKernelDriver(i)).Ok?))
            && (claim && write && release ==> i !in f.claimed)
            && (claim && !(write && release) ==> i in f.claimed)
  {
    var restore := if kernelWasAttached then RestoreTrace(d, i) else Done;
    var afterWrite := Then(d, ReleaseInterface(i), restore);
    var afterClaim := Then(d, WriteControl(SidetoneRequest()), afterWrite);
    ReplayThen(s, d, ClaimInterface(i), afterClaim);
    if Outcome(d, ClaimInterface(i)).Ok? {
      WriteStageFinalState(Effect(s, Entry(ClaimInterface(i), true)), d, i, kernelWasAttached);
    }
  }

  // ---------------------------------------------------------------------
  // The whole transfer
  // ---------------------------------------------------------------------

  /** A call before the claim appears in the whole run exactly as in the acquisition. */
  lemma AcquireEntryInTransfer(d: Device, attached: set<u8>, e: Entry)
    requires HasInterface(d) && d.activeConfig.Ok? && Rank(e.call) <= 4
    ensures e in TransferTrace(d, attached).calls <==> e in AcquireTrace(d, attached).calls
  {
    var i := FirstInterface(d);
    SessionRanks(d, i, i in attached);
  }

  /** A call from the claim on appears in the whole run exactly as in the session, and only when acquisition succeeds. */
  lemma SessionEntryInTransfer(d: Device, attached: set<u8>, e: Entry)
    requires HasInterface(d) && d.activeConfig.Ok? && Rank(e.call) >= 5
    ensures var t, i := TransferTrace(d, attached), FirstInterface(d);
            e in t.calls <==> AcquireTrace(d, attached).result.Ok? && e in SessionTrace(d, i, i in attached).calls
  {
    AcquireRanks(d, attached);
  }

  /**
   * The calls of `control_transfer` are made in the order of its source
   * text, each at most once: so whatever happens, the claim precedes the
   * write, the write precedes the release, and the release precedes any
   * reattach or reset.
   */
  lemma CallsFollowSourceOrder(d: Device, attached: set<u8>)
    requires HasInterface(d)
    ensures InSourceOrder(TransferTrace(d, attached).calls)
  {
    var a := AcquireTrace(d, attached);
    AcquireInSourceOrder(d, attached);
    if a.result.Ok? {
      var i := FirstInterface(d);
      var s := SessionTrace(d, i, i in attached);
      AcquireRanks(d, attached);
      SessionInSourceOrder(d, i, i in attached);
      SessionRanks(d, i, i in attached);
      var calls := a.calls + s.calls;
      forall j, k | 0 <= j < k < |calls|
        ensures Rank(calls[j].call) < Rank(calls[k].call)
      {
        if j < |a.calls| <= k {
          assert calls[j] in a.calls && calls[k] in s.calls;
        } else if |a.calls| <= j {
          assert calls[j] == s.calls[j - |a.calls|] && calls[k] == s.calls[k - |a.calls|];
        }
      }
    }
  }

  /** Every logged outcome is the device's, every call that takes an interface addresses the first interface, and every write is the sidetone request. */
  lemma CallsAddressFirstInterface(d: Device, attached: set<u8>)
    requires HasInterface(d)
    ensures forall e | e in TransferTrace(d, attached).calls :: Faithful(d, e)
  {
    AcquireFaithful(d, attached);
    if AcquireTrace(d, attached).result.Ok? {
      SessionFaithful(d, FirstInterface(d) in attached);
    }
  }

  /**
   * The operation returns the outcome of its last call; only that call and a
   * failed reattach can have failed.
   */
  lemma ResultIsLastOutcome(d: Device, attached: set<u8>)
    requires HasInterface(d)
    ensures EndsWithResult(d, TransferTrace(d, attached))
  {
    var a := AcquireTrace(d, attached);
    AcquireResult(d, attached);
    if a.result.Ok? {
      var i := FirstInterface(d);
      var s := SessionTrace(d, i, i in attached);
      SessionEndsWithResult(d, i, i in attached);
      var calls := a.calls + s.calls;
      forall k | 0 <= k < |calls| - 1
        ensures calls[k].ok || calls[k].call.AttachKernelDriver?
      {
        if k < |a.calls| {
          assert calls[k] in a.calls;
        } else {
          assert calls[k] == s.calls[k - |a.calls|];
        }
      }
    }
  }

  /**
   * A failure of the auto-detach flag, the descriptor or configuration read,
   * the kernel driver query or the detach is exactly what keeps the claim
   * from being attempted; then neither a write, a release, a reattach nor a
   * reset happens, and the operation fails.
   */
  lemma AcquisitionFailureStopsBeforeClaim(d: Device, attached: set<u8>)
    requires HasInterface(d)
    ensures var t := TransferTrace(d, attached);
            AcquisitionFails(d, attached) <==> forall e | e in t.calls :: !e.call.ClaimInterface?
    ensures var t := TransferTrace(d, attached);
            AcquisitionFails(d, attached) ==> t.result.Err? && forall e | e in t.calls :: Rank(e.call) <= 4
  {
    var a := AcquireTrace(d, attached);
    AcquireResult(d, attached);
    AcquireRanks(d, attached);
    if a.result.Ok? {
      var i := FirstInterface(d);
      var s := SessionTrace(d, i, i in attached);
      SessionInSourceOrder(d, i, i in attached);
      assert s.calls[0] in TransferTrace(d, attached).calls;
    }
  }

  /**
   * The driver is detached exactly when the kernel driver query succeeded
   * and reported a driver bound to the interface; the detach succeeded (the
   * source's `kernel_was_attached`) exactly when acquisition succeeded with a
   * driver bound.
   */
  lemma DetachIffKernelDriverActive(d: Device, attached: set<u8>)
    requires HasInterface(d) && d.activeConfig.Ok?
    ensures var t, i := TransferTrace(d, attached), FirstInterface(d);
            Attempted(t.calls, DetachKernelDriver(i)) <==> Succeeded(t.calls, KernelDriverActive(i)) && i in attached
    ensures var t, i := TransferTrace(d, attached), FirstInterface(d);
            Succeeded(t.calls, DetachKernelDriver(i)) <==> !AcquisitionFails(d, attached) && i in attached
  {
    var i := FirstInterface(d);
    AcquireEntryInTransfer(d, attached, Entry(DetachKernelDriver(i), true));
    AcquireEntryInTransfer(d, attached, Entry(DetachKernelDriver(i), false));
    AcquireEntryInTransfer(d, attached, Entry(KernelDriverActive(i), true));
    AcquireDetach(d, attached);
    AcquireResult(d, attached);
  }

  /** The control write is attempted only after a successful claim. */
  lemma WriteNeedsClaim(d: Device, attached: set<u8>)
    requires HasInterface(d) && d.activeConfig.Ok?
    ensures var t, i := TransferTrace(d, attached), FirstInterface(d);
            Attempted(t.calls, WriteControl(SidetoneRequest())) ==> Succeeded(t.calls, ClaimInterface(i))
  {
    var i := FirstInterface(d);
    SessionEntryInTransfer(d, attached, Entry(WriteControl(SidetoneRequest()), true));
    SessionEntryInTransfer(d, attached, Entry(WriteControl(SidetoneRequest()), false));
    SessionEntryInTransfer(d, attached, Entry(ClaimInterface(i), true));
    SessionSteps(d, i, i in attached);
  }

  /** The release is attempted only after a successful control write. */
  lemma ReleaseNeedsWrite(d: Device, attached: set<u8>)
    requires HasInterface(d) && d.activeConfig.Ok?
    ensures var t, i := TransferTrace(d, attached), FirstInterface(d);
            Attempted(t.calls, ReleaseInterface(i)) ==> Succeeded(t.calls, WriteControl(SidetoneRequest()))
  {
    var i := FirstInterface(d);
    SessionEntryInTransfer(d, attached, Entry(ReleaseInterface(i), true));
    SessionEntryInTransfer(d, attached, Entry(ReleaseInterface(i), false));
    SessionEntryInTransfer(d, attached, Entry(WriteControl(SidetoneRequest()), true));
    SessionSteps(d, i, i in attached);
  }

  /** The reattach is attempted exactly when the driver was detached and the release succeeded. */
  lemma ReattachIffDetachedAndReleased(d: Device, attached: set<u8>)
    requires HasInterface(d) && d.activeConfig.Ok?
    ensures var t, i := TransferTrace(d, attached), FirstInterface(d);
            Attempted(t.calls, AttachKernelDriver(i)) <==>
              Succeeded(t.calls, DetachKernelDriver(i)) && Succeeded(t.calls, ReleaseInterface(i))
  {
    var i := FirstInterface(d);
    SessionEntryInTransfer(d, attached, Entry(AttachKernelDriver(i), true));
    SessionEntryInTransfer(d, attached, Entry(AttachKernelDriver(i), false));
    SessionEntryInTransfer(d, attached, Entry(ReleaseInterface(i), true));
    AcquireEntryInTransfer(d, attached, Entry(DetachKernelDriver(i), true));
    AcquireDetach(d, attached);
    SessionSteps(d, i, i in attached);
  }

  /**
   * The reset is attempted exactly when the reattach failed, and then the
   * reset's outcome is the result: Ok when the reset succeeds, its error
   * otherwise.
   */
  lemma ResetAfterFailedReattach(d: Device, attached: set<u8>)
    requires HasInterface(d) && d.activeConfig.Ok?
    ensures var t, i := TransferTrace(d, attached), FirstInterface(d);
            && (Attempted(t.calls, Reset) <==> Entry(AttachKernelDriver(i), false) in t.calls)
            && (Entry(AttachKernelDriver(i), false) in t.calls ==> t.result == Outcome(d, Reset))
  {
    var i := FirstInterface(d);
    SessionEntryInTransfer(d, attached, Entry(Reset, true));
    SessionEntryInTransfer(d, attached, Entry(Reset, false));
    SessionEntryInTransfer(d, attached, Entry(AttachKernelDriver(i), false));
    SessionRestore(d, i, i in attached);
  }

  /** A successful reattach ends the operation successfully. */
  lemma ReattachSuccessIsOk(d: Device, attached: set<u8>)
    requires HasInterface(d) && d.activeConfig.Ok?
    ensures var t, i := TransferTrace(d, attached), FirstInterface(d);
            Succeeded(t.calls, AttachKernelDriver(i)) ==> t.result == Ok(())
  {
    var i := FirstInterface(d);
    SessionEntryInTransfer(d, attached, Entry(AttachKernelDriver(i), true));
    SessionRestore(d, i, i in attached);
  }

  /** Without a successful detach there is neither a reattach nor a reset. */
  lemma NoRestoreWithoutDetach(d: Device, attached: set<u8>)
    requires HasInterface(d) && d.activeConfig.Ok?
    ensures var t, i := TransferTrace(d, attached), FirstInterface(d);
            !Succeeded(t.calls, DetachKernelDriver(i)) ==>
              !Attempted(t.calls, AttachKernelDriver(i)) && !Attempted(t.calls, Reset)
  {
    var i := FirstInterface(d);
    SessionEntryInTransfer(d, attached, Entry(AttachKernelDriver(i), true));
    SessionEntryInTransfer(d, attached, Entry(AttachKernelDriver(i), false));
    SessionEntryInTransfer(d, attached, Entry(Reset, true));
    SessionEntryInTransfer(d, attached, Entry(Reset, false));
    AcquireEntryInTransfer(d, attached, Entry(DetachKernelDriver(i), true));
    AcquireDetach(d, attached);
    SessionRestore(d, i, i in attached);
  }

  /**
   * The operation succeeds exactly when acquisition, claim, write and
   * release succeed and, if the driver was detached, the reattach or else
   * the reset succeeds.
   */
  lemma SuccessCondition(d: Device, attached: set<u8>)
    requires HasInterface(d)
    ensures TransferTrace(d, attached).result.Ok? <==>
              && !AcquisitionFails(d, attached)
              && var i := FirstInterface(d);
                 && Outcome(d, ClaimInterface(i)).Ok?
                 && Outcome(d, WriteControl(SidetoneRequest())).Ok?
                 && Outcome(d, ReleaseInterface(i)).Ok?
                 && (i in attached ==> Outcome(d, AttachKernelDriver(i)).Ok? || Outcome(d, Reset).Ok?)
  {
    AcquireResult(d, attached);
  }

  // ---------------------------------------------------------------------
  // The handle state the transfer leaves behind
  // ---------------------------------------------------------------------

  /**
   * Started on a fresh handle, the transfer leaves the first interface bound
   * to a kernel driver exactly when the reattach succeeded after a successful
   * detach, or, without a successful detach, when it was bound before. A
   * successful reset does not bind it back.
   */
  lemma KernelBindingAfterTransfer(s0: HandleState, d: Device)
    requires HasInterface(d) && d.activeConfig.Ok?
    ensures var t, i := TransferTrace(d, s0.kernelAttached), FirstInterface(d);
            i in Replay(s0, t.calls).kernelAttached <==>
              if Succeeded(t.calls, DetachKernelDriver(i)) then Succeeded(t.calls, AttachKernelDriver(i))
              else i in s0.kernelAttached
  {
    var attached, i := s0.kernelAttached, FirstInterface(d);
    var a := AcquireTrace(d, attached);
    AcquireFinalState(s0, d, attached);
    AcquireEntryInTransfer(d, attached, Entry(DetachKernelDriver(i), true));
    AcquireDetach(d, attached);
    SessionEntryInTransfer(d, attached, Entry(AttachKernelDriver(i), true));
    if a.result.Ok? {
      var s := SessionTrace(d, i, i in attached);
      ReplayAppend(s0, a.calls, s.calls);
      SessionFinalState(Replay(s0, a.calls), d, i, i in attached);
      SessionOutcomes(d, i, i in attached);
    }
  }

  /**
   * A successful transfer leaves the first interface released; a claim that
   * is not followed by a successful release leaves it claimed.
   */
  lemma ClaimAfterTransfer(s0: HandleState, d: Device)
    requires HasInterface(d) && d.activeConfig.Ok?
    ensures var t, i := TransferTrace(d, s0.kernelAttached), FirstInterface(d);
            var f := Replay(s0, t.calls);
            && (t.result.Ok? ==> i !in f.claimed)
            && (Succeeded(t.calls, ClaimInterface(i)) && !Succeeded(t.calls, ReleaseInterface(i)) ==> i in f.claimed)
  {
    var attached, i := s0.kernelAttached, FirstInterface(d);
    var a := AcquireTrace(d, attached);
    SessionEntryInTransfer(d, attached, Entry(ClaimInterface(i), true));
    SessionEntryInTransfer(d, attached, Entry(ReleaseInterface(i), true));
    SuccessCondition(d, attached);
    AcquireResult(d, attached);
    if a.result.Ok? {
      var s := SessionTrace(d, i, i in attached);
      ReplayAppend(s0, a.calls, s.calls);
      SessionFinalState(Replay(s0, a.calls), d, i, i in attached);
      SessionOutcomes(d, i, i in attached);
    }
  }

  /**
   * When the claim, the write or the release fails after a successful
   * detach, the operation returns the error without reattaching or
   * resetting, and the kernel driver stays detached.
   */
  lemma DriverLeftDetachedOnLateFailure(s0: HandleState, d: Device)
    requires HasInterface(d) && d.activeConfig.Ok?
    ensures var t, i := TransferTrace(d, s0.kernelAttached), FirstInterface(d);
            Succeeded(t.calls, DetachKernelDriver(i)) && !Succeeded(t.calls, ReleaseInterface(i)) ==>
              && t.result.Err?
              && !Attempted(t.calls, AttachKernelDriver(i)) && !Attempted(t.calls, Reset)
              && i !in Replay(s0, t.calls).kernelAttached
  {
    var attached, i := s0.kernelAttached, FirstInterface(d);
    ReattachIffDetachedAndReleased(d, attached);
    ResetAfterFailedReattach(d, attached);
    KernelBindingAfterTransfer(s0, d);
    SuccessCondition(d, attached);
    DetachIffKernelDriverActive(d, attached);
    SessionEntryInTransfer(d, attached, Entry(ReleaseInterface(i), true));
    SessionOutcomes(d, i, i in attached);
  }
}
