# g35-control, modelled in Dafny

g35-control sets the sidetone level of a Logitech G35 headset. It has two parts, and this project models the core of each.

**The USB part** (`src/usb_control.rs`):
- It finds the headset among the attached USB devices by vendor and product ID.
- It runs one control transfer on a handle opened on the headset, step by step:
  - set the auto-detach flag;
  - read the device descriptor and the active configuration, and take the first interface;
  - detach the kernel driver if one is bound;
  - claim the interface;
  - send one class-specific SET_CUR request to the sidetone Feature Unit;
  - release the interface;
  - reattach the kernel driver if it had been detached, resetting the device if the reattach fails.

**The ALSA part** (`src/alsa_control.rs`):
- It turns the ALSA device name hints into a numbered list of options. Each hint's description is split into a primary and a secondary name.
- It selects an option from a line the user typed, either by the number shown or by the primary name.

Files:
- `primitives.dfy` holds `u8`, `u16` and `Option`.
- `usb_request.dfy` holds the request encoding. The bmRequestType layout follows section 9.3.1 of the USB 2.0 specification. The wValue/wIndex layout follows section 5.2.2.4 of the USB Device Class Definition for Audio Devices 1.0.
- `usb_handle.dfy` models a USB device and the handle opened on it:
  - The `Device` datatype fixes the outcome of every call the program can make on the device.
  - The class `DeviceHandle` has fields for the auto-detach flag, the interfaces with a kernel driver bound, the claimed interfaces and a log of calls. It has one method per library call.
- `usb_control.dfy` holds the models of `open_device`, `control_transfer` and `do_the_thing`.
  - `OpenDevice` is a loop over the enumeration.
  - `ControlTransfer` and `RunSession` are methods on the handle. They are proved against the specification function `TransferTrace`: the calls made, in order, with their outcomes and the result.
- `usb_transfer_properties.dfy` holds the lemmas about `TransferTrace` and about the handle state it leaves behind.
- `rust_str.dfy` models the standard library string operations the selection relies on: `trim`, `split`, `join`, `parse::<u16>` and `u16::to_string`.
- `alsa_control.dfy` holds the option building, the in-place numbering loop (on an array) and the selection.

## Model

| member | source | states |
|---|---|---|
| UsbRequest.RequestType | src/usb_control.rs:165-170 | the bmRequestType byte built from direction, type and recipient gives each of the three back |
| UsbRequest.RequestTypeInjective | src/usb_control.rs:165-170 | two bmRequestType bytes are equal exactly when their three fields are |
| UsbRequest.LiteralRequestTypeIsClassInterfaceOut | src/usb_control.rs:165-170 | the literal `0b00100001` is the byte for host-to-device, class, interface, as in the commented-out `request_type(...)` call |
| UsbRequest.Pack | src/usb_control.rs:161-162 | `(high << 8) \| low` keeps both bytes: the high and low bytes of the result are the inputs |
| UsbRequest.PackOfBytes | src/usb_control.rs:161-162 | every 16-bit field is the packing of its own high and low bytes |
| UsbRequest.FeatureUnitSetCur | src/usb_control.rs:156-176 | selector and channel are the high and low bytes of wValue; unit and interface are the high and low bytes of wIndex; the request is host-to-device, class, interface; the request code is SET_CUR; the payload is passed through; the timeout is 1000 ms |
| UsbRequest.SidetoneRequestFields | src/usb_control.rs:150-176 | the request sent is type 0x21, request 1, value 0x0100, index 0x0600, payload [0x00, 0xF4], timeout 1000 ms |
| UsbRequest.FixedFieldsIndependentOfPayload | src/usb_control.rs:156-176 | every field except the payload is the same whatever payload is sent |
| UsbHandle.Outcome | src/usb_control.rs:110-197 | a call on the handle fails exactly when the device is given a fault for it; the descriptor and configuration reads fail when the device's descriptor or configuration cannot be read |
| UsbHandle.Effect | src/usb_control.rs:110-197 | each call is appended to the log; a failed call changes nothing else; only a successful auto-detach call changes the flag; only a successful detach or attach changes the driver binding; only a successful claim or release changes the claimed interfaces |
| UsbHandle.DeviceHandle.constructor | src/usb_control.rs:33-34 | a freshly opened handle has auto-detach off, the device's kernel bindings, nothing claimed and an empty log |
| UsbHandle.DeviceHandle.SetAutoDetachKernelDriver | src/usb_control.rs:110 | returns the device's outcome; the new state is the old one with this call applied |
| UsbHandle.DeviceHandle.DeviceDescriptor | src/usb_control.rs:112 | returns the device's descriptor, or its error; the call is logged |
| UsbHandle.DeviceHandle.ActiveConfigDescriptor | src/usb_control.rs:113-115 | returns the interface numbers of the active configuration, or its error; the call is logged |
| UsbHandle.DeviceHandle.KernelDriverActive | src/usb_control.rs:122 | unless the query fails, reports whether a kernel driver is bound to the interface in the handle's current state |
| UsbHandle.DeviceHandle.DetachKernelDriver | src/usb_control.rs:127 | on success the interface is no longer bound; the call is logged |
| UsbHandle.DeviceHandle.ClaimInterface | src/usb_control.rs:144 | on success the interface is claimed; the call is logged |
| UsbHandle.DeviceHandle.WriteControl | src/usb_control.rs:164-176 | returns the device's outcome for the request; the call is logged |
| UsbHandle.DeviceHandle.ReleaseInterface | src/usb_control.rs:185 | on success the interface is no longer claimed; the call is logged |
| UsbHandle.DeviceHandle.AttachKernelDriver | src/usb_control.rs:190 | on success the interface is bound again; the call is logged |
| UsbHandle.DeviceHandle.Reset | src/usb_control.rs:197 | returns the device's outcome; the call is logged; the driver binding is left as it is |
| UsbControl.LocatedUnique | src/usb_control.rs:26-40 | at most one position is the first accepted device, and when one exists it is not the case that none qualifies |
| UsbControl.OpenDevice | src/usb_control.rs:16-41 | the device found is the first in enumeration order whose descriptor reads, whose IDs both match and which opens, so unreadable descriptors and failed opens are skipped; nothing is found exactly when the enumeration fails or no device qualifies |
| UsbControl.TransferTrace | src/usb_control.rs:105-203 | the calls `control_transfer` makes, with their outcomes, and its result: the acquisition calls, and only when all of them succeed the session calls after them; the result is the acquisition's error or else the session's result |
| UsbControl.AcquireTrace | src/usb_control.rs:110-130 | set auto-detach, read the device descriptor, read the active configuration, then query and possibly detach the driver of its first interface; each call is made only when the one before it succeeded, and a failed call's error is the result |
| UsbControl.DetachTrace | src/usb_control.rs:121-130 | query whether a kernel driver is bound to the interface, and detach it exactly when the query succeeds and reports one bound |
| UsbControl.SessionTrace | src/usb_control.rs:142-202 | claim, write the sidetone request, release, each only after the one before succeeded; then, when the driver had been detached, the restore; Ok when nothing before the restore failed and the restore gives Ok |
| UsbControl.RestoreTrace | src/usb_control.rs:188-199 | reattach the kernel driver; Ok when that succeeds, otherwise a reset whose outcome is the result |
| UsbControl.RunSession | src/usb_control.rs:142-202 | claim, write, release and the restore of the driver change the handle exactly as replaying the session's calls does, and return the session's result |
| UsbControl.ControlTransfer | src/usb_control.rs:105-203 | the calls made on the handle, their outcomes and the result are those of `TransferTrace` for the device and the bindings at the start; the new handle state is the old one with those calls replayed |
| UsbControl.DoTheThing | src/usb_control.rs:7-14 | when the enumeration fails or no device qualifies, the result is NotFound and no call is made on any handle; otherwise the calls and result are those of the transfer on the located device |
| UsbTransferProperties.CallsFollowSourceOrder | src/usb_control.rs:110-202 | the calls are made in the order of the source text, each at most once, so the claim precedes the write, the write precedes the release, and the release precedes any reattach or reset |
| UsbTransferProperties.CallsAddressFirstInterface | src/usb_control.rs:115-190 | every logged outcome is the device's; every call that takes an interface addresses the first interface of the active configuration; every write is the sidetone request |
| UsbTransferProperties.ResultIsLastOutcome | src/usb_control.rs:110-202 | the operation returns the outcome of its last call, and no call before it failed except a reattach |
| UsbTransferProperties.AcquisitionFailureStopsBeforeClaim | src/usb_control.rs:110-127 | the claim is never attempted exactly when setting auto-detach, reading the descriptor or configuration, the driver query or the detach fails; then no write, release, reattach or reset happens and the operation fails |
| UsbTransferProperties.DetachIffKernelDriverActive | src/usb_control.rs:121-130 | the detach is attempted exactly when the driver query succeeds and reports a bound driver; it succeeds (`kernel_was_attached`) exactly when acquisition succeeds with a bound driver |
| UsbTransferProperties.WriteNeedsClaim | src/usb_control.rs:144-176 | the control write is attempted only after a successful claim |
| UsbTransferProperties.ReleaseNeedsWrite | src/usb_control.rs:164-185 | the release is attempted only after a successful write |
| UsbTransferProperties.ReattachIffDetachedAndReleased | src/usb_control.rs:185-190 | the reattach is attempted exactly when the detach and the release both succeeded |
| UsbTransferProperties.ResetAfterFailedReattach | src/usb_control.rs:188-199 | the reset is attempted exactly when the reattach failed, and then the reset's outcome is the result (Ok after a successful reset) |
| UsbTransferProperties.ReattachSuccessIsOk | src/usb_control.rs:190-202 | a successful reattach ends the operation with Ok |
| UsbTransferProperties.NoRestoreWithoutDetach | src/usb_control.rs:188-200 | without a successful detach, neither a reattach nor a reset is attempted |
| UsbTransferProperties.SuccessCondition | src/usb_control.rs:110-202 | the operation succeeds exactly when acquisition, claim, write and release succeed and, if a driver was bound, the reattach or else the reset succeeds |
| UsbTransferProperties.KernelBindingAfterTransfer | src/usb_control.rs:121-199 | on a fresh handle, the first interface ends bound to a kernel driver exactly when the reattach succeeded after a successful detach, or, without a detach, when it was bound at the start |
| UsbTransferProperties.ClaimAfterTransfer | src/usb_control.rs:144-185 | a successful transfer leaves the interface released; a claim not followed by a successful release leaves it claimed |
| UsbTransferProperties.DriverLeftDetachedOnLateFailure | src/usb_control.rs:127-185 | when the claim, write or release fails after a successful detach, the error is returned with no reattach and no reset, and the kernel driver stays detached |
| RustStr.TrimStartSpec | src/alsa_control.rs:174 | `trim_start` keeps the longest suffix that does not start with whitespace, and cuts off only whitespace |
| RustStr.TrimEndSpec | src/alsa_control.rs:174 | `trim_end` keeps the longest prefix that does not end with whitespace, and cuts off only whitespace |
| RustStr.TrimSpec | src/alsa_control.rs:174 | `trim` keeps a slice of the input with only whitespace around it, and the slice neither starts nor ends with whitespace |
| RustStr.TrimIgnoresPadding | src/alsa_control.rs:174 | whitespace added on either side does not change the trimmed text |
| RustStr.TrimIdempotent | src/alsa_control.rs:181-182 | trimming a trimmed name changes nothing |
| RustStr.TrimStart | src/alsa_control.rs:174 | the text without its leading Unicode whitespace (the first half of `str::trim`) |
| RustStr.TrimEnd | src/alsa_control.rs:174 | the text without its trailing Unicode whitespace (the second half of `str::trim`) |
| RustStr.Trim | src/alsa_control.rs:174-182 | `str::trim`, used on the typed line and on each option's primary name: the text without leading and trailing whitespace |
| RustStr.Join | src/alsa_control.rs:110-114 | `join`: the pieces with the separator between neighbours, empty for no pieces |
| RustStr.Split | src/alsa_control.rs:107 | `split` gives at least one piece, the first no longer than the text, and no piece contains the separator |
| RustStr.SplitThenJoin | src/alsa_control.rs:107 | joining the pieces of a split with the separator gives the text back |
| RustStr.JoinThenSplit | src/alsa_control.rs:107 | splitting the join of separator-free pieces gives the pieces back |
| RustStr.JoinOfSplit | src/alsa_control.rs:107-114 | joining the pieces of a split with another separator replaces each occurrence of the split character by that separator |
| RustStr.SplitFirst | src/alsa_control.rs:107-108 | the first piece is the text before the first separator; when a separator follows it, the other pieces are the split of the text after it |
| RustStr.ParseU16 | src/alsa_control.rs:175 | `str::parse::<u16>` in both directions: a parsed number comes from an optional `+` followed by decimal digits that denote it, and every optional `+` followed by digits denoting a value below 65536 parses to that value |
| RustStr.ParseDigits | src/alsa_control.rs:175 | a non-empty digit string below 65536 parses to its value, with or without a `+` in front |
| RustStr.ParseIgnoresSignAndZeros | src/alsa_control.rs:175 | zeros and a `+` in front of the digits of a number parse to the same number, so "07" and "+7" are both 7 |
| RustStr.DecimalString | src/alsa_control.rs:154 | the shown number is a non-empty string of digits without a leading zero |
| RustStr.DecimalStringValue | src/alsa_control.rs:154 | the digits shown for n denote n |
| RustStr.ParseShownNumber | src/alsa_control.rs:154-175 | parsing the text shown for a u16 gives the number back |
| RustStr.DecimalStringTrimmed | src/alsa_control.rs:154-174 | the text shown for a number is its own trim |
| AlsaControl.NameParts | src/alsa_control.rs:105-121 | the primary and secondary names of a description: the first line, and " \| " followed by the other lines joined with " \| "; "Unknown" and no secondary name without a description |
| AlsaControl.TechName | src/alsa_control.rs:123-126 | the technical name: the hint's name, or "Unknown" when it has none |
| AlsaControl.OptionFromHint | src/alsa_control.rs:104-136 | a new option has number 0 and keeps the hint and its direction; a missing description gives primary name "Unknown" and no secondary name; a present description gives a secondary name starting with " \| "; the technical name is the hint's name, or "Unknown" |
| AlsaControl.DescriptionSplit | src/alsa_control.rs:105-119 | the primary name is the text before the first line break; a one-line description gives secondary " \| "; otherwise the secondary name is " \| " followed by the rest with each line break replaced by " \| " |
| AlsaControl.DescriptionRecoverable | src/alsa_control.rs:105-108 | the primary name and the remaining lines, joined with line breaks, give the description back |
| AlsaControl.NumberOptions | src/alsa_control.rs:139-141 | the array afterwards is the numbering of its old contents |
| AlsaControl.GetInitialDeviceOptions | src/alsa_control.rs:99-144 | one option per hint, in enumeration order, built from the hint and numbered by position |
| AlsaControl.NumberIsPosition | src/alsa_control.rs:139-141 | below 65535 positions, the option at position i is numbered i + 1 |
| AlsaControl.NumberingChangesOnlyNumber | src/alsa_control.rs:139-141 | numbering keeps the length, the order and every field except the number |
| AlsaControl.NumbersIncrease | src/alsa_control.rs:139-141 | with at most 65535 options, the numbers increase along the list, so they are distinct |
| AlsaControl.NumbersWrap | src/alsa_control.rs:140 | the `as u16` cast numbers the 65536th option 0, and the 65537th the same as the first |
| AlsaControl.Matches | src/alsa_control.rs:180-187 | the `find` closure: an option matches when the typed text parsed as a number equals its number, or when its trimmed primary name equals the trimmed input |
| AlsaControl.FindFrom | src/alsa_control.rs:178-188 | the first matching option at or after a position, or none when none matches |
| AlsaControl.GetDeviceSelection | src/alsa_control.rs:174-190 | the input is trimmed and read as a u16 if it is one; nothing is selected exactly when no option matches; otherwise the first matching option in list order is selected |
| AlsaControl.FindFirstAt | src/alsa_control.rs:178-188 | the search returns position k whenever option k matches and no option before it does |
| AlsaControl.SelectionIgnoresPadding | src/alsa_control.rs:172-175 | whitespace around the typed line, such as its line break, does not change the selection |
| AlsaControl.NameSelects | src/alsa_control.rs:174-186 | input that is not a number selects the first option whose trimmed primary name equals the trimmed input |
| AlsaControl.ShownNumberSelects | src/alsa_control.rs:139-187 | typing the number shown for the option at position k selects it, unless an earlier option's trimmed primary name is that same number text |
| AlsaControl.EveryListedNumberSelects | src/alsa_control.rs:139-187 | in a list of fewer than 65536 options whose names are not numbers, each option's shown number selects that option |

## Left out

- `print_device_info` (src/usb_control.rs:43-103) only reads strings and descriptors in order to print them. It is not modelled.
- The `sleep` calls (src/usb_control.rs:148, 183, 186) are timing only. They are no-ops, noted as comments in `UsbControl.RunSession`.
- The `println!` progress messages are not modelled.
- The USB library itself is not modelled: `Context::new`, the device enumeration and the real libusb behaviour.
  - The enumeration is a parameter, a `Result<seq<Device>>`.
  - Each `Device` value fixes the outcome of every call made on it.
  - `kernel_driver_active` answers from the handle's own binding state.
  - A successful reset leaves the binding as it is, because nothing guarantees that the kernel driver comes back.
- UsbHandle.Effect: records the auto-detach flag, but the flag has no effect on claim or release. In libusb on Linux, with auto-detach on, claiming an interface detaches a bound kernel driver and releasing it reattaches the driver; the comment at src/usb_control.rs:180 relies on this. The model changes a binding only on the program's own detach and attach calls. `UsbTransferProperties.KernelBindingAfterTransfer` and `UsbTransferProperties.DriverLeftDetachedOnLateFailure` hold only under this abstraction.
- The headset's vendor and product IDs come from the `g35` module, which is not part of this model. They are the parameters `vid` and `pid`.
- `UsbControl.OpenDevice` returns the position of the device found, not the `(Device, DeviceHandle)` pair. `UsbControl.DoTheThing` opens the handle on that device.
- `UsbControl.ControlTransfer` requires a non-empty interface list in a readable active configuration. The source indexes `active_interfaces[0]` and panics on an empty list (src/usb_control.rs:117).
- `UsbControl.DoTheThing` requires the same of the device it locates.
- The source reads the device descriptor from `device_handle.device()` and never uses it. The model logs that read as a handle call, so that its failure shows in the trace.
- The byte count `write_control` returns is discarded by the source. The model keeps only success or failure.
- Dropping the handle, which in the library releases claimed interfaces and closes the device, is not modelled. The final-state lemmas describe the handle just before it is dropped.
- The ALSA part is not modelled as I/O:
  - `do_the_thing` in src/alsa_control.rs:42-97 (opening the control interface, printing the card information, exiting on "Device not found!");
  - the `CStr` context and `HintIter` enumeration (src/alsa_control.rs:101-103);
  - listing the options, reading stdin and flushing stdout (src/alsa_control.rs:150-173).
  - The hints and the typed line are parameters instead.
- Terminal colours are not modelled. Names are plain strings.
  - With colour output on, the source's secondary name and the italic "Unknown" technical name carry ANSI escape codes.
  - The primary name is compared after `clear()`, so the escape codes do not matter for the selection.
- `AlsaControl.GetInitialDeviceOptions`: numbering runs in place on a Dafny array standing for the `Vec`. The `Res` errors of the ALSA calls are left out with the calls.
- Strings are sequences of Unicode scalar values, not UTF-8 bytes. Trimming, splitting on `'\n'` and parsing ASCII digits give the same results on either.

## Notes on the code

The model follows the code in each case.
- **Auto-detach.** The code turns automatic kernel driver detaching on: `set_auto_detach_kernel_driver(true)` (src/usb_control.rs:110).
- **No cleanup after a failure.** Every `?` returns at once. A failed claim, write or release after a detach therefore leaves the kernel driver detached, as `UsbTransferProperties.DriverLeftDetachedOnLateFailure` states.
- **Control selector.** The comment at src/usb_control.rs:156 calls control selector 0x01 the volume control. In Table A-11 of the USB Device Class Definition for Audio Devices 1.0, 0x01 is MUTE_CONTROL and VOLUME_CONTROL is 0x02. The model keeps the value 0x01 that the code sends.
- **Result.** The code returns `Ok(())` both after a clean reattach and after a failed reattach followed by a successful reset. Otherwise it returns the error of the last call made, which is the reset's error when both the reattach and the reset fail (src/usb_control.rs:197). `UsbTransferProperties.ResultIsLastOutcome` states this.
