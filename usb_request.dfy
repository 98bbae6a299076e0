/**
 * The one control request the program sends: a class-specific SET_CUR on a
 * Feature Unit control of a USB audio device (the headset's sidetone level).
 *
 * Field layout: bmRequestType as in section 9.3.1 of the USB 2.0
 * specification; wValue and wIndex as in section 5.2.2.4 (Feature Unit
 * Control Requests) of the USB Device Class Definition for Audio Devices 1.0.
 */
module UsbRequest {
  import opened Primitives

  // ---------------------------------------------------------------------
  // bmRequestType (USB 2.0, section 9.3.1)
  // ---------------------------------------------------------------------

  /** D7: data transfer direction. */
  datatype Direction = Out | In

  /** D6..5: request type. */
  datatype RequestKind = Standard | Class | Vendor | Reserved

  /** D4..0: recipient (values 4..31 are reserved). */
  datatype Recipient = Device | Interface | Endpoint | Other

  function DirectionBits(d: Direction): bv8
  {
    match d
    case Out => 0x00
    case In => 0x80
  }

  function KindBits(k: RequestKind): bv8
  {
    match k
    case Standard => 0x00
    case Class => 0x20
    case Vendor => 0x40
    case Reserved => 0x60
  }

  function RecipientBits(r: Recipient): bv8
  {
    match r
    case Device => 0
    case Interface => 1
    case Endpoint => 2
    case Other => 3
  }

  /** Reads D7 of a bmRequestType byte. */
  function DirectionOf(b: bv8): Direction
  {
    if b & 0x80 == 0 then Out else In
  }

  /** Reads D6..5 of a bmRequestType byte. */
  function KindOf(b: bv8): RequestKind
  {
    var t := b & 0x60;
    if t == 0x00 then Standard
    else if t == 0x20 then Class
    else if t == 0x40 then Vendor
    else Reserved
  }

  /** Reads D4..0 of a bmRequestType byte; None for a reserved recipient. */
  function RecipientOf(b: bv8): Option<Recipient>
  {
    var r := b & 0x1F;
    if r == 0 then Some(Device)
    else if r == 1 then Some(Interface)
    else if r == 2 then Some(Endpoint)
    else if r == 3 then Some(Other)
    else None
  }

  /**
   * bmRequestType assembled from its three fields, as the USB library's
   * `request_type(direction, kind, recipient)` does. Each field can be read
   * back from the byte.
   */
  function RequestType(d: Direction, k: RequestKind, r: Recipient): (b: bv8)
    ensures DirectionOf(b) == d
    ensures KindOf(b) == k
    ensures RecipientOf(b) == Some(r)
  {
    DirectionBits(d) | KindBits(k) | RecipientBits(r)
  }

  /** Two bmRequestType bytes built from fields are equal exactly when the fields are. */
  lemma RequestTypeInjective(d1: Direction, k1: RequestKind, r1: Recipient,
                             d2: Direction, k2: RequestKind, r2: Recipient)
    ensures RequestType(d1, k1, r1) == RequestType(d2, k2, r2) <==> d1 == d2 && k1 == k2 && r1 == r2
  {
    if RequestType(d1, k1, r1) == RequestType(d2, k2, r2) {
      assert DirectionOf(RequestType(d1, k1, r1)) == DirectionOf(RequestType(d2, k2, r2));
      assert KindOf(RequestType(d1, k1, r1)) == KindOf(RequestType(d2, k2, r2));
      assert RecipientOf(RequestType(d1, k1, r1)) == RecipientOf(RequestType(d2, k2, r2));
    }
  }

  // ---------------------------------------------------------------------
  // wValue / wIndex packing (Audio 1.0, section 5.2.2.4)
  // ---------------------------------------------------------------------

  /** The high byte of a 16-bit field. */
  function High(w: bv16): bv8
  {
    (w >> 8) as bv8
  }

  /** The low byte of a 16-bit field. */
  function Low(w: bv16): bv8
  {
    (w & 0xFF) as bv8
  }

  /** `(high << 8) | low` on 16-bit values: both bytes can be read back. */
  function Pack(high: bv8, low: bv8): (w: bv16)
    ensures High(w) == high && Low(w) == low
  {
    (high as bv16 << 8) | low as bv16
  }

  /** Every 16-bit field is the packing of its own two bytes. */
  lemma PackOfBytes(w: bv16)
    ensures Pack(High(w), Low(w)) == w
  {
  }

  // ---------------------------------------------------------------------
  // The request
  // ---------------------------------------------------------------------

  /** The parameters of one `write_control` call. */
  datatype ControlRequest = ControlRequest(
    requestType: bv8,
    request: bv8,
    value: bv16,
    index: bv16,
    data: seq<bv8>,
    timeoutMs: nat)

  /** bmRequestType written as a literal in the source: host-to-device, class, interface. */
  const CLASS_INTERFACE_OUT: bv8 := 0x21

  /** Audio class request code SET_CUR. */
  const SET_CUR: bv8 := 0x01

  /** Control selector of the sidetone control (the source calls it volume). */
  const SIDETONE_CONTROL_SELECTOR: bv8 := 0x01

  /** Channel number 0: the master channel. */
  const MASTER_CHANNEL: bv8 := 0x00

  /** Unit ID of the sidetone Feature Unit. */
  const SIDETONE_FEATURE_UNIT: bv8 := 0x06

  /** Interface byte of wIndex. */
  const SIDETONE_INTERFACE: bv8 := 0x00

  /** The fixed two-byte sidetone level the program writes. */
  const SIDETONE_LEVEL: seq<bv8> := [0x00, 0xF4]

  /** Timeout of the control write, in milliseconds. */
  const TRANSFER_TIMEOUT_MS: nat := 1000

  /**
   * A SET_CUR Feature Unit control request: selector/channel in the high/low
   * bytes of wValue, unit/interface in the high/low bytes of wIndex, sent
   * host-to-device to an interface as a class request.
   */
  function FeatureUnitSetCur(selector: bv8, channel: bv8, unit: bv8, iface: bv8, data: seq<bv8>): (req: ControlRequest)
    ensures High(req.value) == selector && Low(req.value) == channel
    ensures High(req.index) == unit && Low(req.index) == iface
    ensures DirectionOf(req.requestType) == Out
    ensures KindOf(req.requestType) == Class
    ensures RecipientOf(req.requestType) == Some(Interface)
    ensures req.request == SET_CUR && req.data == data && req.timeoutMs == TRANSFER_TIMEOUT_MS
  {
    ControlRequest(CLASS_INTERFACE_OUT, SET_CUR,
                   Pack(selector, channel), Pack(unit, iface),
                   data, TRANSFER_TIMEOUT_MS)
  }

  /** The request `control_transfer` writes. */
  function SidetoneRequest(): ControlRequest
  {
    FeatureUnitSetCur(SIDETONE_CONTROL_SELECTOR, MASTER_CHANNEL,
                      SIDETONE_FEATURE_UNIT, SIDETONE_INTERFACE, SIDETONE_LEVEL)
  }

  /** The literal bmRequestType is the one the library builds from (Out, Class, Interface). */
  lemma LiteralRequestTypeIsClassInterfaceOut()
    ensures RequestType(Out, Class, Interface) == CLASS_INTERFACE_OUT
  {
  }

  /** The wire fields of the sidetone request. */
  lemma SidetoneRequestFields()
    ensures SidetoneRequest() == ControlRequest(0x21, 1, 0x0100, 0x0600, [0x00, 0xF4], 1000)
  {
  }

  /** Every field but the payload is fixed, whatever payload is sent. */
  lemma FixedFieldsIndependentOfPayload(data1: seq<bv8>, data2: seq<bv8>)
    ensures var r1 := FeatureUnitSetCur(SIDETONE_CONTROL_SELECTOR, MASTER_CHANNEL, SIDETONE_FEATURE_UNIT, SIDETONE_INTERFACE, data1);
            var r2 := FeatureUnitSetCur(SIDETONE_CONTROL_SELECTOR, MASTER_CHANNEL, SIDETONE_FEATURE_UNIT, SIDETONE_INTERFACE, data2);
            r1.(data := data2) == r2 && r1.value == 0x0100 && r1.index == 0x0600
  {
  }
}
