/**
 * The ALSA side of the program: the list of control devices offered to the
 * user (one option per device name hint, numbered from 1), and the choice of
 * one option from a line the user typed, by number or by name.
 */
module AlsaControl {
  import opened Primitives
  import opened RustStr

  /** The stream direction an ALSA device hint may carry. */
  datatype PcmDirection = Playback | Capture

  /** An ALSA device name hint: its name, its description and its direction. */
  datatype Hint = Hint(name: Option<string>, desc: Option<string>, direction: Option<PcmDirection>)

  /** One selectable device, as listed to the user. */
  datatype DeviceOption = DeviceOption(
    primaryName: string,
    secondaryName: Option<string>,
    techInfo: string,
    enumerationOption: u16,
    direction: Option<PcmDirection>,
    hint: Hint)

  /** The separator shown between the lines of a description. */
  const LINE_SEPARATOR: string := " | "

  /** What is shown for a missing description or a missing name. */
  const UNKNOWN: string := "Unknown"

  // ---------------------------------------------------------------------
  // Options from hints
  // ---------------------------------------------------------------------

  /**
   * The primary and secondary names shown for a description: the first
   * line, and the separator followed by the other lines joined with the
   * separator. Without a description: "Unknown" and no secondary name.
   */
  function NameParts(desc: Option<string>): (string, Option<string>)
  {
    match desc
    case None => (UNKNOWN, None)
    case Some(text) =>
      var lines := Split(text, '\n');
      (lines[0], Some(LINE_SEPARATOR + Join(lines[1..], LINE_SEPARATOR)))
  }

  /** The name the device is opened by: the hint's name, or "Unknown". */
  function TechName(name: Option<string>): string
  {
    match name
    case Some(n) => n
    case None => UNKNOWN
  }

  /** The option built for one hint, before it is numbered. */
  function OptionFromHint(h: Hint): (o: DeviceOption)
    ensures o.enumerationOption == 0 && o.direction == h.direction && o.hint == h
    ensures h.desc.None? ==> o.primaryName == UNKNOWN && o.secondaryName == None
    ensures h.desc.Some? ==> o.secondaryName.Some? && LINE_SEPARATOR <= o.secondaryName.value
    ensures h.name.None? ==> o.techInfo == UNKNOWN
    ensures h.name.Some? ==> o.techInfo == h.name.value
  {
    var parts := NameParts(h.desc);
    DeviceOption(parts.0, parts.1, TechName(h.name), 0, h.direction, h)
  }

  /**
   * The primary name is the text before the first line break. A description
   * of one line has the bare separator as secondary name; otherwise the
   * secondary name is the separator followed by the rest of the description
   * with each line break replaced by the separator.
   */
  lemma DescriptionSplit(desc: string)
    ensures var (primary, secondary) := NameParts(Some(desc));
            && primary == desc[..|primary|] && '\n' !in primary
            && (|primary| == |desc| ==> secondary == Some(LINE_SEPARATOR))
            && (|primary| < |desc| ==>
                  desc[|primary|] == '\n' &&
                  secondary == Some(LINE_SEPARATOR + Replace(desc[|primary| + 1..], '\n', LINE_SEPARATOR)))
  {
    var lines := Split(desc, '\n');
    SplitFirst(desc, '\n');
    if |lines[0]| == |desc| {
      assert lines[1..] == [];
      assert LINE_SEPARATOR + [] == LINE_SEPARATOR;
    } else {
      JoinOfSplit(desc[|lines[0]| + 1..], '\n', LINE_SEPARATOR);
    }
  }

  /** The primary name and the lines after it give back the description. */
  lemma DescriptionRecoverable(desc: string)
    ensures var primary := NameParts(Some(desc)).0;
            var lines := Split(desc, '\n');
            Join([primary] + lines[1..], "\n") == desc
  {
    var lines := Split(desc, '\n');
    assert [lines[0]] + lines[1..] == lines;
    SplitThenJoin(desc, '\n');
  }

  // ---------------------------------------------------------------------
  // Numbering
  // ---------------------------------------------------------------------

  /** The number shown for the option at position i: `(i + 1) as u16`, which wraps at 65536. */
  function OptionNumber(i: nat): u16
  {
    (i + 1) % 0x1_0000
  }

  /** The options with each one's number set from its position and nothing else changed. */
  function Numbered(options: seq<DeviceOption>): (r: seq<DeviceOption>)
    ensures |r| == |options|
  {
    seq(|options|, i requires 0 <= i < |options| => options[i].(enumerationOption := OptionNumber(i)))
  }

  /** Numbers the options in place, in list order. */
  method NumberOptions(a: array<DeviceOption>)
    modifies a
    ensures a[..] == Numbered(old(a[..]))
  {
    for i := 0 to a.Length
      invariant forall k | 0 <= k < i :: a[k] == old(a[k]).(enumerationOption := OptionNumber(k))
      invariant forall k | i <= k < a.Length :: a[k] == old(a[k])
    {
      a[i] := a[i].(enumerationOption := ((i + 1) % 0x1_0000) as u16);
    }
  }

  /** The options for the hints, in enumeration order, numbered. */
  function InitialOptions(hints: seq<Hint>): seq<DeviceOption>
  {
    Numbered(seq(|hints|, i requires 0 <= i < |hints| => OptionFromHint(hints[i])))
  }

  /** Builds one option per hint, then numbers them. */
  method GetInitialDeviceOptions(hints: seq<Hint>) returns (options: seq<DeviceOption>)
    ensures options == InitialOptions(hints)
    ensures |options| == |hints|
    ensures forall i | 0 <= i < |hints| ::
              options[i] == OptionFromHint(hints[i]).(enumerationOption := OptionNumber(i))
  {
    var list := new DeviceOption[|hints|](i requires 0 <= i < |hints| => OptionFromHint(hints[i]));
    NumberOptions(list);
    options := list[..];
  }

  /** Below 65536 options, the option at position i is numbered i + 1. */
  lemma NumberIsPosition(options: seq<DeviceOption>, i: nat)
    requires i < |options| && i < 0xFFFF
    ensures Numbered(options)[i].enumerationOption == i + 1
  {
  }

  /**
   * Numbering changes nothing but the number: length, order and every other
   * field stay as they were.
   */
  lemma NumberingChangesOnlyNumber(options: seq<DeviceOption>)
    ensures |Numbered(options)| == |options|
    ensures forall i | 0 <= i < |options| ::
              Numbered(options)[i].(enumerationOption := options[i].enumerationOption) == options[i]
  {
  }

  /** With at most 65535 options, the numbers increase along the list and so are distinct. */
  lemma NumbersIncrease(options: seq<DeviceOption>)
    requires |options| <= 0xFFFF
    ensures forall i, j | 0 <= i < j < |options| ::
              Numbered(options)[i].enumerationOption < Numbered(options)[j].enumerationOption
  {
  }

  /** The 65536th option is numbered 0 and the 65537th shares its number with the first. */
  lemma NumbersWrap(options: seq<DeviceOption>)
    requires |options| > 0x1_0000
    ensures Numbered(options)[0xFFFF].enumerationOption == 0
    ensures Numbered(options)[0x1_0000].enumerationOption == Numbered(options)[0].enumerationOption
  {
  }

  // ---------------------------------------------------------------------
  // Selection
  // ---------------------------------------------------------------------

  /**
   * Whether an option is the one asked for: its number equals the number
   * typed, if the input is a number, or its trimmed primary name equals the
   * trimmed input.
   */
  predicate Matches(o: DeviceOption, nameInput: string, numInput: Option<u16>)
  {
    var compareName := Trim(o.primaryName);
    match numInput
    case Some(num) => num == o.enumerationOption || compareName == nameInput
    case None => compareName == nameInput
  }

  /** The position of the first matching option at or after position i, if any. */
  function FindFrom(options: seq<DeviceOption>, nameInput: string, numInput: Option<u16>, i: nat): (k: Option<nat>)
    requires i <= |options|
    ensures k.Some? ==> i <= k.value < |options| && Matches(options[k.value], nameInput, numInput)
    ensures k.Some? ==> forall j | i <= j < k.value :: !Matches(options[j], nameInput, numInput)
    ensures k.None? ==> forall j | i <= j < |options| :: !Matches(options[j], nameInput, numInput)
    decreases |options| - i
  {
    if i == |options| then None
    else if Matches(options[i], nameInput, numInput) then Some(i)
    else FindFrom(options, nameInput, numInput, i + 1)
  }

  /** `find`: the position of the first matching option, if any. */
  function FindFirst(options: seq<DeviceOption>, nameInput: string, numInput: Option<u16>): Option<nat>
  {
    FindFrom(options, nameInput, numInput, 0)
  }

  /**
   * The option chosen by the line the user typed: the input is trimmed, read
   * as a u16 if it is one, and the first matching option is taken.
   */
  function GetDeviceSelection(options: seq<DeviceOption>, input: string): (r: Option<DeviceOption>)
    ensures var name := Trim(input);
            var num := ParseU16(name);
            && (r.None? <==> forall j | 0 <= j < |options| :: !Matches(options[j], name, num))
            && (r.Some? ==> exists k | 0 <= k < |options| :: options[k] == r.value && Matches(options[k], name, num) &&
                              forall j | 0 <= j < k :: !Matches(options[j], name, num))
  {
    var deviceNameInput := Trim(input);
    var deviceNumInput := ParseU16(deviceNameInput);
    match FindFirst(options, deviceNameInput, deviceNumInput)
    case None => None
    case Some(k) => Some(options[k])
  }

  /** The first match is the one at position k when k matches and nothing before it does. */
  lemma FindFirstAt(options: seq<DeviceOption>, nameInput: string, numInput: Option<u16>, k: nat)
    requires k < |options| && Matches(options[k], nameInput, numInput)
    requires forall j | 0 <= j < k :: !Matches(options[j], nameInput, numInput)
    ensures FindFirst(options, nameInput, numInput) == Some(k)
  {
  }

  /** Whitespace around the typed line, such as its line break, does not change the choice. */
  lemma SelectionIgnoresPadding(options: seq<DeviceOption>, ws1: string, input: string, ws2: string)
    requires AllWhitespace(ws1) && AllWhitespace(ws2)
    ensures GetDeviceSelection(options, ws1 + input + ws2) == GetDeviceSelection(options, input)
  {
    TrimIgnoresPadding(ws1, input, ws2);
  }

  /** Input that is not a number selects the first option whose trimmed primary name is the trimmed input. */
  lemma NameSelects(options: seq<DeviceOption>, input: string, k: nat)
    requires ParseU16(Trim(input)).None?
    requires k < |options| && Trim(options[k].primaryName) == Trim(input)
    requires forall j | 0 <= j < k :: Trim(options[j].primaryName) != Trim(input)
    ensures GetDeviceSelection(options, input) == Some(options[k])
  {
    FindFirstAt(options, Trim(input), ParseU16(Trim(input)), k);
  }

  /**
   * Typing the number shown for the option at position k (with any
   * whitespace around it) selects that option, unless an earlier option's
   * trimmed primary name is that same number text.
   */
  lemma ShownNumberSelects(options: seq<DeviceOption>, k: nat, ws1: string, ws2: string)
    requires k < |options| && k < 0xFFFF
    requires AllWhitespace(ws1) && AllWhitespace(ws2)
    requires forall j | 0 <= j < k :: Trim(options[j].primaryName) != DecimalString(k + 1)
    ensures var numbered := Numbered(options);
            GetDeviceSelection(numbered, ws1 + DecimalString(numbered[k].enumerationOption) + ws2) == Some(numbered[k])
  {
    var numbered := Numbered(options);
    var text := DecimalString(k + 1);
    forall j | 0 <= j < k
      ensures !Matches(numbered[j], text, Some(k + 1))
    {
      NumberIsPosition(options, j);
      assert numbered[j].primaryName == options[j].primaryName;
    }
    NumberIsPosition(options, k);
    SelectionIgnoresPadding(numbered, ws1, text, ws2);
    DecimalStringTrimmed(k + 1);
    ParseShownNumber(k + 1);
    FindFirstAt(numbered, text, Some(k + 1), k);
  }

  /** The listed options each select themselves by number when the list is shorter than 65536. */
  lemma EveryListedNumberSelects(hints: seq<Hint>, k: nat)
    requires k < |hints| < 0x1_0000
    requires forall j | 0 <= j < |hints| :: ParseU16(Trim(InitialOptions(hints)[j].primaryName)).None?
    ensures var options := InitialOptions(hints);
            GetDeviceSelection(options, DecimalString(options[k].enumerationOption)) == Some(options[k])
  {
    var unnumbered := seq(|hints|, i requires 0 <= i < |hints| => OptionFromHint(hints[i]));
    var options := InitialOptions(hints);
    forall j | 0 <= j < k
      ensures Trim(unnumbered[j].primaryName) != DecimalString(k + 1)
    {
      assert options[j].primaryName == unnumbered[j].primaryName;
      if Trim(unnumbered[j].primaryName) == DecimalString(k + 1) {
        ParseShownNumber(k + 1);
      }
    }
    ShownNumberSelects(unnumbered, k, [], []);
    assert [] + DecimalString(options[k].enumerationOption) + [] == DecimalString(options[k].enumerationOption);
  }
}
