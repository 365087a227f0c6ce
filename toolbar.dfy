/**
 * The action toolbar: six swappable bars of 24 slots, the key labels drawn
 * on the slots, and the keyboard handler that maps a key press to a slot or
 * to a bar switch.
 */
module Toolbar {
  import opened Wrappers
  import opened Text

  const BAR_COUNT := 6
  const SLOT_COUNT := 24

  /** JavaScript's `a % b` for a positive `b`: the remainder takes the sign of `a`. */
  function JsRem(a: int, b: int): (r: int)
    requires b > 0
    ensures a >= 0 ==> 0 <= r < b && r == a % b
    ensures a < 0 ==> -b < r <= 0
  {
    if a >= 0 then a % b else -((-a) % b)
  }

  // ---------------------------------------------------------------- labels

  /** `getKeybindLabel` returns a number for the top row's digits and a string otherwise. */
  datatype Label = Number(n: int) | Str(s: string)

  function GetKeybindLabel(index: int): (r: Label)
    ensures r.Number? <==> index < 10
    ensures index >= SLOT_COUNT ==> r == Str("")
  {
    if index < 10 then Number(JsRem(index + 1, 10))
    else if index == 10 then Str("-")
    else if index == 11 then Str("=")
    else if index < 22 then Str("S" + IntToString(JsRem(index - 12 + 1, 10)))
    else if index == 22 then Str("S-")
    else if index == 23 then Str("S=")
    else Str("")
  }

  /** The label as shown on the slot. */
  function LabelText(l: Label): string
  {
    match l
    case Number(n) => IntToString(n)
    case Str(s) => s
  }

  /** A negative index still takes the number branch, with a remainder that keeps the sign. */
  lemma NegativeIndexLabel()
    ensures GetKeybindLabel(-5) == Number(-4)
  {
  }

  // ---------------------------------------------------------------- keys

  /** A key event's `key` value. Keys are compared as single characters. */
  predicate DigitKey(key: string, lo: char, hi: char)
  {
    |key| == 1 && lo <= key[0] <= hi
  }

  function KeyDigit(key: string): int
    requires |key| == 1
  {
    key[0] as int - '0' as int
  }

  /** What a key press does: use a slot, switch bars, or nothing. */
  datatype Action = UseSlot(slot: int) | SwitchBar(bar: int) | Ignore

  /** The keydown handler's dispatch, without the slot-use feedback it then draws. */
  function KeyAction(tagName: string, key: string, shift: bool, ctrl: bool): (a: Action)
    ensures a.UseSlot? ==> 0 <= a.slot < SLOT_COUNT && !ctrl
    ensures a.SwitchBar? ==> 0 <= a.bar < BAR_COUNT && ctrl
    ensures tagName == "INPUT" || tagName == "TEXTAREA" ==> a == Ignore
  {
    if tagName == "INPUT" || tagName == "TEXTAREA" then Ignore
    else if DigitKey(key, '1', '9') && !shift && !ctrl then UseSlot(KeyDigit(key) - 1)
    else if key == "0" && !shift && !ctrl then UseSlot(9)
    else if key == "-" && !shift && !ctrl then UseSlot(10)
    else if key == "=" && !shift && !ctrl then UseSlot(11)
    else if DigitKey(key, '1', '9') && shift && !ctrl then UseSlot(12 + KeyDigit(key) - 1)
    else if key == "0" && shift && !ctrl then UseSlot(21)
    else if key == "-" && shift && !ctrl then UseSlot(22)
    else if key == "=" && shift && !ctrl then UseSlot(23)
    else if DigitKey(key, '1', '6') && ctrl then SwitchBar(KeyDigit(key) - 1)
    else Ignore
  }

  /** The key, and whether Shift is held, that selects slot `i`. */
  function KeyOf(i: int): (string, bool)
    requires 0 <= i < SLOT_COUNT
  {
    var row := i % 12;
    var key := if row < 9 then [('1' as int + row) as char] else if row == 9 then "0" else if row == 10 then "-" else "=";
    (key, i >= 12)
  }

  /** Every slot has its key: the map from unmodified and shifted keys onto the slots is onto. */
  lemma KeyOfSelects(i: int)
    requires 0 <= i < SLOT_COUNT
    ensures KeyAction("", KeyOf(i).0, KeyOf(i).1, false) == UseSlot(i)
  {
  }

  /** And one-to-one: the only press that selects slot `i` is its own key. */
  lemma SlotKeyUnique(tagName: string, key: string, shift: bool, ctrl: bool)
    requires KeyAction(tagName, key, shift, ctrl).UseSlot?
    ensures var i := KeyAction(tagName, key, shift, ctrl).slot;
      !ctrl && (key, shift) == KeyOf(i)
  {
    var i := KeyAction(tagName, key, shift, ctrl).slot;
    if DigitKey(key, '1', '9') {
      assert key == [key[0]];
    }
  }

  /** Ctrl with 1 to 6 switches to bar key - 1 and never selects a slot. */
  lemma CtrlSwitchesBar(key: string, shift: bool)
    requires DigitKey(key, '1', '6')
    ensures KeyAction("", key, shift, true) == SwitchBar(KeyDigit(key) - 1)
  {
  }

  /** The label of a slot names its key, with `S` for Shift. */
  lemma LabelNamesKey(i: int)
    requires 0 <= i < SLOT_COUNT
    ensures LabelText(GetKeybindLabel(i)) == (if KeyOf(i).1 then "S" else "") + KeyOf(i).0
  {
    var row := i % 12;
    if row < 9 {
      assert JsRem(row + 1, 10) == row + 1;
      assert NatToString(row + 1) == [DigitChar(row + 1)];
    } else if row == 9 {
      assert JsRem(row + 1, 10) == 0;
      assert NatToString(0) == "0";
    }
  }

  // ---------------------------------------------------------------- the bars

  /** `this.toolbars` and `this.currentToolbar`; the items are whatever the game puts in a slot. */
  class ToolbarState<T(==)> {
    var toolbars: array2<Option<T>>
    var currentToolbar: int

    predicate Valid()
      reads this
    {
      toolbars.Length0 == BAR_COUNT && toolbars.Length1 == SLOT_COUNT && 0 <= currentToolbar < BAR_COUNT
    }

    /** Six bars of 24 empty slots, bar 0 current. */
    constructor ()
      ensures Valid() && fresh(toolbars) && currentToolbar == 0
      ensures forall b, s :: 0 <= b < BAR_COUNT && 0 <= s < SLOT_COUNT ==> toolbars[b, s] == None
    {
      toolbars := new Option<T>[BAR_COUNT, SLOT_COUNT]((_, _) => None);
      currentToolbar := 0;
    }

    /** `switchToolbar(i)`: only an index in 0..5 changes the current bar. */
    method SwitchToolbar(toolbarIndex: int)
      requires Valid()
      modifies this
      ensures Valid() && toolbars == old(toolbars)
      ensures currentToolbar == if 0 <= toolbarIndex < BAR_COUNT then toolbarIndex else old(currentToolbar)
    {
      if toolbarIndex < 0 || toolbarIndex >= BAR_COUNT {
        return;
      }
      currentToolbar := toolbarIndex;
    }

    /** `getSlotItem(t, s)`: the stored item, and null for an empty or out-of-range slot. */
    function GetSlotItem(toolbarIndex: int, slotIndex: int): (r: Option<T>)
      requires Valid()
      reads this, toolbars
      ensures !(0 <= toolbarIndex < BAR_COUNT && 0 <= slotIndex < SLOT_COUNT) ==> r == None
    {
      if 0 <= toolbarIndex < BAR_COUNT && 0 <= slotIndex < SLOT_COUNT then toolbars[toolbarIndex, slotIndex] else None
    }

    /** `setSlotItem(t, s, item)`: writes one slot when both indices are in range, and nothing else. */
    method SetSlotItem(toolbarIndex: int, slotIndex: int, item: Option<T>)
      requires Valid()
      modifies toolbars
      ensures forall b, s :: 0 <= b < BAR_COUNT && 0 <= s < SLOT_COUNT ==>
        toolbars[b, s] == if b == toolbarIndex && s == slotIndex then item else old(toolbars[b, s])
      ensures 0 <= toolbarIndex < BAR_COUNT && 0 <= slotIndex < SLOT_COUNT ==> GetSlotItem(toolbarIndex, slotIndex) == item
    {
      if toolbarIndex >= 0 && toolbarIndex < BAR_COUNT && slotIndex >= 0 && slotIndex < SLOT_COUNT {
        toolbars[toolbarIndex, slotIndex] := item;
      }
    }

    /** The keydown handler: a Ctrl+digit switches bars; a slot key uses the slot, which changes no state. */
    method HandleKey(tagName: string, key: string, shift: bool, ctrl: bool) returns (a: Action)
      requires Valid()
      modifies this
      ensures a == KeyAction(tagName, key, shift, ctrl)
      ensures Valid() && toolbars == old(toolbars)
      ensures currentToolbar == if a.SwitchBar? then a.bar else old(currentToolbar)
    {
      a := KeyAction(tagName, key, shift, ctrl);
      if a.SwitchBar? {
        SwitchToolbar(a.bar);
      }
    }
  }
}
