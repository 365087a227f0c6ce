/**
 * The hotkey manager: the help overlay and the admin travel menu, which are
 * never shown together, the key dispatch, the teleport, the colour table for
 * points of interest and the `#rrggbb` decoder.
 */
module HotkeyManager {
  import opened Wrappers
  import opened Text

  // ---------------------------------------------------------------- hex colours

  predicate IsHexDigit(c: char)
  {
    '0' <= c <= '9' || 'a' <= c <= 'f' || 'A' <= c <= 'F'
  }

  function HexDigitValue(c: char): (v: nat)
    requires IsHexDigit(c)
    ensures v < 16
  {
    if '0' <= c <= '9' then c as int - '0' as int
    else if 'a' <= c <= 'f' then c as int - 'a' as int + 10
    else c as int - 'A' as int + 10
  }

  function HexChar(v: nat): (c: char)
    requires v < 16
    ensures IsHexDigit(c) && HexDigitValue(c) == v
  {
    if v < 10 then ('0' as int + v) as char else ('a' as int + v - 10) as char
  }

  /** The longest prefix of hexadecimal digits, the part `parseInt(_, 16)` reads. */
  function HexPrefix(s: string): (r: string)
    ensures |r| <= |s| && r == s[..|r|]
    ensures forall k :: 0 <= k < |r| ==> IsHexDigit(r[k])
  {
    if s != [] && IsHexDigit(s[0]) then [s[0]] + HexPrefix(s[1..]) else ""
  }

  function HexValue(s: string): nat
    requires forall k :: 0 <= k < |s| ==> IsHexDigit(s[k])
  {
    if s == [] then 0 else HexValue(s[..|s| - 1]) * 16 + HexDigitValue(s[|s| - 1])
  }

  /** The digits `parseInt(s, 16)` reads: after white space, an optional sign and an optional `0x`, the leading hex digits. */
  function HexDigitsOf(s: string): (digits: string)
    ensures |digits| <= |s|
    ensures forall k :: 0 <= k < |digits| ==> IsHexDigit(digits[k])
  {
    var t := TrimStart(s);
    var u := if t != [] && (t[0] == '-' || t[0] == '+') then t[1..] else t;
    var v := if |u| >= 2 && u[0] == '0' && (u[1] == 'x' || u[1] == 'X') then u[2..] else u;
    HexPrefix(v)
  }

  /** `parseInt(s, 16)`: an optional sign and `0x`, then the leading hex digits; `None` stands for `NaN`. */
  function ParseIntHex(s: string): Option<int>
  {
    var t := TrimStart(s);
    var digits := HexDigitsOf(s);
    if digits == [] then None
    else if t != [] && t[0] == '-' then Some(-(HexValue(digits) as int))
    else Some(HexValue(digits))
  }

  /** A channel read from at most two hex digits: `NaN`, or a value of magnitude below 256. */
  predicate ShortChannel(c: Option<int>)
  {
    c.None? || -256 < c.value < 256
  }

  lemma HexValueTwoDigits(s: string)
    requires |s| <= 2 && forall k :: 0 <= k < |s| ==> IsHexDigit(s[k])
    ensures HexValue(s) < 256
  {
    if |s| == 2 {
      assert s[..1][..0] == [];
    }
  }

  /** `parseInt` of at most two characters reads at most two digits. */
  lemma ParseIntHexShort(s: string)
    requires |s| <= 2
    ensures ShortChannel(ParseIntHex(s))
  {
    HexValueTwoDigits(HexDigitsOf(s));
  }

  /** `parseInt("", 16)` is `NaN`. */
  lemma ParseIntHexEmpty()
    ensures ParseIntHex("") == None
  {
    assert TrimStart("") == "";
  }

  /** The three slices `hexToRgba` parses are short, and the blue one is empty, so `NaN`, below six digits. */
  lemma ChannelsShort(hex: string)
    ensures ShortChannel(ParseIntHex(JsSlice(hex, 1, 3)))
    ensures ShortChannel(ParseIntHex(JsSlice(hex, 3, 5)))
    ensures ShortChannel(ParseIntHex(JsSlice(hex, 5, 7)))
    ensures |hex| <= 5 ==> ParseIntHex(JsSlice(hex, 5, 7)) == None
  {
    ParseIntHexShort(JsSlice(hex, 1, 3));
    ParseIntHexShort(JsSlice(hex, 3, 5));
    ParseIntHexShort(JsSlice(hex, 5, 7));
    if |hex| <= 5 {
      ParseIntHexEmpty();
    }
  }

  /** `s.slice(a, b)` for non-negative bounds: both are clamped to the length. */
  function JsSlice(s: string, a: nat, b: nat): (r: string)
    ensures |r| <= |s|
    ensures a <= b ==> |r| <= b - a
    ensures |s| <= a ==> r == []
  {
    var lo := if a < |s| then a else |s|;
    var hi := if b < |s| then b else |s|;
    if lo <= hi then s[lo..hi] else ""
  }

  /** The channels `hexToRgba` writes into `rgba(r, g, b, alpha)`; `None` prints as `NaN`. */
  datatype Rgba = Rgba(r: Option<int>, g: Option<int>, b: Option<int>, alpha: real)

  /** `hexToRgba(hex, alpha)`: each channel is `parseInt` of two characters, so at most two hex digits. */
  function HexToRgba(hex: string, alpha: real): (rgba: Rgba)
    ensures rgba.alpha == alpha
    ensures ShortChannel(rgba.r) && ShortChannel(rgba.g) && ShortChannel(rgba.b)
    ensures |hex| <= 5 ==> rgba.b == None
  {
    ChannelsShort(hex);
    Rgba(ParseIntHex(JsSlice(hex, 1, 3)), ParseIntHex(JsSlice(hex, 3, 5)), ParseIntHex(JsSlice(hex, 5, 7)), alpha)
  }

  /** A `#rrggbb` colour. */
  predicate WellFormedHex(hex: string)
  {
    |hex| == 7 && hex[0] == '#' && forall k :: 1 <= k < 7 ==> IsHexDigit(hex[k])
  }

  /** The channel written by two hex digits. */
  function Pair(hi: char, lo: char): nat
    requires IsHexDigit(hi) && IsHexDigit(lo)
  {
    HexDigitValue(hi) * 16 + HexDigitValue(lo)
  }

  lemma ParsePair(hi: char, lo: char)
    requires IsHexDigit(hi) && IsHexDigit(lo)
    ensures ParseIntHex([hi, lo]) == Some(Pair(hi, lo))
  {
    var s := [hi, lo];
    assert !IsSpace(hi) && hi != '-' && hi != '+' && lo != 'x' && lo != 'X';
    assert TrimStart(s) == s;
    assert s[1..] == [lo] && s[1..][1..] == [];
    assert HexPrefix([lo]) == [lo];
    assert HexPrefix(s) == s;
    assert s[..1] == [hi] && [hi][..0] == [];
    assert HexValue([hi]) == HexDigitValue(hi);
  }

  /** A well-formed colour decodes to the byte value of each digit pair. */
  lemma HexToRgbaDecodes(hex: string, alpha: real)
    requires WellFormedHex(hex)
    ensures HexToRgba(hex, alpha) ==
      Rgba(Some(Pair(hex[1], hex[2])), Some(Pair(hex[3], hex[4])), Some(Pair(hex[5], hex[6])), alpha)
  {
    assert JsSlice(hex, 1, 3) == [hex[1], hex[2]];
    assert JsSlice(hex, 3, 5) == [hex[3], hex[4]];
    assert JsSlice(hex, 5, 7) == [hex[5], hex[6]];
    ParsePair(hex[1], hex[2]);
    ParsePair(hex[3], hex[4]);
    ParsePair(hex[5], hex[6]);
  }

  /** `#rrggbb` for three bytes, in lower-case digits. */
  function HexColor(r: nat, g: nat, b: nat): (hex: string)
    requires r < 256 && g < 256 && b < 256
    ensures WellFormedHex(hex)
  {
    ['#', HexChar(r / 16), HexChar(r % 16), HexChar(g / 16), HexChar(g % 16), HexChar(b / 16), HexChar(b % 16)]
  }

  /** Decoding a written colour gives the bytes back. */
  lemma HexRoundTrip(r: nat, g: nat, b: nat, alpha: real)
    requires r < 256 && g < 256 && b < 256
    ensures HexToRgba(HexColor(r, g, b), alpha) == Rgba(Some(r), Some(g), Some(b), alpha)
  {
    var hex := HexColor(r, g, b);
    HexToRgbaDecodes(hex, alpha);
    assert hex[1] == HexChar(r / 16) && hex[2] == HexChar(r % 16);
    assert hex[3] == HexChar(g / 16) && hex[4] == HexChar(g % 16);
    assert hex[5] == HexChar(b / 16) && hex[6] == HexChar(b % 16);
    PairOfByte(r);
    PairOfByte(g);
    PairOfByte(b);
  }

  lemma PairOfByte(v: nat)
    requires v < 256
    ensures Pair(HexChar(v / 16), HexChar(v % 16)) == v
  {
    assert HexDigitValue(HexChar(v / 16)) == v / 16;
    assert HexDigitValue(HexChar(v % 16)) == v % 16;
  }

  /** A slice with no hex digit reads as `NaN`: `#fff` has no blue channel. */
  lemma ShortColorHasNoBlue(alpha: real)
    ensures HexToRgba("#fff", alpha).b == None
  {
    assert JsSlice("#fff", 5, 7) == "";
  }

  // ---------------------------------------------------------------- POI colours

  const POI_COLORS: map<string, string> := map[
    "ruins" := "#8b4513", "landmark" := "#00ffff", "dungeon" := "#ff0000", "imperial" := "#00ff00",
    "rebel" := "#ff6600", "village" := "#ffff00", "camp" := "#ff9900", "spawn" := "#ff00ff",
    "default" := "#ffffff"]

  /** `getPOIColor(type)`: the type's colour, white for a type the table lacks. */
  function GetPoiColor(kind: string): (color: string)
    ensures kind !in POI_COLORS ==> color == "#ffffff"
    ensures color in POI_COLORS.Values
  {
    assert POI_COLORS["default"] == "#ffffff";
    if kind in POI_COLORS && POI_COLORS[kind] != "" then POI_COLORS[kind] else POI_COLORS["default"]
  }

  /** Every colour the table gives is a well-formed `#rrggbb`, so the travel menu's tints decode fully. */
  lemma PoiColorsDecode(kind: string, alpha: real)
    ensures WellFormedHex(GetPoiColor(kind))
    ensures var c := HexToRgba(GetPoiColor(kind), alpha); c.r.Some? && c.g.Some? && c.b.Some?
  {
    var color := GetPoiColor(kind);
    assert color in POI_COLORS.Values;
    var k :| k in POI_COLORS && POI_COLORS[k] == color;
    assert WellFormedHex(color);
    HexToRgbaDecodes(color, alpha);
  }

  // ---------------------------------------------------------------- keys

  datatype Command = ToggleHelpCmd | ToggleTravelCmd | CloseAllCmd | Nothing

  /** The keydown handler's dispatch on the lower-cased key. */
  function KeyCommand(tagName: string, key: string, adminMode: bool): (c: Command)
    ensures tagName == "INPUT" || tagName == "TEXTAREA" ==> c == Nothing
    ensures c == ToggleTravelCmd ==> adminMode
  {
    if tagName == "INPUT" || tagName == "TEXTAREA" then Nothing
    else if Lower(key) == "h" then ToggleHelpCmd
    else if Lower(key) == "t" then (if adminMode then ToggleTravelCmd else Nothing)
    else if Lower(key) == "escape" then CloseAllCmd
    else Nothing
  }

  lemma EscapeClosesMenus(key: string, adminMode: bool)
    requires Lower(key) == "escape"
    ensures KeyCommand("", key, adminMode) == CloseAllCmd
  {
    assert Lower(key) != "h" && Lower(key) != "t" by { assert |Lower(key)| == 6; }
  }

  // ---------------------------------------------------------------- menus

  datatype Vec3 = Vec3(x: real, y: real, z: real)

  /** `helpVisible`, `travelMenuVisible`, `adminMode` and the camera position teleports move. */
  class Manager {
    const adminMode: bool
    var helpVisible: bool
    var travelMenuVisible: bool
    var camera: Vec3

    /** Help and the travel menu are never both shown. */
    predicate Valid()
      reads this
    {
      !(helpVisible && travelMenuVisible)
    }

    constructor (adminMode: bool, camera: Vec3)
      ensures Valid() && !helpVisible && !travelMenuVisible
      ensures this.adminMode == adminMode && this.camera == camera
    {
      this.adminMode := adminMode;
      this.camera := camera;
      helpVisible := false;
      travelMenuVisible := false;
    }

    /** `toggleHelp()`: flips help; opening it hides the travel menu. */
    method ToggleHelp()
      requires Valid()
      modifies this
      ensures Valid() && camera == old(camera)
      ensures helpVisible == !old(helpVisible)
      ensures travelMenuVisible == (old(travelMenuVisible) && !helpVisible)
    {
      helpVisible := !helpVisible;
      if helpVisible {
        travelMenuVisible := false;
      }
    }

    /** `toggleTravelMenu()`: nothing without admin mode; otherwise flips the menu, and opening it hides help. */
    method ToggleTravelMenu()
      requires Valid()
      modifies this
      ensures Valid() && camera == old(camera)
      ensures !adminMode ==> helpVisible == old(helpVisible) && travelMenuVisible == old(travelMenuVisible)
      ensures adminMode ==> travelMenuVisible == !old(travelMenuVisible) && helpVisible == (old(helpVisible) && !travelMenuVisible)
    {
      if !adminMode {
        return;
      }
      travelMenuVisible := !travelMenuVisible;
      if travelMenuVisible {
        helpVisible := false;
      }
    }

    method CloseAllMenus()
      modifies this
      ensures Valid() && !helpVisible && !travelMenuVisible && camera == old(camera)
    {
      helpVisible := false;
      travelMenuVisible := false;
    }

    /** `travelTo(x, y, z)`: the camera 50 units above the target, both menus closed. */
    method TravelTo(x: real, y: real, z: real)
      modifies this
      ensures Valid() && !helpVisible && !travelMenuVisible
      ensures camera == Vec3(x, y + 50.0, z)
    {
      camera := Vec3(x, y + 50.0, z);
      CloseAllMenus();
    }

    /** The keydown handler. */
    method HandleKey(tagName: string, key: string) returns (c: Command)
      requires Valid()
      modifies this
      ensures Valid() && camera == old(camera) && c == KeyCommand(tagName, key, adminMode)
      ensures c == Nothing ==> helpVisible == old(helpVisible) && travelMenuVisible == old(travelMenuVisible)
      ensures c == CloseAllCmd ==> !helpVisible && !travelMenuVisible
      ensures c == ToggleHelpCmd ==> helpVisible == !old(helpVisible)
      ensures c == ToggleHelpCmd ==> travelMenuVisible == (old(travelMenuVisible) && !helpVisible)
      ensures c == ToggleTravelCmd ==> adminMode && travelMenuVisible == !old(travelMenuVisible)
      ensures c == ToggleTravelCmd ==> helpVisible == (old(helpVisible) && !travelMenuVisible)
    {
      c := KeyCommand(tagName, key, adminMode);
      match c
      case ToggleHelpCmd => ToggleHelp();
      case ToggleTravelCmd => ToggleTravelMenu();
      case CloseAllCmd => CloseAllMenus();
      case Nothing =>
    }
  }
}
