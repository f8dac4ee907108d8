/**
 * Hotkey configuration (`HotkeyConfig`), its rendering as a glyph string,
 * and the key-capture view that turns a key press into a hotkey.
 */
module KeybindCapture {
  import opened Wrappers
  import opened MacroEvents

  /** Carbon's modifier bits, as stored in a hotkey's `modifiers`. */
  const CmdKey: bv32 := 0x100
  const ShiftKey: bv32 := 0x200
  const OptionKey: bv32 := 0x800
  const ControlKey: bv32 := 0x1000
  const AllModifierKeys: bv32 := CmdKey | ShiftKey | OptionKey | ControlKey

  /** Which of command, shift, option and control are meant. */
  datatype ModifierKeys = ModifierKeys(command: bool, shift: bool, option: bool, control: bool)

  /** A hotkey. The recorder's `(keyCode:, modifiers:)` tuples have the same shape. */
  datatype HotkeyConfig = HotkeyConfig(keyCode: UInt32, modifiers: bv32)

  /** The four modifiers a Carbon mask names; every other bit is ignored. */
  function ModifiersOf(m: bv32): ModifierKeys {
    ModifierKeys(m & CmdKey != 0, m & ShiftKey != 0, m & OptionKey != 0, m & ControlKey != 0)
  }

  const CmdGlyph: char := '⌘'
  const ShiftGlyph: char := '⇧'
  const OptionGlyph: char := '⌥'
  const ControlGlyph: char := '⌃'

  predicate IsGlyph(c: char) {
    c == CmdGlyph || c == ShiftGlyph || c == OptionGlyph || c == ControlGlyph
  }

  /** The dictionary `keyCodeToString` looks up: the names of the listed key codes. */
  function KeyName(keyCode: int): (r: Option<string>)
    // every name is non-empty, starts with no modifier glyph, and differs from the "?" fallback
    ensures r.Some? ==> r.value != [] && !IsGlyph(r.value[0]) && r.value != "?"
  {
    match keyCode
    case 0x00 => Some("A")
    case 0x01 => Some("S")
    case 0x02 => Some("D")
    case 0x03 => Some("F")
    case 0x04 => Some("H")
    case 0x05 => Some("G")
    case 0x06 => Some("Z")
    case 0x07 => Some("X")
    case 0x08 => Some("C")
    case 0x09 => Some("V")
    case 0x0B => Some("B")
    case 0x0C => Some("Q")
    case 0x0D => Some("W")
    case 0x0E => Some("E")
    case 0x0F => Some("R")
    case 0x10 => Some("Y")
    case 0x11 => Some("T")
    case 0x12 => Some("1")
    case 0x13 => Some("2")
    case 0x14 => Some("3")
    case 0x15 => Some("4")
    case 0x16 => Some("6")
    case 0x17 => Some("5")
    case 0x18 => Some("=")
    case 0x19 => Some("9")
    case 0x1A => Some("7")
    case 0x1B => Some("-")
    case 0x1C => Some("8")
    case 0x1D => Some("0")
    case 0x1E => Some("]")
    case 0x1F => Some("O")
    case 0x20 => Some("U")
    case 0x21 => Some("[")
    case 0x22 => Some("I")
    case 0x23 => Some("P")
    case 0x25 => Some("L")
    case 0x26 => Some("J")
    case 0x27 => Some("'")
    case 0x28 => Some("K")
    case 0x29 => Some(";")
    case 0x2A => Some("\\")
    case 0x2B => Some(",")
    case 0x2C => Some("/")
    case 0x2D => Some("N")
    case 0x2E => Some("M")
    case 0x2F => Some(".")
    case 0x32 => Some("`")
    case 0x24 => Some("↩")
    case 0x30 => Some("⇥")
    case 0x31 => Some("␣")
    case 0x33 => Some("⌫")
    case 0x35 => Some("⎋")
    case 0x7A => Some("F1")
    case 0x78 => Some("F2")
    case 0x63 => Some("F3")
    case 0x76 => Some("F4")
    case 0x60 => Some("F5")
    case 0x61 => Some("F6")
    case 0x62 => Some("F7")
    case 0x64 => Some("F8")
    case 0x65 => Some("F9")
    case 0x6D => Some("F10")
    case 0x67 => Some("F11")
    case 0x6F => Some("F12")
    case _ => None
  }

  /** `keyCodeToString`: the table's name, or "?" for a code it does not list. */
  function KeyCodeToString(keyCode: UInt16): (r: string)
    ensures KeyName(keyCode).Some? ==> r == KeyName(keyCode).value
    ensures r == "?" <==> KeyName(keyCode).None?
    // a key name is never empty and never starts with a modifier glyph
    ensures r != [] && !IsGlyph(r[0])
  {
    KeyName(keyCode).GetOr("?")
  }

  /** The glyph `g` when `present`, else nothing. */
  function GlyphIf(present: bool, g: char): string {
    if present then [g] else []
  }

  /** The part `displayString` appends for `g` when `present`, else none. */
  function PartIf(present: bool, g: char): seq<string> {
    if present then [[g]] else []
  }

  /** The glyphs `displayString` puts before the key name, in its fixed order. */
  function ModifierGlyphs(m: bv32): string {
    GlyphIf(m & CmdKey != 0, CmdGlyph) + GlyphIf(m & ShiftKey != 0, ShiftGlyph) +
    GlyphIf(m & OptionKey != 0, OptionGlyph) + GlyphIf(m & ControlKey != 0, ControlGlyph)
  }

  /** `parts.joined()`. */
  function Joined(parts: seq<string>): string {
    if parts == [] then "" else Joined(parts[..|parts| - 1]) + parts[|parts| - 1]
  }

  /** Appending a part appends its text. */
  lemma JoinedSnoc(parts: seq<string>, x: string)
    ensures Joined(parts + [x]) == Joined(parts) + x
  {
    assert (parts + [x])[..|parts|] == parts;
  }

  /** Joining distributes over concatenation. */
  lemma {:induction false} JoinedAppend(a: seq<string>, b: seq<string>)
    ensures Joined(a + b) == Joined(a) + Joined(b)
  {
    if b == [] {
      assert a + b == a;
    } else {
      var init := b[..|b| - 1];
      assert (a + b)[..|a + b| - 1] == a + init;
      JoinedAppend(a, init);
      assert Joined(a + b) == Joined(a + init) + b[|b| - 1];
    }
  }

  /** An optional glyph part joins to the optional glyph. */
  lemma JoinedOptional(present: bool, g: char)
    ensures Joined(PartIf(present, g)) == GlyphIf(present, g)
  {
    if present {
      assert [[g]][..0] == [];
    }
  }

  /** The glyph parts `displayString` collects before the key name. */
  function GlyphParts(m: bv32): seq<string> {
    PartIf(m & CmdKey != 0, CmdGlyph) + PartIf(m & ShiftKey != 0, ShiftGlyph) +
    PartIf(m & OptionKey != 0, OptionGlyph) + PartIf(m & ControlKey != 0, ControlGlyph)
  }

  /** Joining four parts joins each. */
  lemma JoinedFour(w: seq<string>, x: seq<string>, y: seq<string>, z: seq<string>)
    ensures Joined(w + x + y + z) == Joined(w) + Joined(x) + Joined(y) + Joined(z)
  {
    JoinedAppend(w + x + y, z);
    JoinedAppend(w + x, y);
    JoinedAppend(w, x);
  }

  /** The collected glyph parts join to the glyph prefix. */
  lemma JoinedGlyphParts(m: bv32)
    ensures Joined(GlyphParts(m)) == ModifierGlyphs(m)
  {
    var c, sh, o, ct := m & CmdKey != 0, m & ShiftKey != 0, m & OptionKey != 0, m & ControlKey != 0;
    JoinedFour(PartIf(c, CmdGlyph), PartIf(sh, ShiftGlyph), PartIf(o, OptionGlyph), PartIf(ct, ControlGlyph));
    JoinedOptional(c, CmdGlyph);
    JoinedOptional(sh, ShiftGlyph);
    JoinedOptional(o, OptionGlyph);
    JoinedOptional(ct, ControlGlyph);
  }

  /** `HotkeyConfig.displayString`. */
  method DisplayString(h: HotkeyConfig) returns (s: string)
    // `UInt16(keyCode)` traps on a larger code
    requires h.keyCode < 0x1_0000
    ensures s == ModifierGlyphs(h.modifiers) + KeyCodeToString(h.keyCode)
  {
    var parts: seq<string> := [];
    if h.modifiers & CmdKey != 0 {
      parts := parts + [[CmdGlyph]];
    }
    assert parts == PartIf(h.modifiers & CmdKey != 0, CmdGlyph);
    if h.modifiers & ShiftKey != 0 {
      parts := parts + [[ShiftGlyph]];
    }
    assert parts == PartIf(h.modifiers & CmdKey != 0, CmdGlyph) + PartIf(h.modifiers & ShiftKey != 0, ShiftGlyph);
    if h.modifiers & OptionKey != 0 {
      parts := parts + [[OptionGlyph]];
    }
    assert parts == PartIf(h.modifiers & CmdKey != 0, CmdGlyph) + PartIf(h.modifiers & ShiftKey != 0, ShiftGlyph) +
      PartIf(h.modifiers & OptionKey != 0, OptionGlyph);
    if h.modifiers & ControlKey != 0 {
      parts := parts + [[ControlGlyph]];
    }
    assert parts == GlyphParts(h.modifiers);
    JoinedGlyphParts(h.modifiers);
    var name := KeyCodeToString(h.keyCode);
    JoinedSnoc(parts, name);
    parts := parts + [name];
    s := Joined(parts);
  }

  /** Bits other than the four modifiers never show. */
  lemma GlyphsIgnoreOtherBits(m: bv32)
    ensures ModifierGlyphs(m) == ModifierGlyphs(m & AllModifierKeys)
    ensures ModifiersOf(m) == ModifiersOf(m & AllModifierKeys)
  {
  }

  /** Drops a leading `g`, saying whether there was one. */
  function StripGlyph(s: string, g: char): (bool, string) {
    if |s| > 0 && s[0] == g then (true, s[1..]) else (false, s)
  }

  /** Stripping `g` undoes an optional `g` put before text that does not start with it. */
  lemma StripGlyphIf(present: bool, g: char, rest: string)
    requires rest != [] && rest[0] != g
    ensures StripGlyph(GlyphIf(present, g) + rest, g) == (present, rest)
  {
    var s := GlyphIf(present, g) + rest;
    if present {
      assert s[0] == g && s[1..] == rest;
    } else {
      assert s == rest;
    }
  }

  /** Reads a display string back: the four glyphs in their fixed order, then the key name. */
  function ParseDisplay(s: string): (ModifierKeys, string) {
    var (cmd, s1) := StripGlyph(s, CmdGlyph);
    var (shift, s2) := StripGlyph(s1, ShiftGlyph);
    var (option, s3) := StripGlyph(s2, OptionGlyph);
    var (control, s4) := StripGlyph(s3, ControlGlyph);
    (ModifierKeys(cmd, shift, option, control), s4)
  }

  /** Any choice of glyphs followed by a name that starts with no glyph reads back. */
  lemma ParseGlyphsThenName(cmd: bool, shift: bool, option: bool, control: bool, name: string)
    requires name != [] && !IsGlyph(name[0])
    ensures ParseDisplay(GlyphIf(cmd, CmdGlyph) + GlyphIf(shift, ShiftGlyph) +
      GlyphIf(option, OptionGlyph) + GlyphIf(control, ControlGlyph) + name) ==
      (ModifierKeys(cmd, shift, option, control), name)
  {
    var c, sh := GlyphIf(cmd, CmdGlyph), GlyphIf(shift, ShiftGlyph);
    var o, ct := GlyphIf(option, OptionGlyph), GlyphIf(control, ControlGlyph);
    var s3 := ct + name;
    var s2 := o + s3;
    var s1 := sh + s2;
    assert c + sh + o + ct + name == c + s1;
    assert s3[0] == ControlGlyph || s3[0] == name[0];
    assert s2[0] == OptionGlyph || s2[0] == s3[0];
    assert s1[0] == ShiftGlyph || s1[0] == s2[0];
    StripGlyphIf(cmd, CmdGlyph, s1);
    StripGlyphIf(shift, ShiftGlyph, s2);
    StripGlyphIf(option, OptionGlyph, s3);
    StripGlyphIf(control, ControlGlyph, name);
  }

  /**
   * A display string determines the four modifiers and the key name: each
   * glyph appears exactly when its bit is set, in the fixed order, followed
   * by exactly one key name.
   */
  lemma DisplayStringParses(m: bv32, keyCode: UInt16)
    ensures ParseDisplay(ModifierGlyphs(m) + KeyCodeToString(keyCode)) == (ModifiersOf(m), KeyCodeToString(keyCode))
  {
    ParseGlyphsThenName(m & CmdKey != 0, m & ShiftKey != 0, m & OptionKey != 0, m & ControlKey != 0,
      KeyCodeToString(keyCode));
  }

  /** NSEvent.ModifierFlags bits the capture view tests. */
  const NSShift: bv64 := 0x2_0000
  const NSControl: bv64 := 0x4_0000
  const NSOption: bv64 := 0x8_0000
  const NSCommand: bv64 := 0x10_0000

  /** A key-down NSEvent: its key code and modifier flags. */
  datatype KeyEvent = KeyEvent(keyCode: UInt16, modifierFlags: bv64)

  /** Which of the four modifiers an NSEvent reports as held. */
  function HeldModifiers(flags: bv64): ModifierKeys {
    ModifierKeys(flags & NSCommand != 0, flags & NSShift != 0, flags & NSOption != 0, flags & NSControl != 0)
  }

  /** The Carbon mask `keyDown` builds from an event's modifier flags. */
  function CaptureModifiers(flags: bv64): (m: bv32)
    // each Carbon bit is set exactly when its modifier is held ...
    ensures ModifiersOf(m) == HeldModifiers(flags)
    // ... and no other bit is, whatever else the flags hold
    ensures m & !AllModifierKeys == 0
    ensures m != 0 <==> HeldModifiers(flags) != ModifierKeys(false, false, false, false)
  {
    (if flags & NSCommand != 0 then CmdKey else 0) |
    (if flags & NSShift != 0 then ShiftKey else 0) |
    (if flags & NSOption != 0 then OptionKey else 0) |
    (if flags & NSControl != 0 then ControlKey else 0)
  }

  /** What the view hands to `onKeyCapture`. */
  datatype CapturedKey = CapturedKey(keyCode: UInt16, modifiers: bv32)

  /** `KeyCaptureNSView`. */
  class KeyCaptureView {
    var isCapturing: bool
    /** Whether `onKeyCapture` is set. */
    var hasCallback: bool
    /** The calls made to `onKeyCapture`, oldest first. */
    var captures: seq<CapturedKey>
    /** The events passed on to `super.keyDown`, oldest first. */
    var forwarded: seq<KeyEvent>

    /**
     * A new view, not capturing. `KeyCaptureNSView` starts with
     * `onKeyCapture == nil` and `makeNSView` sets the callback right after
     * creating it; `hasCallback` folds that assignment into construction.
     */
    constructor (hasCallback: bool)
      ensures !isCapturing && this.hasCallback == hasCallback
      ensures captures == [] && forwarded == []
    {
      isCapturing := false;
      this.hasCallback := hasCallback;
      captures := [];
      forwarded := [];
    }

    /** `keyDown(with:)`. */
    method KeyDown(event: KeyEvent)
      modifies this`captures, this`forwarded
      // not capturing: the event goes to the superclass and no callback fires
      ensures !isCapturing ==> (forwarded == old(forwarded) + [event] && captures == old(captures))
      // capturing: the callback fires only with at least one modifier held
      ensures isCapturing ==> (
        && forwarded == old(forwarded)
        && captures == old(captures) +
          (if hasCallback && CaptureModifiers(event.modifierFlags) != 0
           then [CapturedKey(event.keyCode, CaptureModifiers(event.modifierFlags))] else []))
    {
      if !isCapturing {
        forwarded := forwarded + [event];
        return;
      }
      var keyCode := event.keyCode;
      var modifiers: bv32 := 0;
      if event.modifierFlags & NSCommand != 0 {
        modifiers := modifiers | CmdKey;
      }
      if event.modifierFlags & NSShift != 0 {
        modifiers := modifiers | ShiftKey;
      }
      if event.modifierFlags & NSOption != 0 {
        modifiers := modifiers | OptionKey;
      }
      if event.modifierFlags & NSControl != 0 {
        modifiers := modifiers | ControlKey;
      }
      assert modifiers == CaptureModifiers(event.modifierFlags);
      if modifiers != 0 && hasCallback {
        captures := captures + [CapturedKey(keyCode, modifiers)];
      }
    }

    /** `flagsChanged(with:)`: a modifier-only press is ignored; with no frame it changes nothing. */
    method FlagsChanged(event: KeyEvent) {
    }
  }
}
