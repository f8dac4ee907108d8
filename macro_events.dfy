/**
 * The event model: the nine event kinds, one captured input sample, the
 * macro that orders them, the two kind tables between CoreGraphics event
 * types and event kinds, and the delay recomputation `Macro.updateDelays`.
 */
module MacroEvents {
  import opened Wrappers
  import opened SeqEdits

  /** Foundation's TimeInterval and Date, as exact seconds. */
  type Time = real
  /** A UUID, as a supplied integer; nothing forces two events to differ. */
  type Uuid = int
  type UInt16 = k: int | 0 <= k < 0x1_0000
  type UInt32 = k: int | 0 <= k < 0x1_0000_0000

  /** The closed set of event kinds a macro can hold. */
  datatype EventType =
    | MouseLeftDown | MouseLeftUp | MouseRightDown | MouseRightUp
    | MouseMove | MouseDrag | KeyDown | KeyUp | Scroll

  predicate IsMouseKind(k: EventType) {
    k.MouseLeftDown? || k.MouseLeftUp? || k.MouseRightDown? || k.MouseRightUp? ||
    k.MouseMove? || k.MouseDrag?
  }

  predicate IsKeyKind(k: EventType) {
    k.KeyDown? || k.KeyUp?
  }

  /** Every case of CoreGraphics' CGEventType. */
  datatype CGEventType =
    | Null | LeftMouseDown | LeftMouseUp | RightMouseDown | RightMouseUp
    | MouseMoved | LeftMouseDragged | RightMouseDragged | KeyDown | KeyUp
    | FlagsChanged | ScrollWheel | TabletPointer | TabletProximity
    | OtherMouseDown | OtherMouseUp | OtherMouseDragged
    | TapDisabledByTimeout | TapDisabledByUserInput

  /** CGEventType.rawValue. */
  function RawValue(t: CGEventType): nat {
    match t
    case Null => 0
    case LeftMouseDown => 1
    case LeftMouseUp => 2
    case RightMouseDown => 3
    case RightMouseUp => 4
    case MouseMoved => 5
    case LeftMouseDragged => 6
    case RightMouseDragged => 7
    case KeyDown => 10
    case KeyUp => 11
    case FlagsChanged => 12
    case ScrollWheel => 22
    case TabletPointer => 23
    case TabletProximity => 24
    case OtherMouseDown => 25
    case OtherMouseUp => 26
    case OtherMouseDragged => 27
    case TapDisabledByTimeout => 0xFFFF_FFFE
    case TapDisabledByUserInput => 0xFFFF_FFFF
  }

  /** The CGEventFlags bits the recorder decodes. */
  const MaskShift: bv64 := 0x2_0000
  const MaskControl: bv64 := 0x4_0000
  const MaskAlternate: bv64 := 0x8_0000
  const MaskCommand: bv64 := 0x10_0000

  datatype Point = Point(x: real, y: real)

  /**
   * One captured input sample. Only `delay` is mutable in the source; the
   * optional fields are the ones meaningful to some kinds only.
   */
  datatype MacroEvent = MacroEvent(
    id: Uuid,
    kind: EventType,
    timestamp: Time,
    position: Option<Point>,
    keyCode: Option<UInt16>,
    flags: Option<bv64>,
    scrollDeltaX: Option<int>,
    scrollDeltaY: Option<int>,
    delay: Time)

  /** An intercepted CGEvent: its type and the fields `from` reads. */
  datatype CGEvent = CGEvent(
    eventType: CGEventType,
    location: Point,
    keyCode: UInt16,
    flags: bv64,
    scrollAxis1: int,
    scrollAxis2: int)

  /** The raw types the recorder subscribes to and converts. */
  const Captured: set<CGEventType> :=
    {LeftMouseDown, LeftMouseUp, RightMouseDown, RightMouseUp, MouseMoved,
     LeftMouseDragged, RightMouseDragged, CGEventType.KeyDown, CGEventType.KeyUp, ScrollWheel}

  /** The first switch of `from(cgEvent:)`: raw type to kind. */
  function KindOf(t: CGEventType): (r: Option<EventType>)
    // Both drag types collapse onto the one drag kind.
    ensures r == Some(MouseDrag) <==> t == LeftMouseDragged || t == RightMouseDragged
    // Only the ten raw types of the tap's mask yield a kind.
    ensures r.Some? <==> t in Captured
  {
    match t
    case LeftMouseDown => Some(MouseLeftDown)
    case LeftMouseUp => Some(MouseLeftUp)
    case RightMouseDown => Some(MouseRightDown)
    case RightMouseUp => Some(MouseRightUp)
    case MouseMoved => Some(MouseMove)
    case LeftMouseDragged => Some(MouseDrag)
    case RightMouseDragged => Some(MouseDrag)
    case KeyDown => Some(EventType.KeyDown)
    case KeyUp => Some(EventType.KeyUp)
    case ScrollWheel => Some(Scroll)
    case _ => None
  }

  /** The first switch of `toCGEvent()`: kind to raw type. */
  function CGTypeOf(k: EventType): (r: CGEventType)
    // Going back through `from`'s table returns the same kind.
    ensures KindOf(r) == Some(k)
    // A drag is always replayed as a left-button drag.
    ensures k == MouseDrag ==> r == LeftMouseDragged
  {
    match k
    case MouseLeftDown => LeftMouseDown
    case MouseLeftUp => LeftMouseUp
    case MouseRightDown => RightMouseDown
    case MouseRightUp => RightMouseUp
    case MouseMove => MouseMoved
    case MouseDrag => LeftMouseDragged
    case KeyDown => CGEventType.KeyDown
    case KeyUp => CGEventType.KeyUp
    case Scroll => ScrollWheel
  }

  /** `MacroEvent.from(cgEvent:delay:)`; `now` is the clock reading it stamps. */
  function FromCGEvent(event: CGEvent, id: Uuid, now: Time, delay: Time): (r: Option<MacroEvent>)
    ensures r.Some? <==> KindOf(event.eventType).Some?
    ensures r.Some? ==>
      && r.value.kind == KindOf(event.eventType).value
      && r.value.id == id && r.value.timestamp == now && r.value.delay == delay
      && r.value.position == Some(event.location)
      && r.value.flags == Some(event.flags)
      // keyCode is set for key kinds only, with the event's key code
      && (r.value.keyCode.Some? <==> IsKeyKind(r.value.kind))
      && (r.value.keyCode.Some? ==> r.value.keyCode.value == event.keyCode)
      // the scroll deltas are set for scroll only (axis 2 is x, axis 1 is y)
      && (r.value.scrollDeltaX.Some? <==> r.value.kind == Scroll)
      && (r.value.scrollDeltaY.Some? <==> r.value.kind == Scroll)
      && (r.value.kind == Scroll ==>
            r.value.scrollDeltaX == Some(event.scrollAxis2) && r.value.scrollDeltaY == Some(event.scrollAxis1))
  {
    match KindOf(event.eventType)
    case None => None
    case Some(kind) =>
      var isKey := kind == EventType.KeyDown || kind == EventType.KeyUp;
      Some(MacroEvent(
        id, kind, now, Some(event.location),
        if isKey then Some(event.keyCode) else None,
        Some(event.flags),
        if kind == Scroll then Some(event.scrollAxis2) else None,
        if kind == Scroll then Some(event.scrollAxis1) else None,
        delay))
  }

  datatype MouseButton = Left | Right

  /** The CGEvent `toCGEvent()` asks CoreGraphics to construct. */
  datatype Synthesized =
    | MouseEvent(mouseType: CGEventType, position: Point, button: MouseButton, flags: Option<bv64>)
    | KeyboardEvent(virtualKey: UInt16, keyDown: bool, flags: Option<bv64>)
    | ScrollWheelEvent(wheel1: int, wheel2: int, flags: Option<bv64>)

  /** The CGEventType of the event CoreGraphics constructs for `s`. */
  function SynthesizedType(s: Synthesized): CGEventType {
    match s
    case MouseEvent(t, _, _, _) => t
    case KeyboardEvent(_, down, _) => if down then CGEventType.KeyDown else CGEventType.KeyUp
    case ScrollWheelEvent(_, _, _) => ScrollWheel
  }

  /** `toCGEvent()`, up to the CoreGraphics constructors themselves. */
  function ToCGEvent(e: MacroEvent): (r: Option<Synthesized>)
    // It fails exactly for a mouse kind with no position or a key kind with no key code.
    ensures r.None? <==> (IsMouseKind(e.kind) && e.position.None?) || (IsKeyKind(e.kind) && e.keyCode.None?)
    // Replaying and capturing again yields the same kind.
    ensures r.Some? ==> KindOf(SynthesizedType(r.value)) == Some(e.kind)
    // The right button is used for right-button clicks only; a drag replays as a left drag.
    ensures r.Some? && r.value.MouseEvent? ==>
      (r.value.button == Right <==> e.kind == MouseRightDown || e.kind == MouseRightUp)
    ensures r.Some? && e.kind == MouseDrag ==>
      r.value.MouseEvent? && r.value.mouseType == LeftMouseDragged && r.value.button == Left
    ensures r.Some? ==> r.value.flags == e.flags
    // The payload: a mouse event at the recorded position, a key event with the
    // recorded key code, a scroll event with wheel 1 from Y and wheel 2 from X (0 when absent).
    ensures r.Some? && IsMouseKind(e.kind) ==> r.value.MouseEvent? && r.value.position == e.position.value
    ensures r.Some? && IsKeyKind(e.kind) ==>
      && r.value.KeyboardEvent? && r.value.virtualKey == e.keyCode.value
      && (r.value.keyDown <==> e.kind == EventType.KeyDown)
    ensures r.Some? && e.kind == Scroll ==>
      && r.value.ScrollWheelEvent?
      && r.value.wheel1 == e.scrollDeltaY.GetOr(0) && r.value.wheel2 == e.scrollDeltaX.GetOr(0)
  {
    var eventType := CGTypeOf(e.kind);
    if IsMouseKind(e.kind) then
      if e.position.None? then None
      else
        var button := if e.kind == MouseRightDown || e.kind == MouseRightUp then Right else Left;
        Some(MouseEvent(eventType, e.position.value, button, e.flags))
    else if IsKeyKind(e.kind) then
      if e.keyCode.None? then None
      else Some(KeyboardEvent(e.keyCode.value, e.kind == EventType.KeyDown, e.flags))
    else
      Some(ScrollWheelEvent(e.scrollDeltaY.GetOr(0), e.scrollDeltaX.GetOr(0), e.flags))
  }

  /**
   * Replaying a captured event rebuilds it: the same kind, the location, the
   * key code, the two scroll axes in their places (axis 1 as wheel 1, axis 2
   * as wheel 2) and the flags.
   */
  lemma ReplayCaptured(event: CGEvent, id: Uuid, now: Time, delay: Time)
    requires FromCGEvent(event, id, now, delay).Some?
    ensures var r := ToCGEvent(FromCGEvent(event, id, now, delay).value);
      && r.Some?
      && KindOf(SynthesizedType(r.value)) == KindOf(event.eventType)
      && r.value.flags == Some(event.flags)
      && (r.value.MouseEvent? ==> r.value.position == event.location)
      && (r.value.KeyboardEvent? ==> r.value.virtualKey == event.keyCode)
      && (r.value.ScrollWheelEvent? ==> r.value.wheel1 == event.scrollAxis1 && r.value.wheel2 == event.scrollAxis2)
  {
  }

  datatype Macro = Macro(
    id: Uuid,
    name: string,
    events: seq<MacroEvent>,
    createdAt: Time,
    modifiedAt: Time)

  /** `Macro(name:events:)`: the two dates are two clock readings, creation first. */
  function NewMacro(id: Uuid, name: string, events: seq<MacroEvent>, created: Time, modified: Time): Macro {
    Macro(id, name, events, created, modified)
  }

  /** delay[0] is 0 and every later delay is the gap to the previous timestamp. */
  ghost predicate DelaysMatchTimestamps(s: seq<MacroEvent>) {
    && (|s| > 0 ==> s[0].delay == 0.0)
    && forall i :: 1 <= i < |s| ==> s[i].delay == s[i].timestamp - s[i - 1].timestamp
  }

  /** `t` is `s` with, at most, other delays. */
  ghost predicate OnlyDelaysDiffer(s: seq<MacroEvent>, t: seq<MacroEvent>) {
    |s| == |t| && forall i :: 0 <= i < |s| ==> t[i] == s[i].(delay := t[i].delay)
  }

  /** The events `Macro.updateDelays` leaves behind. */
  function RecomputeDelays(s: seq<MacroEvent>): (r: seq<MacroEvent>)
    ensures OnlyDelaysDiffer(s, r)
    ensures |s| >= 2 ==> DelaysMatchTimestamps(r)
    // zero or one event: nothing changes, a lone event keeps its delay
    ensures |s| <= 1 ==> r == s
  {
    if |s| <= 1 then s
    else seq(|s|, i requires 0 <= i < |s| =>
               s[i].(delay := if i == 0 then 0.0 else s[i].timestamp - s[i - 1].timestamp))
  }

  /** `Macro.updateDelays`, on the macro value. */
  method UpdateDelays(m: Macro) returns (r: Macro)
    ensures r == m.(events := RecomputeDelays(m.events))
  {
    r := m;
    if |r.events| <= 1 {
      return;
    }
    var events := r.events;
    for i := 1 to |events|
      invariant OnlyDelaysDiffer(m.events, events)
      invariant forall j :: 1 <= j < i ==>
        events[j].delay == m.events[j].timestamp - m.events[j - 1].timestamp
      invariant forall j :: i <= j < |events| ==> events[j] == m.events[j]
    {
      events := events[i := events[i].(delay := events[i].timestamp - events[i - 1].timestamp)];
    }
    if |events| != 0 {
      events := events[0 := events[0].(delay := 0.0)];
    }
    assert DelaysMatchTimestamps(events);
    RecomputeDelaysUnique(m.events, events);
    r := r.(events := events);
  }

  /** On two or more events, the recomputation is the one sequence with the timestamps' delays. */
  lemma {:induction false} RecomputeDelaysUnique(s: seq<MacroEvent>, t: seq<MacroEvent>)
    requires |s| >= 2
    requires OnlyDelaysDiffer(s, t) && DelaysMatchTimestamps(t)
    ensures t == RecomputeDelays(s)
  {
    var r := RecomputeDelays(s);
    forall i | 0 <= i < |s|
      ensures t[i] == r[i]
    {
      if i > 0 {
        assert t[i - 1] == s[i - 1].(delay := t[i - 1].delay);
      }
    }
  }

  /** Recomputing twice is recomputing once. */
  lemma {:induction false} RecomputeDelaysIdempotent(s: seq<MacroEvent>)
    ensures RecomputeDelays(RecomputeDelays(s)) == RecomputeDelays(s)
  {
    var r := RecomputeDelays(s);
    if |s| >= 2 {
      var rr := RecomputeDelays(r);
      forall i | 0 <= i < |s|
        ensures rr[i] == s[i].(delay := rr[i].delay)
      {
        assert r[i] == s[i].(delay := r[i].delay);
      }
      RecomputeDelaysUnique(s, rr);
    }
  }

  /** Events already spaced by their timestamps are left as they are. */
  lemma {:induction false} RecomputeDelaysFixesConsistent(s: seq<MacroEvent>)
    requires DelaysMatchTimestamps(s)
    ensures RecomputeDelays(s) == s
  {
    if |s| >= 2 {
      RecomputeDelaysUnique(s, s);
    }
  }

  /** An event's id, the key the session matches events by. */
  function IdOf(e: MacroEvent): Uuid {
    e.id
  }

  /** Recomputing delays keeps every id in its place. */
  lemma RecomputeDelaysKeepsIds(s: seq<MacroEvent>)
    ensures Map(RecomputeDelays(s), IdOf) == Map(s, IdOf)
  {
    var a, b := Map(RecomputeDelays(s), IdOf), Map(s, IdOf);
    assert forall i :: 0 <= i < |s| ==> a[i] == b[i];
  }

  /** The subscription mask of the event tap (EventRecorder's `eventMask`). */
  function Bit(t: CGEventType): bv64
    requires RawValue(t) < 64
  {
    (1 as bv64) << RawValue(t)
  }

  const EventMask: bv64 :=
    Bit(LeftMouseDown) | Bit(LeftMouseUp) | Bit(RightMouseDown) | Bit(RightMouseUp) |
    Bit(MouseMoved) | Bit(LeftMouseDragged) | Bit(RightMouseDragged) |
    Bit(CGEventType.KeyDown) | Bit(CGEventType.KeyUp) | Bit(ScrollWheel)

  /** The raw types with a bit in a CGEventMask that the recorder does not convert. */
  const Ignored: set<CGEventType> :=
    {Null, FlagsChanged, TabletPointer, TabletProximity, OtherMouseDown, OtherMouseUp, OtherMouseDragged}

  /** The bits of the mouse types. */
  lemma MouseBits()
    ensures Bit(LeftMouseDown) == 0x2 && Bit(LeftMouseUp) == 0x4
    ensures Bit(RightMouseDown) == 0x8 && Bit(RightMouseUp) == 0x10
    ensures Bit(MouseMoved) == 0x20 && Bit(LeftMouseDragged) == 0x40 && Bit(RightMouseDragged) == 0x80
  {
  }

  /** The bits of the key and scroll types. */
  lemma KeyAndScrollBits()
    ensures Bit(CGEventType.KeyDown) == 0x400 && Bit(CGEventType.KeyUp) == 0x800
    ensures Bit(ScrollWheel) == 0x40_0000
  {
  }

  /** The bits of the types the recorder does not convert. */
  lemma IgnoredBits()
    ensures Bit(Null) == 0x1 && Bit(FlagsChanged) == 0x1000
    ensures Bit(TabletPointer) == 0x80_0000 && Bit(TabletProximity) == 0x100_0000
    ensures Bit(OtherMouseDown) == 0x200_0000 && Bit(OtherMouseUp) == 0x400_0000
    ensures Bit(OtherMouseDragged) == 0x800_0000
  {
  }

  /** The value the ten shifted bits add up to. */
  lemma EventMaskValue()
    ensures EventMask == 0x40_0CFE
  {
    MouseBits();
    KeyAndScrollBits();
  }

  /** The tap's mask has the bit of every raw type that maps to a kind. */
  lemma CapturedTypesInMask()
    ensures forall t :: t in Captured ==> RawValue(t) < 64 && EventMask & Bit(t) != 0
  {
    EventMaskValue();
    MouseBits();
    KeyAndScrollBits();
  }

  /** The mask has no bit of the other types (the two tap-disabled types have no bit at all). */
  lemma IgnoredTypesNotInMask()
    ensures forall t :: t in Ignored ==> RawValue(t) < 64 && EventMask & Bit(t) == 0
  {
    EventMaskValue();
    IgnoredBits();
  }

  /** Every raw type is converted, ignored, or has no bit in a mask. */
  lemma RawTypesPartition(t: CGEventType)
    ensures t in Captured || t in Ignored || RawValue(t) >= 64
    ensures !(t in Captured && t in Ignored)
  {
  }
}
