/**
 * The recorder: an idle/recording state machine around an event tap, and
 * the filter `handleEvent` applies to each intercepted event before it
 * appends it to the buffer.
 */
module Recorder {
  import opened Wrappers
  import opened MacroEvents
  import opened KeybindCapture

  /** A mouse move closer than this to the last recorded event is dropped. */
  const MoveThreshold: Time := 0.1

  /** The delay `handleEvent` computes: 0 into an empty buffer, else the gap to the last recorded event. */
  function Delay(buffer: seq<MacroEvent>, lastEventTime: Time, now: Time): Time {
    if buffer == [] then 0.0 else now - lastEventTime
  }

  /** Which of command, shift, option and control the CGEvent flags hold. */
  function PressedModifiers(flags: bv64): ModifierKeys {
    ModifierKeys(flags & MaskCommand != 0, flags & MaskShift != 0, flags & MaskAlternate != 0, flags & MaskControl != 0)
  }

  /** A configured hotkey with this key code and exactly these four modifiers. */
  predicate HotkeyMatches(hotkey: Option<HotkeyConfig>, keyCode: UInt16, flags: bv64) {
    && hotkey.Some?
    && keyCode == hotkey.value.keyCode
    && PressedModifiers(flags) == ModifiersOf(hotkey.value.modifiers)
  }

  predicate IsKeyEvent(event: CGEvent) {
    event.eventType == CGEventType.KeyDown || event.eventType == CGEventType.KeyUp
  }

  /** A key event that is one of the app's own hotkeys. */
  predicate IsHotkeyEvent(event: CGEvent, recordingHotkey: Option<HotkeyConfig>, playbackHotkey: Option<HotkeyConfig>) {
    && IsKeyEvent(event)
    && (HotkeyMatches(recordingHotkey, event.keyCode, event.flags) ||
        HotkeyMatches(playbackHotkey, event.keyCode, event.flags))
  }

  /**
   * What `handleEvent` appends for `event`, if anything: hotkey presses are
   * dropped, then mouse moves too close to the last recorded event, then
   * whatever `from(cgEvent:)` does not convert. `now` is the reading the
   * delay is measured at; `stamp` is the later reading `from` stamps.
   */
  function Capture(
    buffer: seq<MacroEvent>, lastEventTime: Time, now: Time, stamp: Time, id: Uuid, event: CGEvent,
    recordingHotkey: Option<HotkeyConfig>, playbackHotkey: Option<HotkeyConfig>): Option<MacroEvent>
  {
    var delay := Delay(buffer, lastEventTime, now);
    if IsHotkeyEvent(event, recordingHotkey, playbackHotkey) then None
    else if event.eventType == MouseMoved && delay < MoveThreshold then None
    else FromCGEvent(event, id, stamp, delay)
  }

  /** What `Capture` keeps and what the kept event holds. */
  lemma CaptureSpec(
    buffer: seq<MacroEvent>, lastEventTime: Time, now: Time, stamp: Time, id: Uuid, event: CGEvent,
    recordingHotkey: Option<HotkeyConfig>, playbackHotkey: Option<HotkeyConfig>)
    // kept exactly when it is a captured type, not a hotkey, and not a throttled move
    ensures Capture(buffer, lastEventTime, now, stamp, id, event, recordingHotkey, playbackHotkey).Some? <==>
      && event.eventType in Captured
      && !IsHotkeyEvent(event, recordingHotkey, playbackHotkey)
      && !(event.eventType == MouseMoved && (buffer == [] || now - lastEventTime < MoveThreshold))
    ensures var r := Capture(buffer, lastEventTime, now, stamp, id, event, recordingHotkey, playbackHotkey);
      r.Some? ==>
        // the kept event: stamped, identified and delayed as measured, of the event's kind
        && r.value.timestamp == stamp && r.value.id == id
        && r.value.delay == (if buffer == [] then 0.0 else now - lastEventTime)
        && Some(r.value.kind) == KindOf(event.eventType)
        // a recorded key event never carries a configured hotkey's code and modifiers
        && (IsKeyKind(r.value.kind) ==>
              && r.value.keyCode == Some(event.keyCode) && r.value.flags == Some(event.flags)
              && !HotkeyMatches(recordingHotkey, event.keyCode, event.flags)
              && !HotkeyMatches(playbackHotkey, event.keyCode, event.flags))
        // a recorded mouse move follows another event by at least the threshold
        && (r.value.kind == MouseMove ==> buffer != [] && r.value.delay >= MoveThreshold)
  {
  }

  /**
   * What the buffer always satisfies, given the readings its delays were
   * measured at (one per event): the first delay is 0, every later delay is
   * the gap between consecutive readings, `lastEventTime` is the last
   * reading, and no mouse move comes first or sooner than the threshold.
   */
  ghost predicate RecordingInvariant(buffer: seq<MacroEvent>, readings: seq<Time>, lastEventTime: Time) {
    && |readings| == |buffer|
    && (|buffer| > 0 ==> buffer[0].delay == 0.0 && readings[|buffer| - 1] == lastEventTime)
    && (forall i :: 1 <= i < |buffer| ==> buffer[i].delay == readings[i] - readings[i - 1])
    && forall i :: 0 <= i < |buffer| && buffer[i].kind == MouseMove ==> i > 0 && buffer[i].delay >= MoveThreshold
  }

  /** Appending an event measured at `now`, with the gap to the last reading as its delay and no early mouse move, keeps the invariant. */
  lemma AppendKeepsInvariant(buffer: seq<MacroEvent>, readings: seq<Time>, lastEventTime: Time, now: Time, e: MacroEvent)
    requires RecordingInvariant(buffer, readings, lastEventTime)
    requires e.delay == Delay(buffer, lastEventTime, now)
    requires e.kind == MouseMove ==> buffer != [] && e.delay >= MoveThreshold
    ensures RecordingInvariant(buffer + [e], readings + [now], now)
  {
    var b, t := buffer + [e], readings + [now];
    forall i | 1 <= i < |b|
      ensures b[i].delay == t[i] - t[i - 1]
    {
      if i < |buffer| {
        assert b[i] == buffer[i] && b[i - 1] == buffer[i - 1];
        assert t[i] == readings[i] && t[i - 1] == readings[i - 1];
      }
    }
  }

  /** Appending what `Capture` returns, with its reading, keeps the invariant. */
  lemma CaptureKeepsInvariant(
    buffer: seq<MacroEvent>, readings: seq<Time>, lastEventTime: Time, now: Time, stamp: Time, id: Uuid, event: CGEvent,
    recordingHotkey: Option<HotkeyConfig>, playbackHotkey: Option<HotkeyConfig>)
    requires RecordingInvariant(buffer, readings, lastEventTime)
    ensures var r := Capture(buffer, lastEventTime, now, stamp, id, event, recordingHotkey, playbackHotkey);
      r.Some? ==> RecordingInvariant(buffer + [r.value], readings + [now], now)
  {
    var r := Capture(buffer, lastEventTime, now, stamp, id, event, recordingHotkey, playbackHotkey);
    CaptureSpec(buffer, lastEventTime, now, stamp, id, event, recordingHotkey, playbackHotkey);
    if r.Some? {
      AppendKeepsInvariant(buffer, readings, lastEventTime, now, r.value);
    }
  }

  /** A recorded buffer starts with a 0 delay and never with a mouse move. */
  lemma RecordedBufferStart(buffer: seq<MacroEvent>, readings: seq<Time>, lastEventTime: Time)
    requires RecordingInvariant(buffer, readings, lastEventTime)
    ensures buffer != [] ==> buffer[0].delay == 0.0 && buffer[0].kind != MouseMove
  {
  }

  /**
   * Consecutive stamps lie as far apart as the consecutive measurement
   * readings; this holds when every stamp equals its reading, and always for
   * a buffer of at most one event.
   */
  ghost predicate GapsMatchReadings(buffer: seq<MacroEvent>, readings: seq<Time>) {
    && |readings| == |buffer|
    && forall i :: 1 <= i < |buffer| ==>
         buffer[i].timestamp - buffer[i - 1].timestamp == readings[i] - readings[i - 1]
  }

  /**
   * `updateDelays` rewrites each recorded delay from the gap between
   * measurement readings to the gap between stamps; it leaves the buffer as
   * it is exactly when those gaps agree.
   */
  lemma RecordedDelaysAreFinal(buffer: seq<MacroEvent>, readings: seq<Time>, lastEventTime: Time)
    requires RecordingInvariant(buffer, readings, lastEventTime)
    ensures RecomputeDelays(buffer) == buffer <==> GapsMatchReadings(buffer, readings)
  {
    if GapsMatchReadings(buffer, readings) {
      assert DelaysMatchTimestamps(buffer) by {
        forall i | 1 <= i < |buffer|
          ensures buffer[i].delay == buffer[i].timestamp - buffer[i - 1].timestamp
        {
          assert buffer[i].delay == readings[i] - readings[i - 1];
        }
      }
      RecomputeDelaysFixesConsistent(buffer);
    }
  }

  /**
   * A hotkey captured from a key press is filtered exactly when a key event
   * has its key code and the same four modifiers held: holding one more or
   * one fewer lets the event through.
   */
  lemma CapturedHotkeyFilters(captured: KeyEvent, keyCode: UInt16, flags: bv64)
    requires CaptureModifiers(captured.modifierFlags) != 0
    ensures var hotkey := HotkeyConfig(captured.keyCode, CaptureModifiers(captured.modifierFlags));
      HotkeyMatches(Some(hotkey), keyCode, flags) <==>
        keyCode == captured.keyCode && PressedModifiers(flags) == HeldModifiers(captured.modifierFlags)
  {
  }

  /** ⌘⇧R (key code 0x0F) is filtered with exactly ⌘⇧ held; ⌘ alone, ⌘⇧⌥, or another key pass. */
  lemma ExactModifiersOnly()
    ensures var hotkey := Some(HotkeyConfig(0x0F, CmdKey | ShiftKey));
      && HotkeyMatches(hotkey, 0x0F, MaskCommand | MaskShift)
      && !HotkeyMatches(hotkey, 0x0F, MaskCommand)
      && !HotkeyMatches(hotkey, 0x0F, MaskCommand | MaskShift | MaskAlternate)
      && !HotkeyMatches(hotkey, 0x0E, MaskCommand | MaskShift)
  {
  }

  /** The CGEventFlags and NSEvent.ModifierFlags masks share their bits, so the same flags mean the same keys. */
  lemma SameFlagsSameModifiers(flags: bv64)
    ensures PressedModifiers(flags) == HeldModifiers(flags)
  {
  }

  /** `EventRecorder`. The tap and run-loop source are present or absent; the OS objects themselves are not modelled. */
  class EventRecorder {
    var isRecording: bool
    var recordedEvents: seq<MacroEvent>
    var hasEventTap: bool
    var hasRunLoopSource: bool
    var lastEventTime: Time
    var startTime: Time
    var recordingHotkey: Option<HotkeyConfig>
    var playbackHotkey: Option<HotkeyConfig>
    /** The clock readings `handleEvent` measured each recorded event's delay at. */
    ghost var readings: seq<Time>

    /** The buffer invariant, and: recording exactly while a source is installed, which needs a tap. */
    ghost predicate Valid()
      reads this
    {
      && RecordingInvariant(recordedEvents, readings, lastEventTime)
      && (isRecording <==> hasRunLoopSource)
      && (isRecording ==> hasEventTap)
    }

    constructor ()
      ensures Valid()
      ensures !isRecording && recordedEvents == [] && !hasEventTap && !hasRunLoopSource
      ensures lastEventTime == 0.0 && startTime == 0.0
      ensures recordingHotkey == None && playbackHotkey == None
    {
      isRecording := false;
      recordedEvents := [];
      hasEventTap := false;
      hasRunLoopSource := false;
      lastEventTime := 0.0;
      startTime := 0.0;
      recordingHotkey := None;
      playbackHotkey := None;
      readings := [];
    }

    /**
     * `startRecording()`. The accessibility check, the tap creation and the
     * run-loop-source creation are the OS's answers, supplied as arguments;
     * `now` is the clock reading.
     */
    method StartRecording(permissionGranted: bool, tapCreated: bool, sourceCreated: bool, now: Time)
      requires Valid()
      modifies this`isRecording, this`recordedEvents, this`readings, this`hasEventTap, this`hasRunLoopSource
      modifies this`lastEventTime, this`startTime
      ensures Valid()
      // already recording, or no permission: nothing changes, not even the buffer
      ensures old(isRecording) || !permissionGranted ==> unchanged(this)
      // otherwise the buffer is cleared first, whatever the tap and source outcomes
      ensures !old(isRecording) && permissionGranted ==>
        && recordedEvents == []
        && startTime == now && lastEventTime == now
        && hasEventTap == tapCreated
        && hasRunLoopSource == (tapCreated && sourceCreated)
        && isRecording == (tapCreated && sourceCreated)
      ensures recordingHotkey == old(recordingHotkey) && playbackHotkey == old(playbackHotkey)
    {
      if isRecording {
        return;
      }
      if !permissionGranted {
        return;
      }
      recordedEvents := [];
      readings := [];
      startTime := now;
      lastEventTime := startTime;
      hasEventTap := tapCreated;
      if !hasEventTap {
        return;
      }
      hasRunLoopSource := sourceCreated;
      if !hasRunLoopSource {
        return;
      }
      isRecording := true;
    }

    /** `stopRecording()`: the buffer is left for the session to read. */
    method StopRecording()
      requires Valid()
      modifies this`isRecording, this`hasEventTap, this`hasRunLoopSource
      ensures Valid()
      ensures !old(isRecording) ==> unchanged(this)
      ensures old(isRecording) ==> !isRecording && !hasEventTap && !hasRunLoopSource
      ensures recordedEvents == old(recordedEvents) && lastEventTime == old(lastEventTime) && readings == old(readings)
      ensures startTime == old(startTime)
      ensures recordingHotkey == old(recordingHotkey) && playbackHotkey == old(playbackHotkey)
    {
      if !isRecording {
        return;
      }
      hasEventTap := false;
      hasRunLoopSource := false;
      isRecording := false;
    }

    /**
     * `handleEvent(event:type:)`: `now` is the clock reading the delay is
     * measured at, `stamp` the later one `from` stamps, `id` the new event's UUID.
     */
    method HandleEvent(event: CGEvent, now: Time, stamp: Time, id: Uuid)
      requires Valid()
      modifies this`recordedEvents, this`lastEventTime, this`readings
      ensures Valid()
      ensures var r := Capture(old(recordedEvents), old(lastEventTime), now, stamp, id, event, recordingHotkey, playbackHotkey);
        && recordedEvents == old(recordedEvents) + (if r.Some? then [r.value] else [])
        && lastEventTime == (if r.Some? then now else old(lastEventTime))
    {
      var delay := Delay(recordedEvents, lastEventTime, now);
      if event.eventType == CGEventType.KeyDown || event.eventType == CGEventType.KeyUp {
        var keyCode := event.keyCode;
        var pressed := PressedModifiers(event.flags);
        if recordingHotkey.Some? && keyCode == recordingHotkey.value.keyCode {
          if pressed == ModifiersOf(recordingHotkey.value.modifiers) {
            return;
          }
        }
        if playbackHotkey.Some? && keyCode == playbackHotkey.value.keyCode {
          if pressed == ModifiersOf(playbackHotkey.value.modifiers) {
            return;
          }
        }
      }
      if event.eventType == MouseMoved && delay < MoveThreshold {
        return;
      }
      var macroEvent := FromCGEvent(event, id, stamp, delay);
      if macroEvent.Some? {
        Record(macroEvent.value, now);
      }
    }

    /** The append at the end of `handleEvent`: the event goes on the buffer and `now` becomes the last reading. */
    method Record(e: MacroEvent, now: Time)
      requires Valid()
      requires e.delay == Delay(recordedEvents, lastEventTime, now)
      requires e.kind == MouseMove ==> recordedEvents != [] && e.delay >= MoveThreshold
      modifies this`recordedEvents, this`lastEventTime, this`readings
      ensures Valid()
      ensures recordedEvents == old(recordedEvents) + [e] && lastEventTime == now
      ensures readings == old(readings) + [now]
    {
      AppendKeepsInvariant(recordedEvents, readings, lastEventTime, now, e);
      recordedEvents := recordedEvents + [e];
      readings := readings + [now];
      lastEventTime := now;
    }

    /** `clearRecording()`: empties the buffer and nothing else. */
    method ClearRecording()
      requires Valid()
      modifies this`recordedEvents, this`readings
      ensures Valid() && recordedEvents == []
    {
      recordedEvents := [];
      readings := [];
    }
  }
}
