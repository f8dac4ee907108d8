# MacroRecorder core, modelled in Dafny

MacroRecorder is a macOS app that records mouse and keyboard input as a
macro and plays it back. This project models its engine:

- **MacroEvents** (`MacroEvent.swift`): the nine event kinds, one captured
  sample (`MacroEvent`), the two tables between CoreGraphics event types and
  kinds (`from(cgEvent:)`, `toCGEvent()`), the `Macro` value, and
  `Macro.updateDelays`. The tap's event mask is here too.
- **Recorder** (`EventRecorder.swift`): the `EventRecorder` class. It is an
  idle/recording state machine around an event tap. Its `handleEvent` drops
  the app's own hotkeys and throttles mouse moves to one per 100 ms. It
  appends every other converted event to the buffer.
- **Session** (`MacroSession.swift`): the `MacroSession` class. It holds the
  current macro and the saved collection. It has the editing operations
  (delay, insert, remove, replace, move), save-as-upsert and delete, and the
  guard around the player.
- **KeybindCapture** (`KeybindCaptureView.swift`): `HotkeyConfig`, its glyph
  rendering `displayString` with the key-name table, and the Carbon modifier
  mask that `KeyCaptureNSView.keyDown` builds.
- **SeqEdits** and **Wrappers**: Swift's array operations and `Optional`,
  which the other modules use.

Value types (`MacroEvent`, `Macro`, `HotkeyConfig`) are datatypes. The
`mutating` `updateDelays` is a method that runs the source's loop on a copy
and returns the new macro. Objects whose fields change (`EventRecorder`,
`MacroSession`, `KeyCaptureNSView`) are classes.

Time is exact seconds (`real`). UUIDs are integers supplied by the caller.
CG and NS modifier flags are `bv64` and Carbon modifiers are `bv32`.

Inputs from outside the code are parameters:
- each clock reading;
- each new UUID;
- the accessibility permission answer;
- whether tap and run-loop-source creation succeed;
- what `UserDefaults` held at start-up.

`handleEvent` reads the clock twice: once to measure the delay
(`currentTime`) and once more inside `from(cgEvent:)` to stamp the event.
The model takes the two readings as separate parameters. The recorder keeps
the measurement readings in a ghost field, `readings`, and its buffer keeps
one invariant, `Recorder.RecordingInvariant`:
- the first delay is 0 and every later one is the gap between consecutive
  measurement readings;
- `lastEventTime` is the last measurement reading;
- no mouse move comes first or within 0.1 s of the previous event.

`updateDelays` at `stopRecording` therefore does real work: it replaces the
measured gaps by the gaps between stamps. It leaves the buffer as it is
exactly when consecutive stamps lie as far apart as the consecutive
measurement readings (`Recorder.GapsMatchReadings`,
`Recorder.RecordedDelaysAreFinal`): for instance when every stamp equals its
reading, and always for a buffer of at most one event.

Two facts about the code that a reader might not expect:
- **Recording and playback are not mutually exclusive.** `startRecording`
  checks only the recorder's state, and `play` checks only `isPlaying`.
- **`delay[0]` is not always 0.** A macro with one event keeps that event's
  delay. `updateEventDelay` can set any delay, including the first.

## Model

| member | source | states |
|---|---|---|
| SeqEdits.FirstIndex | MacroRecorder/Services/MacroSession.swift:73 | the index found holds the id and no earlier element does; None only when no element holds it |
| SeqEdits.FirstIndexAt | MacroRecorder/Services/MacroSession.swift:73 | an index holding the id with none before it is what `firstIndex(where:)` finds |
| SeqEdits.RemoveAll | MacroRecorder/Services/MacroSession.swift:83 | every element with the id is gone; every other element stays as often as it was there; with no match the sequence is unchanged |
| SeqEdits.RemoveAllAppend | MacroRecorder/Services/MacroSession.swift:125 | removal works piecewise over concatenation, so survivors keep their relative order |
| SeqEdits.RemoveAllAround | MacroRecorder/Services/MacroSession.swift:125 | removing around one element drops that element exactly when it has the id |
| SeqEdits.InsertAt | MacroRecorder/Services/MacroSession.swift:117 | the new element is at the index; the prefix is kept; the suffix shifts up by one; the length grows by one; the multiset gains exactly the element |
| SeqEdits.RemoveAt | MacroRecorder/Services/MacroSession.swift:143 | the length drops by one and exactly the element at the index leaves the multiset |
| SeqEdits.InsertThenRemove | MacroRecorder/Services/MacroSession.swift:143-145 | removing at the index just inserted at restores the sequence |
| SeqEdits.RemoveThenInsert | MacroRecorder/Services/MacroSession.swift:143-145 | re-inserting a removed element at its index restores the sequence |
| SeqEdits.Move | MacroRecorder/Services/MacroSession.swift:143-145 | the moved element lands at `to - 1` when `from < to`, else at `to`; every other position holds its shifted predecessor; the multiset is kept |
| SeqEdits.MoveKeys | MacroRecorder/Services/MacroSession.swift:143-145 | moving commutes with taking ids, so the multiset of ids is unchanged |
| SeqEdits.MoveToOwnPlace | MacroRecorder/Services/MacroSession.swift:143-145 | `move(i, i)` and `move(i, i+1)` leave the order unchanged |
| SeqEdits.MoveLastToFront | MacroRecorder/Services/MacroSession.swift:143-145 | moving index 2 to 0 in `[e0, e1, e2]` gives `[e2, e0, e1]` |
| MacroEvents.KindOf | MacroRecorder/Models/MacroEvent.swift:59-81 | both drag types, and nothing else, map to `mouseDrag`; a kind results exactly for the ten captured raw types, and no event for any other |
| MacroEvents.CGTypeOf | MacroRecorder/Models/MacroEvent.swift:114-133 | taking a kind to its raw type and back through `from`'s table returns the kind; `mouseDrag` becomes a left drag |
| MacroEvents.FromCGEvent | MacroRecorder/Models/MacroEvent.swift:55-108 | an event results exactly for a captured type; it carries that kind, the location, the flags, the stamp and the delay; keyCode is set only for key kinds; the scroll deltas are set only for scroll, with axis 2 as x and axis 1 as y |
| MacroEvents.ToCGEvent | MacroRecorder/Models/MacroEvent.swift:111-161 | fails exactly for a mouse kind without position or a key kind without keyCode; the synthesized type maps back to the event's kind; the right button is used only for right down/up, so a drag replays as a left drag; a mouse event is built at the recorded position, a key event with the recorded key code and up/down, a scroll event with wheel 1 from the Y delta and wheel 2 from the X delta (0 when absent); flags are carried over |
| MacroEvents.ReplayCaptured | MacroRecorder/Models/MacroEvent.swift:55-161 | replaying a captured event always succeeds and gives back its kind, location, key code, both scroll axes in their places and its flags |
| MacroEvents.RecomputeDelays | MacroRecorder/Models/MacroEvent.swift:179-189 | only delays change; with two or more events `delay[0] == 0` and each later delay is the gap to the previous timestamp; zero or one event is left as is, including a lone non-zero delay |
| MacroEvents.UpdateDelays | MacroRecorder/Models/MacroEvent.swift:179-189 | the loop produces the recomputed events and leaves the macro's id, name and dates alone |
| MacroEvents.RecomputeDelaysUnique | MacroRecorder/Models/MacroEvent.swift:179-189 | with two or more events, any delay-only rewrite consistent with the timestamps is the recomputed one |
| MacroEvents.RecomputeDelaysIdempotent | MacroRecorder/Models/MacroEvent.swift:179-189 | applying `updateDelays` twice equals applying it once |
| MacroEvents.RecomputeDelaysFixesConsistent | MacroRecorder/Models/MacroEvent.swift:179-189 | events whose delays already match their timestamps are left unchanged |
| MacroEvents.RecomputeDelaysKeepsIds | MacroRecorder/Models/MacroEvent.swift:179-189 | the id sequence is unchanged |
| MacroEvents.NewMacro | MacroRecorder/Models/MacroEvent.swift:171-177 | `Macro(name:events:)`: the given id, name and events, with `createdAt` and `modifiedAt` from two separate readings |
| MacroEvents.MouseBits | MacroRecorder/Services/EventRecorder.swift:27-33 | the seven mouse raw types shift to bits 0x2 … 0x80 |
| MacroEvents.KeyAndScrollBits | MacroRecorder/Services/EventRecorder.swift:34-36 | key down, key up and scroll wheel shift to 0x400, 0x800 and 0x40_0000 |
| MacroEvents.IgnoredBits | MacroRecorder/Services/EventRecorder.swift:26-49 | the seven raw types the mask leaves out have bits 0x1, 0x1000 and 0x80_0000 … 0x800_0000 |
| MacroEvents.EventMask | MacroRecorder/Services/EventRecorder.swift:26-49 | the or of the ten shifted type bits, in the order the source builds it |
| MacroEvents.EventMaskValue | MacroRecorder/Services/EventRecorder.swift:26-49 | or-ing the ten bits gives the mask 0x40_0CFE |
| MacroEvents.CapturedTypesInMask | MacroRecorder/Services/EventRecorder.swift:26-49 | every raw type that `from(cgEvent:)` converts has its bit in the tap's mask |
| MacroEvents.IgnoredTypesNotInMask | MacroRecorder/Services/EventRecorder.swift:26-49 | no other raw type that fits in 64 bits has its bit in the mask, so the mask subscribes to exactly the convertible types |
| MacroEvents.RawTypesPartition | MacroRecorder/Models/MacroEvent.swift:59-81 | every raw type is captured, or ignored, or beyond the mask's 64 bits, and never both captured and ignored |
| KeybindCapture.KeyName | MacroRecorder/Views/KeybindCaptureView.swift:34-47 | the 64-entry dictionary; every name in it is non-empty, starts with no modifier glyph and differs from the `"?"` fallback |
| KeybindCapture.KeyCodeToString | MacroRecorder/Views/KeybindCaptureView.swift:33-50 | a code in the name table gives its entry; the result is `"?"` exactly for codes not in the table; a name is never empty and never starts with a modifier glyph |
| KeybindCapture.Joined | MacroRecorder/Views/KeybindCaptureView.swift:30 | `joined()` with no separator: the parts' texts concatenated in order |
| KeybindCapture.JoinedSnoc | MacroRecorder/Views/KeybindCaptureView.swift:29-30 | appending a part to the parts appends its text to the joined string |
| KeybindCapture.JoinedAppend | MacroRecorder/Views/KeybindCaptureView.swift:30 | joining the concatenation of two part lists is the concatenation of their joins |
| KeybindCapture.JoinedOptional | MacroRecorder/Views/KeybindCaptureView.swift:16-27 | a glyph part appended only when its bit is set joins to that glyph or to nothing |
| KeybindCapture.JoinedFour | MacroRecorder/Views/KeybindCaptureView.swift:16-30 | the parts appended by four successive conditionals join to the four joins in order |
| KeybindCapture.JoinedGlyphParts | MacroRecorder/Views/KeybindCaptureView.swift:16-27 | the parts collected for the four modifier bits join to ⌘⇧⌥⌃ in order, each present exactly when its bit is set |
| KeybindCapture.DisplayString | MacroRecorder/Views/KeybindCaptureView.swift:13-31 | the result is ⌘, ⇧, ⌥, ⌃ in that order, each exactly when its bit is set, followed by the key name |
| KeybindCapture.GlyphsIgnoreOtherBits | MacroRecorder/Views/KeybindCaptureView.swift:16-28 | bits other than the four modifiers change neither the glyphs nor the modifiers they denote |
| KeybindCapture.StripGlyphIf | MacroRecorder/Views/KeybindCaptureView.swift:16-27 | a glyph that is present or absent, followed by text not starting with it, is recovered together with the text |
| KeybindCapture.ParseGlyphsThenName | MacroRecorder/Views/KeybindCaptureView.swift:13-31 | any choice of the four glyphs in the fixed order, followed by a name that starts with no glyph, reads back as that choice and that name |
| KeybindCapture.DisplayStringParses | MacroRecorder/Views/KeybindCaptureView.swift:13-31 | a display string determines the four modifiers and the key name, which appears exactly once after the glyphs |
| KeybindCapture.CaptureModifiers | MacroRecorder/Views/KeybindCaptureView.swift:133-147 | each Carbon bit is set exactly when its modifier is held, and no other bit; the mask is non-zero exactly when some modifier is held |
| KeybindCapture.KeyCaptureView.constructor | MacroRecorder/Views/KeybindCaptureView.swift:119-121 | the view starts not capturing, with no callback calls and nothing forwarded |
| KeybindCapture.KeyCaptureView.KeyDown | MacroRecorder/Views/KeybindCaptureView.swift:127-153 | when not capturing, the event goes to the superclass and no callback fires; when capturing, nothing is forwarded and the callback fires once, with the key code and mask, only if some modifier is held |
| KeybindCapture.KeyCaptureView.FlagsChanged | MacroRecorder/Views/KeybindCaptureView.swift:155-157 | a modifier-only change has no effect: the method modifies nothing |
| Recorder.Delay | MacroRecorder/Services/EventRecorder.swift:126 | the delay is 0 on an empty buffer, and otherwise the measurement reading minus `lastEventTime` |
| Recorder.MoveThreshold | MacroRecorder/Services/EventRecorder.swift:176 | mouse moves closer than 0.1 s to the previous event are dropped |
| KeybindCapture.ModifiersOf | MacroRecorder/Services/EventRecorder.swift:142-161 | a hotkey's Carbon modifier mask decoded into the four expected-modifier booleans (the `expectedCmd` … `expectedCtrl` lines of both hotkey checks) |
| KeybindCapture.HeldModifiers | MacroRecorder/Views/KeybindCaptureView.swift:136-145 | the four modifiers an `NSEvent`'s flags hold |
| SeqEdits.MoveDestination | MacroRecorder/Services/MacroSession.swift:144 | the insertion index after the removal: one less when the source lies before the destination |
| Recorder.Capture | MacroRecorder/Services/EventRecorder.swift:124-185 | what `handleEvent` appends, as a function of the buffer, the two clock readings, the event and the two hotkeys |
| Recorder.CaptureSpec | MacroRecorder/Services/EventRecorder.swift:124-185 | an event is kept exactly when its type is captured, it is not a hotkey and it is not a throttled move; a kept key event never matches a hotkey's code and exact modifiers; a kept mouse move follows another event by at least 0.1 s; the delay is 0 into an empty buffer, else the measured gap to the last recorded event; the stamp is the separate later reading |
| Recorder.CaptureKeepsInvariant | MacroRecorder/Services/EventRecorder.swift:124-185 | appending what `handleEvent` keeps, with its measurement reading, preserves the recording invariant |
| Recorder.AppendKeepsInvariant | MacroRecorder/Services/EventRecorder.swift:124-185 | appending an event whose delay is the measured gap, and that is no early mouse move, preserves the invariant |
| Recorder.RecordedDelaysAreFinal | MacroRecorder/Services/EventRecorder.swift:124-185 | on a recorded buffer, `updateDelays` changes nothing if and only if consecutive stamps lie as far apart as the consecutive measurement readings (so always for at most one event, and whenever every stamp is its reading) |
| Recorder.RecordedBufferStart | MacroRecorder/Services/EventRecorder.swift:124-185 | a recorded buffer starts with a 0 delay and never with a mouse move |
| Recorder.CapturedHotkeyFilters | MacroRecorder/Services/EventRecorder.swift:139-169 | a hotkey captured from a key press filters a key event exactly when the key code and all four modifiers agree |
| Recorder.ExactModifiersOnly | MacroRecorder/Services/EventRecorder.swift:140-153 | ⌘⇧R is filtered with exactly ⌘⇧ held; a subset, a superset or another key passes |
| Recorder.SameFlagsSameModifiers | MacroRecorder/Services/EventRecorder.swift:133-137 | the CG flag masks and the NS modifier masks denote the same four keys |
| Recorder.PressedModifiers | MacroRecorder/Services/EventRecorder.swift:129-137 | which of command, shift, option and control the CG flags hold |
| Recorder.HotkeyMatches | MacroRecorder/Services/EventRecorder.swift:139-169 | a configured hotkey with the event's key code and exactly the pressed four modifiers |
| Recorder.EventRecorder.constructor | MacroRecorder/Services/EventRecorder.swift:12-23 | idle, with an empty buffer, no tap, no source and no hotkeys |
| Recorder.EventRecorder.StartRecording | MacroRecorder/Services/EventRecorder.swift:51-104 | while recording, or without permission, nothing changes, not even the buffer; otherwise the buffer is cleared and both times are stamped before the tap and source outcomes, and recording starts only if both succeed |
| Recorder.EventRecorder.StopRecording | MacroRecorder/Services/EventRecorder.swift:106-122 | when idle nothing changes; otherwise recording stops, both handles are released and the buffer is kept |
| Recorder.EventRecorder.HandleEvent | MacroRecorder/Services/EventRecorder.swift:124-185 | the buffer grows by exactly what `Capture` keeps, and `lastEventTime` moves to the measurement reading only then; the invariant is kept |
| Recorder.EventRecorder.Record | MacroRecorder/Services/EventRecorder.swift:181-184 | the append: the event goes on the end of the buffer, its measurement reading on the end of `readings`, and `lastEventTime` becomes that reading; the invariant is kept |
| Recorder.EventRecorder.ClearRecording | MacroRecorder/Services/EventRecorder.swift:192-194 | empties the buffer and touches nothing else, including `isRecording` |
| Session.Upsert | MacroRecorder/Services/MacroSession.swift:72-77 | the first entry with the id is replaced in place and the count is kept; with no such entry the macro is appended |
| Session.UpsertTwice | MacroRecorder/Services/MacroSession.swift:72-77 | saving twice under one id equals saving the second version once |
| Session.UpsertKeepsUniqueIds | MacroRecorder/Services/MacroSession.swift:72-77 | saving keeps the saved ids distinct |
| Session.UpsertThenDelete | MacroRecorder/Services/MacroSession.swift:63-85 | deleting the id just saved leaves what deleting it before the save would |
| Session.DeleteRemovesId | MacroRecorder/Services/MacroSession.swift:82-85 | after a delete no saved entry has the id |
| Session.SavedCopy | MacroRecorder/Services/MacroSession.swift:63-70 | the stored copy keeps the id, events and creation date, takes the given name if any, and is stamped now |
| Session.SetDelay | MacroRecorder/Services/MacroSession.swift:104-111 | only the first event with the id changes, and only its delay; a missing id changes nothing |
| Session.ReplaceFirst | MacroRecorder/Services/MacroSession.swift:129-136 | the first event with the id is replaced whole and no other changes; a missing id changes nothing |
| Session.ReplaceFirstKeepsIds | MacroRecorder/Services/MacroSession.swift:129-136 | replacing a record keeps the id sequence |
| Session.InsertThenRemoveById | MacroRecorder/Services/MacroSession.swift:113-127 | removing by an inserted event's id removes it wherever it went, leaving what the same removal did before |
| Session.MoveEvents | MacroRecorder/Services/MacroSession.swift:138-150 | the moved event lands at the adjusted index; the length is kept; with two or more events the delays are recomputed |
| Session.MoveEventsPermutes | MacroRecorder/Services/MacroSession.swift:138-150 | a move keeps the multiset of ids, and a one-event macro is unchanged |
| Session.MacroSession.constructor | MacroRecorder/Services/MacroSession.swift:21-34 | the saved list is the decoded store, or empty when there is none; nothing is current and nothing plays |
| Session.MacroSession.StartRecording | MacroRecorder/Services/MacroSession.swift:38-41 | proceeds only when the recorder is idle, whatever `isPlaying` is; then the recorder's buffer, times, tap and source become what its `startRecording` gives; the hotkeys are kept |
| Session.MacroSession.StopRecording | MacroRecorder/Services/MacroSession.swift:43-51 | when not recording nothing changes; otherwise recording stops with both handles released, the buffer, times and hotkeys are kept, and the current macro holds the buffer after `updateDelays`, which is the buffer itself exactly when consecutive stamps lie as far apart as consecutive measurement readings; saved macros are untouched |
| Session.MacroSession.ClearCurrentMacro | MacroRecorder/Services/MacroSession.swift:53-56 | empties the recorder buffer and the current macro |
| Session.MacroSession.SetHotkeys | MacroRecorder/Services/MacroSession.swift:58-61 | both hotkeys reach the recorder |
| Session.MacroSession.SaveCurrentMacro | MacroRecorder/Services/MacroSession.swift:63-80 | with no current macro nothing changes; otherwise the renamed, restamped copy is upserted and written out; the current macro itself is unchanged |
| Session.MacroSession.DeleteMacro | MacroRecorder/Services/MacroSession.swift:82-85 | every saved entry with the id goes, the others keep their order, and the list is written out |
| Session.MacroSession.LoadMacro | MacroRecorder/Services/MacroSession.swift:87-89 | only replaces the current macro |
| Session.MacroSession.Play | MacroRecorder/Services/MacroSession.swift:93-96 | while playing nothing is handed to the player; otherwise the events, mode and speed are |
| Session.MacroSession.StopPlayback | MacroRecorder/Services/MacroSession.swift:98-100 | a stop is handed to the player unconditionally |
| Session.MacroSession.UpdateEventDelay | MacroRecorder/Services/MacroSession.swift:104-111 | no current macro: nothing; else the events become `SetDelay`'s |
| Session.MacroSession.InsertEvent | MacroRecorder/Services/MacroSession.swift:113-120 | no current macro, or an index outside `0...count`: nothing; else the event is inserted at the index |
| Session.MacroSession.RemoveEvent | MacroRecorder/Services/MacroSession.swift:122-127 | no current macro: nothing; else every event with the id is removed |
| Session.MacroSession.UpdateEvent | MacroRecorder/Services/MacroSession.swift:129-136 | no current macro: nothing; else the events become `ReplaceFirst`'s |
| Session.MacroSession.MoveEvent | MacroRecorder/Services/MacroSession.swift:138-150 | no current macro, or either index out of range: nothing; else the events become `MoveEvents`' |

## Left out

- Console diagnostics: the `print` calls (EventRecorder.swift:56, 86, 94, 103, 121, 149, 165 and MacroSession.swift:161, 173) write only to the console and change no state, so the model drops them.
- SwiftUI and AppKit presentation is not modelled. This covers the `View` and `NSViewRepresentable` parts of `KeybindCaptureView.swift`, `acceptsFirstResponder`, and the helper closure that clears `isCapturing` after a capture. It also covers `EventListView.swift`, `MacroListView.swift` and `MacroRecorderApp.swift`.
- The OS calls are not modelled: `AXIsProcessTrustedWithOptions`, `CGEvent.tapCreate`, `CFMachPortCreateRunLoopSource`, `CFRunLoopAddSource`/`RemoveSource` and `tapEnable`. Their outcomes are boolean parameters, and the tap and source are present-or-absent flags.
- The CoreGraphics event constructors in `toCGEvent()` are not modelled. The model returns the constructor call it would make, and assumes the constructor succeeds.
- `EventPlayer` is not part of this model, so scheduling, timing, repeat policies and its `isPlaying` transitions are left out. The session keeps `isPlaying` as a field only the player would change. It logs the requests it hands to the player. Only `.once` appears in the modelled code (`MacroSession.swift:93`); the `Repeat(times)` and `Loop` cases of `PlaybackMode` are assumed.
- Saving and loading macros is not modelled: JSON encoding and decoding, `UserDefaults`, `exportMacro` and `importMacro`. `persisted` records what each save writes. Start-up takes the decoded store as a parameter. An encoding failure in `saveMacros` is not modelled.
- `Date()`, `UUID()` and `Date().formatted()` become parameters, one per reading: `handleEvent` gets its measurement reading and its stamp reading, and `Macro(name:events:)` gets its two readings for `createdAt` and `modifiedAt`. Nothing relates successive readings (the clock is not assumed monotonic).
- Recorder.EventRecorder.HandleEvent: it takes the event type from the event itself. The tap's separate `type` argument is assumed to agree with it.
- MacroEvents.FromCGEvent: keyCodes are taken as `UInt16` values. It does not model the traps of `UInt16(...)` and `UInt32(...)` on an out-of-range integer field.
- MacroEvents.ToCGEvent: scroll deltas are integers, exact as the recorder produces them. It does not model `Int32(...)` trapping on a delta outside 32 bits.
- The session's `isRecording` is a synchronous Combine mirror of the recorder's. The model reads the recorder's field directly.
- `flagsChanged(with:)` is modelled as a method that changes nothing. It has no contract to state.
- KeybindCapture.DisplayString: requires a key code below 0x1_0000, because `UInt16(keyCode)` traps on a larger one; the trap itself is not modelled. The capture view only builds hotkeys from `UInt16` key codes, so it always meets this.
- Session.MacroSession.Play: the default arguments of `play(macro:mode:speed:)` (`.once`, `1.0`) are not modelled; callers pass the mode and the speed explicitly.
