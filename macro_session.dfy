/**
 * The session: the macro being edited, the saved collection, the recorder
 * it drives, and the guard around the player.
 */
module Session {
  import opened Wrappers
  import opened SeqEdits
  import opened MacroEvents
  import opened KeybindCapture
  import opened Recorder

  /** The player's repeat policy, as `play` passes it on. */
  datatype PlaybackMode = Once | Repeat(times: int) | Loop

  /** A request the session hands to the player. */
  datatype PlayerCall =
    | PlayCall(events: seq<MacroEvent>, mode: PlaybackMode, speed: real)
    | StopCall

  /** Saved macros are matched by id. */
  function MacroIdOf(m: Macro): Uuid {
    m.id
  }

  /** No two entries share an id. */
  ghost predicate UniqueIds(saved: seq<Macro>) {
    forall i, j :: 0 <= i < j < |saved| ==> saved[i].id != saved[j].id
  }

  /** The collection after saving `m`: the entry with its id replaced where it is, else `m` at the end. */
  function Upsert(saved: seq<Macro>, m: Macro): (r: seq<Macro>)
    ensures m in r
    ensures match FirstIndex(saved, MacroIdOf, m.id)
      case Some(i) => |r| == |saved| && r[i] == m && forall j :: 0 <= j < |r| && j != i ==> r[j] == saved[j]
      case None => r == saved + [m]
  {
    match FirstIndex(saved, MacroIdOf, m.id)
    case Some(i) =>
      var r := saved[i := m];
      assert r[i] == m;
      r
    case None => saved + [m]
  }

  /** Saving twice under one id leaves what saving the second alone would. */
  lemma UpsertTwice(saved: seq<Macro>, m: Macro, m': Macro)
    requires m'.id == m.id
    ensures Upsert(Upsert(saved, m), m') == Upsert(saved, m')
  {
    var once := Upsert(saved, m);
    match FirstIndex(saved, MacroIdOf, m.id)
    case Some(i) =>
      assert FirstIndex(once, MacroIdOf, m.id) == Some(i) by {
        FirstIndexAt(once, MacroIdOf, m.id, i);
      }
    case None =>
      assert FirstIndex(once, MacroIdOf, m.id) == Some(|saved|) by {
        FirstIndexAt(once, MacroIdOf, m.id, |saved|);
      }
  }

  /** Saving keeps the ids distinct. */
  lemma UpsertKeepsUniqueIds(saved: seq<Macro>, m: Macro)
    requires UniqueIds(saved)
    ensures UniqueIds(Upsert(saved, m))
  {
    var r := Upsert(saved, m);
    match FirstIndex(saved, MacroIdOf, m.id)
    case Some(i) =>
      forall a, b | 0 <= a < b < |r|
        ensures r[a].id != r[b].id
      {
        if a == i {
          assert saved[i].id == m.id && r[b] == saved[b];
        } else if b == i {
          assert saved[i].id == m.id && r[a] == saved[a];
        } else {
          assert r[a] == saved[a] && r[b] == saved[b];
        }
      }
    case None =>
      forall a, b | 0 <= a < b < |r|
        ensures r[a].id != r[b].id
      {
        if b == |saved| {
          assert r[b] == m && r[a] == saved[a];
        } else {
          assert r[a] == saved[a] && r[b] == saved[b];
        }
      }
  }

  /** Deleting the id of what was just saved undoes the save, whatever it replaced. */
  lemma UpsertThenDelete(saved: seq<Macro>, m: Macro)
    ensures RemoveAll(Upsert(saved, m), MacroIdOf, m.id) == RemoveAll(saved, MacroIdOf, m.id)
  {
    match FirstIndex(saved, MacroIdOf, m.id)
    case Some(i) =>
      var before, after := saved[..i], saved[i + 1..];
      assert saved == before + [saved[i]] + after;
      assert Upsert(saved, m) == before + [m] + after;
      RemoveAllAround(before, saved[i], after, MacroIdOf, m.id);
      RemoveAllAround(before, m, after, MacroIdOf, m.id);
    case None =>
      assert saved + [m] == saved + [m] + [];
      RemoveAllAround(saved, m, [], MacroIdOf, m.id);
      assert saved + [] == saved;
  }

  /** After a delete no entry has the id. */
  lemma DeleteRemovesId(saved: seq<Macro>, id: Uuid)
    ensures forall j :: 0 <= j < |RemoveAll(saved, MacroIdOf, id)| ==> RemoveAll(saved, MacroIdOf, id)[j].id != id
  {
    var r := RemoveAll(saved, MacroIdOf, id);
    forall j | 0 <= j < |r|
      ensures r[j].id != id
    {
      assert r[j] in multiset(r);
      assert multiset(r)[r[j]] > 0;
    }
  }

  /** The copy `saveCurrentMacro` stores: renamed when a name is given, stamped `now`. */
  function SavedCopy(current: Macro, name: Option<string>, now: Time): (r: Macro)
    ensures r.id == current.id && r.events == current.events && r.createdAt == current.createdAt
    ensures r.name == (if name.Some? then name.value else current.name) && r.modifiedAt == now
  {
    var m := if name.Some? then current.(name := name.value) else current;
    m.(modifiedAt := now)
  }

  /** The events after `updateEventDelay(eventId:newDelay:)`. */
  function SetDelay(events: seq<MacroEvent>, eventId: Uuid, newDelay: Time): (r: seq<MacroEvent>)
    // nothing but delays can change ...
    ensures OnlyDelaysDiffer(events, r)
    // ... and only that of the first event with the id, which becomes `newDelay`
    ensures match FirstIndex(events, IdOf, eventId)
      case Some(i) => r[i].delay == newDelay && forall j :: 0 <= j < |r| && j != i ==> r[j] == events[j]
      case None => r == events
  {
    match FirstIndex(events, IdOf, eventId)
    case Some(i) => events[i := events[i].(delay := newDelay)]
    case None => events
  }

  /** The events after `updateEvent(_:)`. */
  function ReplaceFirst(events: seq<MacroEvent>, event: MacroEvent): (r: seq<MacroEvent>)
    ensures |r| == |events|
    // the first event with the id becomes `event`, every other one stays
    ensures match FirstIndex(events, IdOf, event.id)
      case Some(i) => r[i] == event && forall j :: 0 <= j < |r| && j != i ==> r[j] == events[j]
      case None => r == events
  {
    match FirstIndex(events, IdOf, event.id)
    case Some(i) => events[i := event]
    case None => events
  }

  /** Replacing a record by one with the same id keeps the id sequence. */
  lemma ReplaceFirstKeepsIds(events: seq<MacroEvent>, event: MacroEvent)
    ensures Map(ReplaceFirst(events, event), IdOf) == Map(events, IdOf)
  {
    var a, b := Map(ReplaceFirst(events, event), IdOf), Map(events, IdOf);
    assert forall j :: 0 <= j < |a| ==> a[j] == b[j];
  }

  /** Removing by the id of an inserted event deletes it along with its namesakes, wherever it went. */
  lemma InsertThenRemoveById(events: seq<MacroEvent>, event: MacroEvent, i: nat)
    requires i <= |events|
    ensures RemoveAll(InsertAt(events, event, i), IdOf, event.id) == RemoveAll(events, IdOf, event.id)
  {
    var before, after := events[..i], events[i..];
    assert events == before + after;
    assert InsertAt(events, event, i) == before + [event] + after;
    RemoveAllAround(before, event, after, IdOf, event.id);
    RemoveAllAppend(before, after, IdOf, event.id);
  }

  /** The events after `moveEvent(from:to:)` with both indices in range. */
  function MoveEvents(events: seq<MacroEvent>, from: nat, to: nat): (r: seq<MacroEvent>)
    requires from < |events| && to <= |events|
    // the moved event lands at the adjusted destination, with its payload
    ensures |r| == |events|
    ensures r[MoveDestination(from, to)] == events[from].(delay := r[MoveDestination(from, to)].delay)
    ensures |events| >= 2 ==> DelaysMatchTimestamps(r)
  {
    RecomputeDelays(Move(events, from, to))
  }

  /** A move reorders: the same ids, as often as before, and a lone event keeps its delay. */
  lemma MoveEventsPermutes(events: seq<MacroEvent>, from: nat, to: nat)
    requires from < |events| && to <= |events|
    ensures multiset(Map(MoveEvents(events, from, to), IdOf)) == multiset(Map(events, IdOf))
    ensures |events| == 1 ==> MoveEvents(events, from, to) == events
  {
    RecomputeDelaysKeepsIds(Move(events, from, to));
    MoveKeys(events, from, to, IdOf);
    if |events| == 1 {
      MoveToOwnPlace(events, 0);
    }
  }

  /** `MacroSession`. Its `isRecording` mirror is read straight from the recorder. */
  class MacroSession {
    var currentMacro: Option<Macro>
    var savedMacros: seq<Macro>
    /** The player's published state; the player is not part of this model, so only it would change this. */
    var isPlaying: bool
    const recorder: EventRecorder
    /** The requests handed to the player, oldest first. */
    var playerCalls: seq<PlayerCall>
    /** What the last save wrote to storage. */
    var persisted: seq<Macro>

    ghost predicate Valid()
      reads this, recorder
    {
      recorder.Valid()
    }

    /** `init()`: `stored` is the decoded collection, or None when there is none or it does not decode. */
    constructor (stored: Option<seq<Macro>>)
      ensures Valid() && fresh(recorder)
      ensures savedMacros == stored.GetOr([]) && currentMacro == None
      ensures !isPlaying && playerCalls == []
      ensures !recorder.isRecording && recorder.recordedEvents == []
      ensures recorder.recordingHotkey == None && recorder.playbackHotkey == None
    {
      currentMacro := None;
      savedMacros := stored.GetOr([]);
      isPlaying := false;
      recorder := new EventRecorder();
      playerCalls := [];
      persisted := [];
    }

    /** `startRecording()`: guarded by the recorder's state only; playback does not block it. */
    method StartRecording(permissionGranted: bool, tapCreated: bool, sourceCreated: bool, now: Time)
      requires Valid()
      modifies recorder`isRecording, recorder`recordedEvents, recorder`readings, recorder`hasEventTap
      modifies recorder`hasRunLoopSource, recorder`lastEventTime, recorder`startTime
      ensures Valid()
      ensures old(recorder.isRecording) || !permissionGranted ==> unchanged(recorder)
      ensures !old(recorder.isRecording) && permissionGranted ==>
        && recorder.recordedEvents == []
        && recorder.startTime == now && recorder.lastEventTime == now
        && recorder.hasEventTap == tapCreated
        && recorder.hasRunLoopSource == (tapCreated && sourceCreated)
        && recorder.isRecording == (tapCreated && sourceCreated)
      // the configured hotkeys stay in force
      ensures recorder.recordingHotkey == old(recorder.recordingHotkey)
      ensures recorder.playbackHotkey == old(recorder.playbackHotkey)
    {
      if recorder.isRecording {
        return;
      }
      recorder.StartRecording(permissionGranted, tapCreated, sourceCreated, now);
    }

    /**
     * `stopRecording()`: `id`, `name`, `created` and `modified` stand for the
     * new macro's UUID, its date-formatted name and the two readings `Macro`'s
     * initializer takes. `updateDelays` replaces the measured delays by the
     * gaps between stamps (`RecordedDelaysAreFinal` says when that changes nothing).
     */
    method StopRecording(id: Uuid, name: string, created: Time, modified: Time)
      requires Valid()
      modifies this`currentMacro, recorder`isRecording, recorder`hasEventTap, recorder`hasRunLoopSource
      ensures Valid()
      ensures !old(recorder.isRecording) ==> unchanged(this) && unchanged(recorder)
      ensures old(recorder.isRecording) ==>
        && !recorder.isRecording && !recorder.hasEventTap && !recorder.hasRunLoopSource
        && recorder.recordedEvents == old(recorder.recordedEvents)
        && recorder.lastEventTime == old(recorder.lastEventTime) && recorder.startTime == old(recorder.startTime)
        && currentMacro == Some(NewMacro(id, name, RecomputeDelays(old(recorder.recordedEvents)), created, modified))
      // the delays stay as recorded exactly when stamp gaps match reading gaps
      ensures old(recorder.isRecording) ==>
        && currentMacro.Some?
        && (currentMacro.value.events == recorder.recordedEvents <==> GapsMatchReadings(recorder.recordedEvents, recorder.readings))
      ensures recorder.recordingHotkey == old(recorder.recordingHotkey)
      ensures recorder.playbackHotkey == old(recorder.playbackHotkey)
      ensures savedMacros == old(savedMacros) && isPlaying == old(isPlaying)
      ensures playerCalls == old(playerCalls) && persisted == old(persisted)
    {
      if !recorder.isRecording {
        return;
      }
      ghost var buffer, readings, last := recorder.recordedEvents, recorder.readings, recorder.lastEventTime;
      if GapsMatchReadings(buffer, readings) {
        RecordedDelaysAreFinal(buffer, readings, last);  // updateDelays keeps every delay
      } else {
        RecordedDelaysAreFinal(buffer, readings, last);  // updateDelays rewrites some delay
      }
      recorder.StopRecording();
      var macro := NewMacro(id, name, recorder.recordedEvents, created, modified);
      macro := UpdateDelays(macro);
      currentMacro := Some(macro);
    }

    /** `clearCurrentMacro()`. */
    method ClearCurrentMacro()
      requires Valid()
      modifies this, recorder`recordedEvents, recorder`readings
      ensures Valid()
      ensures currentMacro == None && recorder.recordedEvents == []
      ensures savedMacros == old(savedMacros) && isPlaying == old(isPlaying)
      ensures playerCalls == old(playerCalls) && persisted == old(persisted)
    {
      recorder.ClearRecording();
      currentMacro := None;
    }

    /** `setHotkeys(recording:playback:)`. */
    method SetHotkeys(recording: HotkeyConfig, playback: HotkeyConfig)
      requires Valid()
      modifies recorder`recordingHotkey, recorder`playbackHotkey
      ensures Valid()
      ensures recorder.recordingHotkey == Some(recording) && recorder.playbackHotkey == Some(playback)
    {
      recorder.recordingHotkey := Some(recording);
      recorder.playbackHotkey := Some(playback);
    }

    /** `saveCurrentMacro(name:)`: the rename and the new date go to the stored copy only. */
    method SaveCurrentMacro(name: Option<string>, now: Time)
      modifies this`savedMacros, this`persisted
      ensures old(currentMacro).None? ==> savedMacros == old(savedMacros) && persisted == old(persisted)
      ensures old(currentMacro).Some? ==>
        && savedMacros == Upsert(old(savedMacros), SavedCopy(currentMacro.value, name, now))
        && persisted == savedMacros
    {
      if currentMacro.None? {
        return;
      }
      var macro := currentMacro.value;
      if name.Some? {
        macro := macro.(name := name.value);
      }
      macro := macro.(modifiedAt := now);
      var index := FirstIndex(savedMacros, MacroIdOf, macro.id);
      if index.Some? {
        savedMacros := savedMacros[index.value := macro];
      } else {
        savedMacros := savedMacros + [macro];
      }
      persisted := savedMacros;
    }

    /** `deleteMacro(_:)`. */
    method DeleteMacro(macro: Macro)
      modifies this`savedMacros, this`persisted
      ensures savedMacros == RemoveAll(old(savedMacros), MacroIdOf, macro.id)
      ensures persisted == savedMacros
    {
      savedMacros := RemoveAll(savedMacros, MacroIdOf, macro.id);
      persisted := savedMacros;
    }

    /** `loadMacro(_:)`. */
    method LoadMacro(macro: Macro)
      modifies this`currentMacro
      ensures currentMacro == Some(macro)
    {
      currentMacro := Some(macro);
    }

    /** `play(macro:mode:speed:)`: refused while the player reports playing. */
    method Play(macro: Macro, mode: PlaybackMode, speed: real)
      modifies this`playerCalls
      ensures old(isPlaying) ==> playerCalls == old(playerCalls)
      ensures !old(isPlaying) ==> playerCalls == old(playerCalls) + [PlayCall(macro.events, mode, speed)]
    {
      if isPlaying {
        return;
      }
      playerCalls := playerCalls + [PlayCall(macro.events, mode, speed)];
    }

    /** `stopPlayback()`: passed to the player unconditionally. */
    method StopPlayback()
      modifies this`playerCalls
      ensures playerCalls == old(playerCalls) + [StopCall]
    {
      playerCalls := playerCalls + [StopCall];
    }

    /** `updateEventDelay(eventId:newDelay:)`. */
    method UpdateEventDelay(eventId: Uuid, newDelay: Time)
      modifies this`currentMacro
      ensures old(currentMacro).None? ==> currentMacro == None
      ensures old(currentMacro).Some? ==>
        currentMacro == Some(old(currentMacro).value.(events := SetDelay(old(currentMacro).value.events, eventId, newDelay)))
    {
      if currentMacro.None? {
        return;
      }
      var macro := currentMacro.value;
      var index := FirstIndex(macro.events, IdOf, eventId);
      if index.Some? {
        var i := index.value;
        macro := macro.(events := macro.events[i := macro.events[i].(delay := newDelay)]);
        currentMacro := Some(macro);
      }
    }

    /** `insertEvent(_:at:)`: an index outside `0...count` changes nothing. */
    method InsertEvent(event: MacroEvent, index: int)
      modifies this`currentMacro
      ensures old(currentMacro).None? ==> currentMacro == None
      ensures old(currentMacro).Some? ==>
        var m := old(currentMacro).value;
        currentMacro == if 0 <= index <= |m.events| then Some(m.(events := InsertAt(m.events, event, index))) else Some(m)
    {
      if currentMacro.None? {
        return;
      }
      var macro := currentMacro.value;
      if 0 <= index <= |macro.events| {
        macro := macro.(events := InsertAt(macro.events, event, index));
        currentMacro := Some(macro);
      }
    }

    /** `removeEvent(eventId:)`. */
    method RemoveEvent(eventId: Uuid)
      modifies this`currentMacro
      ensures old(currentMacro).None? ==> currentMacro == None
      ensures old(currentMacro).Some? ==>
        currentMacro == Some(old(currentMacro).value.(events := RemoveAll(old(currentMacro).value.events, IdOf, eventId)))
    {
      if currentMacro.None? {
        return;
      }
      var macro := currentMacro.value;
      macro := macro.(events := RemoveAll(macro.events, IdOf, eventId));
      currentMacro := Some(macro);
    }

    /** `updateEvent(_:)`. */
    method UpdateEvent(event: MacroEvent)
      modifies this`currentMacro
      ensures old(currentMacro).None? ==> currentMacro == None
      ensures old(currentMacro).Some? ==>
        currentMacro == Some(old(currentMacro).value.(events := ReplaceFirst(old(currentMacro).value.events, event)))
    {
      if currentMacro.None? {
        return;
      }
      var macro := currentMacro.value;
      var index := FirstIndex(macro.events, IdOf, event.id);
      if index.Some? {
        macro := macro.(events := macro.events[index.value := event]);
        currentMacro := Some(macro);
      }
    }

    /** `moveEvent(from:to:)`: indices out of range change nothing. */
    method MoveEvent(sourceIndex: int, destinationIndex: int)
      modifies this`currentMacro
      ensures old(currentMacro).None? ==> currentMacro == None
      ensures old(currentMacro).Some? ==>
        var m := old(currentMacro).value;
        currentMacro ==
          if 0 <= sourceIndex < |m.events| && 0 <= destinationIndex <= |m.events|
          then Some(m.(events := MoveEvents(m.events, sourceIndex, destinationIndex)))
          else Some(m)
    {
      if currentMacro.None? {
        return;
      }
      var macro := currentMacro.value;
      if !(0 <= sourceIndex < |macro.events|) {
        return;
      }
      if !(0 <= destinationIndex <= |macro.events|) {
        return;
      }
      var event := macro.events[sourceIndex];
      var events := RemoveAt(macro.events, sourceIndex);
      var adjustedDestination := if sourceIndex < destinationIndex then destinationIndex - 1 else destinationIndex;
      events := InsertAt(events, event, adjustedDestination);
      macro := macro.(events := events);
      macro := UpdateDelays(macro);
      currentMacro := Some(macro);
    }
  }
}
