/** The recorder application: the state behind the Record and Run buttons,
    the listener callbacks that turn raw mouse and keyboard events into
    records, and the Run action that replays a loaded timeline. */
module Recorder {
  import opened Events
  import opened Replay
  import opened ReplayProperties

  /** What the record button shows and does: "Record" and start recording,
      or "Recording... (Press Esc to stop)" and stop recording. */
  datatype RecordButton = StartsRecording | StopsRecording

  /** A timeline written to a file by the stop path. */
  datatype Saved = Saved(filename: string, records: seq<Record>)

  class RecorderApp {
    /** The timeline under construction, in callback order. */
    var recordedActions: seq<Record>
    /** The time of the last recorded event (or of the start of recording). */
    var startTime: real
    /** Whether the Record and Run buttons accept clicks. */
    var recordEnabled: bool
    var runEnabled: bool
    var recordButton: RecordButton

    /** When the current recording started, and whether every clock reading
        a callback has taken since then was at or after the cursor. */
    ghost var sessionStart: real
    ghost var clockMonotone: bool

    /** The delays recorded so far add up to the time from the start of the
        recording to the last recorded event; none is negative while the
        clock has not gone backwards. */
    ghost predicate Valid()
      reads this
    {
      SumTimes(recordedActions) == startTime - sessionStart &&
      (clockMonotone ==> AllNonNegative(recordedActions) && sessionStart <= startTime)
    }

    constructor (now: real)
      ensures Valid()
      ensures recordedActions == [] && startTime == now
      ensures recordEnabled && runEnabled && recordButton == StartsRecording
      ensures sessionStart == now && clockMonotone
    {
      recordedActions := [];
      startTime := now;
      recordEnabled, runEnabled := true, true;
      recordButton := StartsRecording;
      sessionStart, clockMonotone := now, true;
    }

    /** Clears the timeline, puts the cursor at `now`, and disables both
        buttons while the record button switches to stopping. The listener
        thread it starts is not modelled. */
    method StartRecording(now: real)
      modifies this
      ensures Valid()
      ensures recordedActions == [] && startTime == now
      ensures !recordEnabled && !runEnabled && recordButton == StopsRecording
      ensures sessionStart == now && clockMonotone
    {
      startTime := now;
      recordedActions := [];
      recordEnabled, runEnabled := false, false;
      recordButton := StopsRecording;
      sessionStart, clockMonotone := now, true;
    }

    /** Re-enables both buttons, restores the Record label and command, and
        writes the timeline to `filename` unless the save dialog was
        cancelled (an empty name). */
    method StopRecording(filename: string) returns (saved: Option<Saved>)
      requires Valid()
      modifies this`recordEnabled, this`runEnabled, this`recordButton
      ensures Valid()
      ensures recordEnabled && runEnabled && recordButton == StartsRecording
      ensures saved == if filename != "" then Some(Saved(filename, recordedActions)) else None
    {
      recordEnabled, runEnabled := true, true;
      recordButton := StartsRecording;
      if filename != "" {
        saved := Some(Saved(filename, recordedActions));
      } else {
        saved := None;
      }
    }

    /** Appends one record timed from the cursor, and moves the cursor to
        `now`. */
    method Append(data: Data, now: real)
      requires Valid()
      modifies this`recordedActions, this`startTime, this`clockMonotone
      ensures Valid()
      ensures recordedActions == old(recordedActions) + [Record(now - old(startTime), data)]
      ensures startTime == now
      ensures clockMonotone == (old(clockMonotone) && old(startTime) <= now)
    {
      SumTimesAppend(recordedActions, Record(now - startTime, data));
      clockMonotone := clockMonotone && startTime <= now;
      recordedActions := recordedActions + [Record(now - startTime, data)];
      startTime := now;
    }

    /** A click or release of a mouse button at (x, y). A button without a
        name is ignored. */
    method OnClick(x: int, y: int, button: Option<string>, pressed: bool, now: real)
      requires Valid()
      modifies this`recordedActions, this`startTime, this`clockMonotone
      ensures Valid()
      ensures button.None? ==>
        recordedActions == old(recordedActions) && startTime == old(startTime) &&
        clockMonotone == old(clockMonotone)
      ensures button.Some? ==>
        recordedActions == old(recordedActions) + [Record(now - old(startTime), Mouse(button.value, pressed, x, y))] &&
        startTime == now && clockMonotone == (old(clockMonotone) && old(startTime) <= now)
    {
      if button.Some? {
        Append(Mouse(button.value, pressed, x, y), now);
      }
    }

    /** Records a key event with virtual-key code `vk`. */
    method AddKeyPress(vk: int, action: string, now: real)
      requires Valid()
      modifies this`recordedActions, this`startTime, this`clockMonotone
      ensures Valid()
      ensures recordedActions == old(recordedActions) + [Record(now - old(startTime), Keyboard(vk, action))]
      ensures startTime == now
      ensures clockMonotone == (old(clockMonotone) && old(startTime) <= now)
    {
      Append(Keyboard(vk, action), now);
    }

    /** A key going down. Esc stops the recording (and `filename` is the save
        dialog's answer); a key with a code is recorded as "down"; any other
        key is ignored. */
    method OnKeyPress(key: Key, now: real, filename: string) returns (saved: Option<Saved>)
      requires Valid()
      modifies this`recordedActions, this`startTime, this`clockMonotone
      modifies this`recordEnabled, this`runEnabled, this`recordButton
      ensures Valid()
      ensures key.isEsc || KeyCode(key).None? ==> clockMonotone == old(clockMonotone)
      ensures !key.isEsc && KeyCode(key).Some? ==> clockMonotone == (old(clockMonotone) && old(startTime) <= now)
      ensures key.isEsc ==>
        recordedActions == old(recordedActions) && startTime == old(startTime) &&
        recordEnabled && runEnabled && recordButton == StartsRecording &&
        saved == (if filename != "" then Some(Saved(filename, recordedActions)) else None)
      ensures !key.isEsc ==>
        saved.None? && recordEnabled == old(recordEnabled) && runEnabled == old(runEnabled) &&
        recordButton == old(recordButton)
      ensures !key.isEsc && KeyCode(key).None? ==>
        recordedActions == old(recordedActions) && startTime == old(startTime)
      ensures !key.isEsc && KeyCode(key).Some? ==>
        recordedActions == old(recordedActions) + [Record(now - old(startTime), Keyboard(KeyCode(key).value, Down))] &&
        startTime == now
    {
      saved := None;
      if key.isEsc {
        saved := StopRecording(filename);
      } else if key.valueVk.Some? {
        AddKeyPress(key.valueVk.value, Down, now);
      } else if key.vk.Some? {
        AddKeyPress(key.vk.value, Down, now);
      }
    }

    /** A key going up: recorded as "up" when it has a code, Esc included;
        ignored otherwise. */
    method OnKeyRelease(key: Key, now: real)
      requires Valid()
      modifies this`recordedActions, this`startTime, this`clockMonotone
      ensures Valid()
      ensures KeyCode(key).None? ==>
        recordedActions == old(recordedActions) && startTime == old(startTime) &&
        clockMonotone == old(clockMonotone)
      ensures KeyCode(key).Some? ==>
        recordedActions == old(recordedActions) + [Record(now - old(startTime), Keyboard(KeyCode(key).value, Up))] &&
        startTime == now && clockMonotone == (old(clockMonotone) && old(startTime) <= now)
    {
      if key.valueVk.Some? {
        AddKeyPress(key.valueVk.value, Up, now);
      } else if key.vk.Some? {
        AddKeyPress(key.vk.value, Up, now);
      }
    }

    /** The Run action: `filename` is the open dialog's answer (empty when
        cancelled) and `loaded` the timeline read from that file. Both
        buttons are disabled for the replay and enabled again only if it
        completes; a failed replay leaves them disabled. */
    method RunRecordedActions(filename: string, loaded: seq<Record>, buttons: set<string>)
      returns (trace: seq<Command>, failure: Option<Failure>)
      modifies this`recordEnabled, this`runEnabled
      ensures filename == "" ==>
        trace == [] && failure.None? &&
        recordEnabled == old(recordEnabled) && runEnabled == old(runEnabled)
      ensures filename != "" ==>
        Playback(trace, failure) == ReplaySpec(loaded, buttons, AbortOnUnknown) &&
        recordEnabled == failure.None? && runEnabled == failure.None?
    {
      if filename == "" {
        return [], None;
      }
      recordEnabled, runEnabled := false, false;
      trace, failure := ReplayLoaded(loaded, buttons, AbortOnUnknown);
      if failure.None? {
        recordEnabled, runEnabled := true, true;
      }
    }
  }

  /** Every mouse record of the timeline names a `mouse.Button`. */
  predicate KnownButtons(rs: seq<Record>, buttons: set<string>)
  {
    forall i :: 0 <= i < |rs| && rs[i].data.Mouse? ==> rs[i].data.button in buttons
  }

  /** A timeline recorded while the clock did not go backwards, from `t0` to
      a last event at `t1`, with known button names, replays in full: each
      pass sleeps exactly `t1 - t0`, and the replay reads back as that
      timeline twenty times over. */
  lemma RecordedTimelineReplays(rs: seq<Record>, t0: real, t1: real, buttons: set<string>)
    requires AllNonNegative(rs) && SumTimes(rs) == t1 - t0
    requires KnownButtons(rs, buttons)
    ensures t0 <= t1
    ensures ReplaySpec(rs, buttons, AbortOnUnknown).failure.None?
    ensures TotalSleep(ReplaySpec(rs, buttons, AbortOnUnknown).trace) == 3.0 + (PassCount as real) * (t1 - t0)
    ensures Decode(ReplaySpec(rs, buttons, AbortOnUnknown).trace) ==
      Some([Beat(1.0, None), Beat(1.0, None), Beat(1.0, None)] + Beats(Repeat(rs, PassCount), buttons))
  {
    assert AllPlayable(rs, buttons, AbortOnUnknown) by {
      forall i | 0 <= i < |rs| ensures Playable(rs[i], buttons, AbortOnUnknown) {
        assert rs[i].time >= 0.0;
      }
    }
    SumTimesNonNegative(rs);
    ReplayCompletes(rs, buttons, AbortOnUnknown);
    ReplayDuration(rs, buttons, AbortOnUnknown);
    DecodeReplay(rs, buttons, AbortOnUnknown);
  }

  /** A session: start recording at 0.0, click the left button at 0.5,
      press key 65 at 0.8, stop with Esc and save. The saved timeline holds
      the two events with delays 0.5 and 0.3, and replaying it sleeps 0.5,
      moves to (100, 200), presses left, sleeps 0.3, presses key 65. */
  method RecordAndReplayScenario()
  {
    var app := new RecorderApp(0.0);
    app.StartRecording(0.0);
    app.OnClick(100, 200, Some("left"), true, 0.5);
    assert app.recordedActions == [Record(0.5, Mouse("left", true, 100, 200))];
    var ignored := app.OnKeyPress(Key(false, None, Some(65)), 0.8, "");
    assert KeyCode(Key(false, None, Some(65))) == Some(65);
    assert app.recordedActions == [Record(0.5, Mouse("left", true, 100, 200)), Record(0.8 - 0.5, Keyboard(65, Down))];
    var saved := app.OnKeyPress(Key(true, Some(27), None), 1.0, "macro.json");
    var timeline := [Record(0.5, Mouse("left", true, 100, 200)), Record(0.8 - 0.5, Keyboard(65, Down))];
    assert saved == Some(Saved("macro.json", timeline));
    assert app.recordEnabled && app.runEnabled;
    var trace, failure := app.RunRecordedActions("macro.json", timeline, {"left", "middle", "right"});
    ghost var pass := [Sleep(0.5), MoveTo(100, 200), Press("left"), Sleep(0.3), KeyPress(65)];
    assert AllPlayable(timeline, {"left", "middle", "right"}, AbortOnUnknown) by {
      assert timeline[0].time >= 0.0 && timeline[1].time >= 0.0;
    }
    ReplayCompletes(timeline, {"left", "middle", "right"}, AbortOnUnknown);
    assert PassTrace(timeline, {"left", "middle", "right"}, AbortOnUnknown) == pass by {
      var known := {"left", "middle", "right"};
      assert RecordStep(timeline[0], known, AbortOnUnknown).trace == [Sleep(0.5), MoveTo(100, 200), Press("left")];
      assert RecordStep(timeline[1], known, AbortOnUnknown).trace == [Sleep(0.3), KeyPress(65)];
      assert timeline[1..][1..] == [];
      assert PassTrace(timeline[1..], known, AbortOnUnknown) == [Sleep(0.3), KeyPress(65)];
    }
    assert failure.None? && trace == Countdown + Repeat(pass, PassCount);
    RepeatStartsWith(pass, PassCount);
    assert trace[3..8] == Repeat(pass, PassCount)[..5] == pass;
  }
}
