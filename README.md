# Input recorder: recording and replay engine

This project models the core of a desktop macro recorder (`RecorderApp` in
`main.py`). While recording, mouse-click and key callbacks are turned into a
timeline of records `{"device", "time", "data"}`. Each `time` is the delay
since the previous recorded event. Esc stops the recording, and the timeline
is saved to a file. Playing a file runs a "3 2 1" countdown of three
one-second sleeps. It then makes twenty passes over the records in stored
order. For each record it sleeps the record's delay and then drives the mouse
or keyboard controller.

Files and modules:

- `events.dfy`, module `Events`: the record datatype (`Record`, `Data`), the
  key as the callbacks probe it (`Key`), and the total delay `SumTimes`.
- `replay.dfy`, module `Replay`: the controller commands (`Command`), the
  per-record mapping `Dispatch`, the specification `ReplaySpec` of a whole
  replay, and the loop `ReplayLoaded`. That method is proved equal to
  `ReplaySpec`.
- `replay_properties.dfy`, module `ReplayProperties`: what a replay promises.
  It covers when a replay completes, where it stops, how long it sleeps, and
  that reading the trace back gives every recorded delay and payload in order.
- `recorder.dfy`, module `Recorder`: the class `RecorderApp`. Its fields are
  the timeline, the time cursor, and the states of the two buttons. The
  module also holds the lemma that joins recording to replay, and a sample
  session.

Abstractions:

- The clock is a `real` passed as `now`.
- A sleep, a pointer move and a button or key press are emitted as a
  `Command` in a trace. They are not performed.
- The names that `mouse.Button` has are a set parameter `buttons`.
- The save and open dialogs are a `filename` parameter. An empty string
  means the user cancelled.
- The result of `json.load` is a `seq<Record>` parameter. The model takes it
  to hold what `json.dump` wrote.
- A key is modelled by the answers to the callbacks' probes (`Key`): is it
  `Key.esc`, does `key.value.vk` exist, does `key.vk` exist. This is a
  record rather than a plain tag. The reason is that Esc also has
  `value.vk`, and the release callback does not check for Esc, so an Esc
  release is recorded as `"up"` together with its code.

The model follows the code as written, including these points:

- A replay makes twenty passes over the timeline, not one.
- A mouse record whose button name is not in `mouse.Button` ends the whole
  replay, instead of being skipped. See Findings.
- A negative delay ends the replay, because `time.sleep` refuses a negative
  length. A delay can be negative when the wall clock goes backwards during
  recording.
- When a replay ends early, the statements that re-enable the two buttons
  (main.py:180-181) are never reached. Both buttons then stay disabled.
- No state machine guards against overlapping sessions. The only guard is
  the enabled state of the buttons.

## Model

| member | source | states |
|---|---|---|
| Recorder.RecorderApp.constructor | main.py:24-29 | the app starts with an empty timeline, the cursor at the current time, both buttons enabled, and the record button set to start recording |
| Recorder.RecorderApp.StartRecording | main.py:31-41 | the timeline is emptied and the cursor is set to `now`. Both buttons are disabled and the record button switches to stopping. The sum-of-delays invariant holds again, from this new start |
| Recorder.RecorderApp.StopRecording | main.py:43-60 | both buttons are enabled again and the Record label and command come back. The timeline and cursor do not change. The timeline is written, in append order, exactly when a filename was chosen |
| Recorder.RecorderApp.Append | main.py:73-86 | appends exactly one record, timed `now - old(startTime)`. Earlier records are unchanged and the cursor moves to `now`. The delays still sum to cursor minus recording start, and none is negative while the clock has not gone backwards |
| Recorder.RecorderApp.OnClick | main.py:71-87 | a button without a name leaves the timeline and the cursor unchanged. Otherwise it appends one mouse record with the name, pressed flag and coordinates, timed from the cursor, and the cursor moves to `now` |
| Recorder.RecorderApp.OnKeyPress | main.py:89-100 | Esc appends nothing and runs the stop path, which re-enables the buttons and saves if a name was chosen. A key with a code appends a `"down"` record with `KeyCode(key)`, timed from the cursor. A key with no code changes nothing. A key that is not Esc never changes the button state. The clock flag of `Valid()` is kept on Esc and on a key with no code; on a recorded key it stays set exactly when `now` is not before the cursor |
| Recorder.RecorderApp.OnKeyRelease | main.py:102-110 | a key with a code, Esc included, appends an `"up"` record with `KeyCode(key)`, timed from the cursor. A key with no code changes nothing |
| Recorder.RecorderApp.AddKeyPress | main.py:112-124 | appends exactly one keyboard record with the given code and action, timed from the cursor, and moves the cursor to `now` |
| Recorder.RecorderApp.RunRecordedActions | main.py:126-181 | with no file chosen, nothing happens. Otherwise the replay is `ReplaySpec` with unknown buttons aborting. Both buttons end up enabled exactly when the replay completed |
| Recorder.RecordedTimelineReplays | main.py:143-178 | a timeline recorded from `t0` to a last event at `t1`, with no negative delay and only known buttons, has `t0 <= t1` and replays in full. The replay sleeps `3 + 20 * (t1 - t0)` seconds in total. It reads back as the timeline twenty times over, after three idle beats |
| Events.KeyCode | main.py:93-96 | the recorded code is `key.value.vk` when that exists, otherwise `key.vk`. There is none exactly when the key has neither |
| Events.SumTimesAppend | main.py:117-124 | appending a record adds its delay to the recorded duration |
| Events.SumTimesNonNegative | main.py:77-86 | a timeline with no negative delay has a non-negative total duration |
| Replay.ReplayLoaded | main.py:143-178 | the countdown-then-twenty-passes loop produces exactly the trace and failure of `ReplaySpec`. Each record sleeps before its action, and the loop stops at the first failure |
| Replay.RunPrefixFailure | main.py:150-152 | once a prefix of the records has failed, no later record is played |
| ReplayProperties.RecordStepSucceeds | main.py:152-168 | one record is played without failure exactly when its delay is non-negative and, under the as-written policy, its mouse button is known |
| ReplayProperties.RunCompletes | main.py:150-178 | a run completes exactly when every record is playable. It then issues every record's commands back to back, in stored order |
| ReplayProperties.RunStopsAtFirstUnplayable | main.py:150-168 | a run ends at its first unplayable record. It issues the records before it in full, then that record's own commands, and fails with that record's failure |
| ReplayProperties.ReplayCompletes | main.py:143-153 | a replay completes exactly when every loaded record is playable. It is then the three one-second sleeps followed by twenty copies of one pass |
| ReplayProperties.ReplayStopsAtFirstUnplayable | main.py:150-168 | a replay with an unplayable record stops in the first pass, at the first such record, after the countdown and the records before it |
| ReplayProperties.UnknownButtonAborts | main.py:157-168 | as written, the first mouse record naming an unknown button ends the replay right after its sleep, with the missing-field error. Nothing after it runs, in any pass |
| ReplayProperties.UnknownButtonExample | main.py:155-168 | a click on a button named `x3` followed by a key press: the replay sleeps 0.5 s and aborts, and the key is never pressed |
| ReplayProperties.SkipUnknownCompletes | main.py:157-168 | when unknown buttons are skipped, a replay completes exactly when no delay is negative. On every timeline where the as-written replay completes, the skipping replay gives the same result |
| ReplayProperties.PassTraceRepeat | main.py:150-151 | the commands of twenty passes are twenty copies of the commands of one pass |
| ReplayProperties.AllPlayableRepeat | main.py:150-151 | repeating the timeline neither adds nor removes an unplayable record |
| ReplayProperties.PassSleepsRecordedTime | main.py:151-152 | one pass sleeps, in total, exactly the sum of the recorded delays |
| ReplayProperties.ReplayDuration | main.py:143-152 | a completed replay sleeps 3 seconds of countdown plus 20 times the timeline's recorded duration |
| ReplayProperties.DecodeStep | main.py:155-178 | one record's commands read back as its delay and its effect. The effect is the click (button, pressed, x, y) for a known button, the key code with `"down"` or `"up"`, and nothing for any other action or device |
| ReplayProperties.DecodePass | main.py:150-178 | one pass reads back as the records' delays and effects, in stored order, with nothing dropped, reordered or altered |
| ReplayProperties.DecodeReplay | main.py:143-178 | a completed replay reads back as three idle one-second beats, then the timeline repeated twenty times |

## Left out

- tkinter window, labels and `mainloop` (main.py:1-22, 184-187): only the enabled state of the two buttons and the record button's label and command are kept.
- The listener thread and the `mouse.Listener` and `keyboard.Listener` objects, with their `join` and `stop` (main.py:40-41, 48-51, 62-69): these are concurrency and OS hooks. Callbacks are modelled as sequential method calls.
- `json.dump` and `json.load`, and opening files (main.py:59-60, 134-135): the saved timeline is returned as a value, and the loaded one is a parameter. Malformed files, which would raise a missing-key or type error, are not modelled.
- `time.time` and `time.sleep`: the clock is a parameter and sleeps are `Sleep` commands. Floating-point rounding of the delays is not modelled.
- The pynput controllers and `KeyCode.from_vk`: they appear as trace commands.
- `print` logging, including the messages for unknown keys, unknown buttons and unknown actions.
- The unused fields `ctlr_pressed` and `shift_pressed` (main.py:25-26).
- `hasattr(mouse.Button, name)` is modelled as membership in a set of button names. An attribute of the enum class that is not a button, which `getattr` would also find, is not modelled.
- A key whose `vk` attribute exists but holds `None` (a `KeyCode` without a virtual-key code) is treated as a key without a code. The program instead records `{"key": None, ...}` (main.py:95-96, 105-106), and replaying that record calls `KeyCode.from_vk(None)`. The model records nothing for such a key.
- setup.py is not part of this model: it is a build configuration with no logic.

## Findings

| source | as written | input that shows it | evidently intended | confidence | as-written member | corrected member |
|---|---|---|---|---|---|---|
| main.py:168 | for a mouse record whose button name is not in `mouse.Button`, the message reads `action["button"]`, but records keep the button under `data`, so the missing-key error ends the whole replay and leaves both buttons disabled | the timeline `[{time 0.5, mouse "x3" pressed at (100, 200)}, {time 0.3, key 65 down}]`: the replay sleeps 0.5 s and stops, and key 65 is never pressed | log the unknown button, skip that one record and go on | high, by reading; not executed | ReplayProperties.UnknownButtonExample | ReplayProperties.SkipUnknownCompletes |

The skipping behaviour is the `SkipUnknown` policy of `Replay.Dispatch`.
`RecorderApp.RunRecordedActions` keeps the as-written `AbortOnUnknown` policy,
so that the class models what the program does. `SkipUnknownCompletes` shows
that the two policies agree on every timeline the program replays without
failing.
