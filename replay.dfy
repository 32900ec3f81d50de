/** Replay of a loaded timeline: a three-second countdown, then twenty passes
    over the records in stored order, each record being a sleep of its delay
    followed by the synthetic input it maps to. The controllers and the sleeps
    are not performed here; they are emitted as a trace of commands. */
module Replay {
  import opened Events

  /** One call into the outside world: `time.sleep`, setting the mouse
      controller's position, pressing or releasing a mouse button, pressing or
      releasing a key given by its virtual-key code. */
  datatype Command =
    | Sleep(seconds: real)
    | MoveTo(x: int, y: int)
    | Press(button: string)
    | Release(button: string)
    | KeyPress(vk: int)
    | KeyRelease(vk: int)

  /** Why a replay stops part-way: `time.sleep` refuses a negative length,
      and a mouse record with an unknown button name raises a missing-key
      error where the message is built. */
  datatype Failure = NegativeSleepLength(seconds: real) | MissingButtonField

  /** What a replay did: the commands issued, in order, and the failure that
      ended it early, if any. */
  datatype Playback = Playback(trace: seq<Command>, failure: Option<Failure>)

  /** What a record with a button name outside `mouse.Button` leads to:
      `AbortOnUnknown` is the code as it stands, `SkipUnknown` the evidently
      intended log-and-continue. */
  datatype ButtonPolicy = AbortOnUnknown | SkipUnknown

  /** Number of passes over the timeline. */
  const PassCount: nat := 20

  /** The "3 2 1" countdown before the first record. */
  const Countdown: seq<Command> := [Sleep(1.0), Sleep(1.0), Sleep(1.0)]

  /** The commands issued for a record's data once its delay has been slept;
      `buttons` is the set of names `mouse.Button` has. */
  function Dispatch(d: Data, buttons: set<string>, policy: ButtonPolicy): (p: Playback)
  {
    match d
    case Mouse(b, pressed, x, y) =>
      if b in buttons then
        Playback([MoveTo(x, y), if pressed then Press(b) else Release(b)], None)
      else if policy == AbortOnUnknown then
        Playback([], Some(MissingButtonField))
      else
        Playback([], None)
    case Keyboard(vk, action) =>
      if action == Down then Playback([KeyPress(vk)], None)
      else if action == Up then Playback([KeyRelease(vk)], None)
      else Playback([], None)
    case OtherDevice(_) =>
      Playback([], None)
  }

  /** One record: sleep its delay, then dispatch its data. */
  function RecordStep(r: Record, buttons: set<string>, policy: ButtonPolicy): (p: Playback)
  {
    if r.time < 0.0 then
      Playback([], Some(NegativeSleepLength(r.time)))
    else
      var d := Dispatch(r.data, buttons, policy);
      Playback([Sleep(r.time)] + d.trace, d.failure)
  }

  /** Playing records one after another, stopping at the first failure. */
  function Run(rs: seq<Record>, buttons: set<string>, policy: ButtonPolicy): (p: Playback)
    decreases |rs|
  {
    if rs == [] then
      Playback([], None)
    else
      var before := Run(rs[..|rs| - 1], buttons, policy);
      if before.failure.Some? then
        before
      else
        var step := RecordStep(rs[|rs| - 1], buttons, policy);
        Playback(before.trace + step.trace, step.failure)
  }

  /** `n` copies of `s`, one after the other. */
  function Repeat<T>(s: seq<T>, n: nat): (r: seq<T>)
  {
    if n == 0 then [] else Repeat(s, n - 1) + s
  }

  /** What `run_recorded_actions` does with a loaded timeline. */
  function ReplaySpec(loaded: seq<Record>, buttons: set<string>, policy: ButtonPolicy): (p: Playback)
  {
    var run := Run(Repeat(loaded, PassCount), buttons, policy);
    Playback(Countdown + run.trace, run.failure)
  }

  /** The replay loop: the countdown, then for twenty passes each record in
      order, sleeping before its action. */
  method ReplayLoaded(loaded: seq<Record>, buttons: set<string>, policy: ButtonPolicy)
    returns (trace: seq<Command>, failure: Option<Failure>)
    ensures Playback(trace, failure) == ReplaySpec(loaded, buttons, policy)
  {
    trace := Countdown;
    failure := None;
    ghost var done: seq<Record> := [];
    for i := 0 to PassCount
      invariant done == Repeat(loaded, i)
      invariant trace == Countdown + Run(done, buttons, policy).trace
      invariant Run(done, buttons, policy).failure.None?
    {
      for j := 0 to |loaded|
        invariant done == Repeat(loaded, i) + loaded[..j]
        invariant trace == Countdown + Run(done, buttons, policy).trace
        invariant Run(done, buttons, policy).failure.None?
      {
        var r := loaded[j];
        ghost var before := trace;
        PlayOne(loaded, i, j, done, buttons, policy);
        if r.time < 0.0 {
          failure := Some(NegativeSleepLength(r.time));
          return;
        }
        trace := trace + [Sleep(r.time)];
        var d := Dispatch(r.data, buttons, policy);
        trace := trace + d.trace;
        assert trace == before + RecordStep(r, buttons, policy).trace;
        done := done + [r];
        if d.failure.Some? {
          failure := d.failure;
          return;
        }
      }
      assert loaded[..|loaded|] == loaded;
    }
  }

  // ---------------------------------------------------------------------
  // Helpers about Run and Repeat.

  /** Playing record `j` of pass `i` extends the run by that record, and if
      it fails, the whole replay ends there. */
  lemma PlayOne(loaded: seq<Record>, i: nat, j: nat, done: seq<Record>, buttons: set<string>, policy: ButtonPolicy)
    requires i < PassCount && j < |loaded|
    requires done == Repeat(loaded, i) + loaded[..j]
    requires Run(done, buttons, policy).failure.None?
    ensures done + [loaded[j]] == Repeat(loaded, i) + loaded[..j + 1]
    ensures Run(done + [loaded[j]], buttons, policy) ==
      Playback(Run(done, buttons, policy).trace + RecordStep(loaded[j], buttons, policy).trace,
               RecordStep(loaded[j], buttons, policy).failure)
    ensures RecordStep(loaded[j], buttons, policy).failure.Some? ==>
      Run(Repeat(loaded, PassCount), buttons, policy) == Run(done + [loaded[j]], buttons, policy)
  {
    RunExtend(done, loaded[j], buttons, policy);
    RepeatPrefix(loaded, i, j, PassCount);
    assert loaded[..j + 1] == loaded[..j] + [loaded[j]];
    if RecordStep(loaded[j], buttons, policy).failure.Some? {
      RunPrefixFailure(Repeat(loaded, PassCount), done + [loaded[j]], buttons, policy);
    }
  }

  lemma RunExtend(rs: seq<Record>, r: Record, buttons: set<string>, policy: ButtonPolicy)
    ensures Run(rs + [r], buttons, policy) ==
      if Run(rs, buttons, policy).failure.Some? then Run(rs, buttons, policy)
      else Playback(Run(rs, buttons, policy).trace + RecordStep(r, buttons, policy).trace,
                    RecordStep(r, buttons, policy).failure)
  {
    assert (rs + [r])[..|rs + [r]| - 1] == rs;
  }

  /** Once a prefix of the records has failed, the rest are never played. */
  lemma {:induction false} RunPrefixFailure(rs: seq<Record>, p: seq<Record>, buttons: set<string>, policy: ButtonPolicy)
    requires p <= rs
    requires Run(p, buttons, policy).failure.Some?
    ensures Run(rs, buttons, policy) == Run(p, buttons, policy)
    decreases |rs|
  {
    if |p| < |rs| {
      var shorter := rs[..|rs| - 1];
      assert p <= shorter;
      RunPrefixFailure(shorter, p, buttons, policy);
    } else {
      assert p == rs;
    }
  }

  lemma {:induction false} RepeatGrows<T>(s: seq<T>, i: nat, n: nat)
    requires i <= n
    ensures Repeat(s, i) <= Repeat(s, n)
    decreases n
  {
    if i < n {
      RepeatGrows(s, i, n - 1);
    }
  }

  /** The records played so far, in pass `i` at index `j`, begin the whole
      replayed sequence. */
  lemma RepeatPrefix<T>(s: seq<T>, i: nat, j: nat, n: nat)
    requires i < n && j < |s|
    ensures Repeat(s, i) + s[..j + 1] <= Repeat(s, n)
  {
    RepeatGrows(s, i + 1, n);
    assert Repeat(s, i + 1) == Repeat(s, i) + s;
  }
}
