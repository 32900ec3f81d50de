/** What a replay promises: when it completes and what it then does, where it
    stops when it does not, how long it sleeps, and that its trace carries every
    recorded payload and delay in stored order. */
module ReplayProperties {
  import opened Events
  import opened Replay

  /** A record replay gets past: its delay is a valid sleep length and, unless
      unknown buttons are skipped, a mouse record names a `mouse.Button`. */
  predicate Playable(r: Record, buttons: set<string>, policy: ButtonPolicy)
  {
    r.time >= 0.0 && (policy == AbortOnUnknown && r.data.Mouse? ==> r.data.button in buttons)
  }

  predicate AllPlayable(rs: seq<Record>, buttons: set<string>, policy: ButtonPolicy)
  {
    forall i :: 0 <= i < |rs| ==> Playable(rs[i], buttons, policy)
  }

  /** The commands of records played back to back, none failing: the
      reference concatenation, built from the front. */
  function PassTrace(rs: seq<Record>, buttons: set<string>, policy: ButtonPolicy): (r: seq<Command>)
  {
    if rs == [] then [] else RecordStep(rs[0], buttons, policy).trace + PassTrace(rs[1..], buttons, policy)
  }

  // ---------------------------------------------------------------------
  // Completion and failure of a run.

  lemma RecordStepSucceeds(r: Record, buttons: set<string>, policy: ButtonPolicy)
    ensures RecordStep(r, buttons, policy).failure.None? <==> Playable(r, buttons, policy)
  {
  }

  lemma {:induction false} PassTraceAppend(rs: seq<Record>, r: Record, buttons: set<string>, policy: ButtonPolicy)
    ensures PassTrace(rs + [r], buttons, policy) == PassTrace(rs, buttons, policy) + RecordStep(r, buttons, policy).trace
  {
    if rs == [] {
      assert rs + [r] == [r];
      assert PassTrace([r], buttons, policy) == RecordStep(r, buttons, policy).trace + PassTrace([], buttons, policy);
    } else {
      assert (rs + [r])[1..] == rs[1..] + [r];
      PassTraceAppend(rs[1..], r, buttons, policy);
    }
  }

  /** A run completes exactly when every record in it is playable, and then
      its trace is the records' commands back to back. */
  lemma {:induction false} RunCompletes(rs: seq<Record>, buttons: set<string>, policy: ButtonPolicy)
    ensures Run(rs, buttons, policy).failure.None? <==> AllPlayable(rs, buttons, policy)
    ensures AllPlayable(rs, buttons, policy) ==> Run(rs, buttons, policy).trace == PassTrace(rs, buttons, policy)
    decreases |rs|
  {
    if rs != [] {
      var init, last := rs[..|rs| - 1], rs[|rs| - 1];
      assert rs == init + [last];
      RunCompletes(init, buttons, policy);
      RecordStepSucceeds(last, buttons, policy);
      PassTraceAppend(init, last, buttons, policy);
      assert AllPlayable(rs, buttons, policy) <==>
        AllPlayable(init, buttons, policy) && Playable(last, buttons, policy) by {
        if AllPlayable(init, buttons, policy) && Playable(last, buttons, policy) {
          forall i | 0 <= i < |rs| ensures Playable(rs[i], buttons, policy) {
            if i < |init| { assert rs[i] == init[i]; }
          }
        }
        if AllPlayable(rs, buttons, policy) {
          forall i | 0 <= i < |init| ensures Playable(init[i], buttons, policy) {
            assert init[i] == rs[i];
          }
        }
      }
    }
  }

  /** A run stops at its first unplayable record `k`: the records before it
      are played in full, then record `k`'s own commands, and its failure is
      the run's. */
  lemma RunStopsAtFirstUnplayable(rs: seq<Record>, k: nat, buttons: set<string>, policy: ButtonPolicy)
    requires k < |rs| && !Playable(rs[k], buttons, policy)
    requires AllPlayable(rs[..k], buttons, policy)
    ensures Run(rs, buttons, policy) ==
      Playback(PassTrace(rs[..k], buttons, policy) + RecordStep(rs[k], buttons, policy).trace,
               RecordStep(rs[k], buttons, policy).failure)
    ensures Run(rs, buttons, policy).failure.Some?
  {
    RunCompletes(rs[..k], buttons, policy);
    RunExtend(rs[..k], rs[k], buttons, policy);
    RecordStepSucceeds(rs[k], buttons, policy);
    assert rs[..k + 1] == rs[..k] + [rs[k]];
    RunPrefixFailure(rs, rs[..k + 1], buttons, policy);
  }

  // ---------------------------------------------------------------------
  // Twenty passes.

  lemma {:induction false} PassTraceConcat(a: seq<Record>, b: seq<Record>, buttons: set<string>, policy: ButtonPolicy)
    ensures PassTrace(a + b, buttons, policy) == PassTrace(a, buttons, policy) + PassTrace(b, buttons, policy)
  {
    if a == [] {
      assert a + b == b;
    } else {
      assert (a + b)[1..] == a[1..] + b;
      PassTraceConcat(a[1..], b, buttons, policy);
    }
  }

  /** The commands of `n` passes are `n` copies of the commands of one. */
  lemma {:induction false} PassTraceRepeat(rs: seq<Record>, n: nat, buttons: set<string>, policy: ButtonPolicy)
    ensures PassTrace(Repeat(rs, n), buttons, policy) == Repeat(PassTrace(rs, buttons, policy), n)
  {
    if n > 0 {
      PassTraceRepeat(rs, n - 1, buttons, policy);
      PassTraceConcat(Repeat(rs, n - 1), rs, buttons, policy);
    }
  }

  /** Repeating a timeline at least once neither adds nor removes an
      unplayable record. */
  lemma {:induction false} AllPlayableRepeat(rs: seq<Record>, n: nat, buttons: set<string>, policy: ButtonPolicy)
    requires n > 0
    ensures AllPlayable(Repeat(rs, n), buttons, policy) <==> AllPlayable(rs, buttons, policy)
  {
    var before := Repeat(rs, n - 1);
    assert Repeat(rs, n) == before + rs;
    if n > 1 {
      AllPlayableRepeat(rs, n - 1, buttons, policy);
    } else {
      assert before == [];
    }
    if AllPlayable(rs, buttons, policy) {
      forall i | 0 <= i < |before + rs| ensures Playable((before + rs)[i], buttons, policy) {
        if i < |before| { assert (before + rs)[i] == before[i]; }
        else { assert (before + rs)[i] == rs[i - |before|]; }
      }
    }
    if AllPlayable(before + rs, buttons, policy) {
      forall i | 0 <= i < |rs| ensures Playable(rs[i], buttons, policy) {
        assert rs[i] == (before + rs)[|before| + i];
      }
    }
  }

  lemma {:induction false} RepeatStartsWith<T>(s: seq<T>, n: nat)
    requires n > 0
    ensures |s| <= |Repeat(s, n)| && Repeat(s, n)[..|s|] == s
  {
    RepeatGrows(s, 1, n);
    assert Repeat(s, 1) == Repeat(s, 0) + s == s;
  }

  /** The replay completes exactly when every loaded record is playable, and
      then it is the countdown followed by twenty copies of one pass. */
  lemma ReplayCompletes(loaded: seq<Record>, buttons: set<string>, policy: ButtonPolicy)
    ensures ReplaySpec(loaded, buttons, policy).failure.None? <==> AllPlayable(loaded, buttons, policy)
    ensures AllPlayable(loaded, buttons, policy) ==>
      ReplaySpec(loaded, buttons, policy).trace == Countdown + Repeat(PassTrace(loaded, buttons, policy), PassCount)
  {
    RunCompletes(Repeat(loaded, PassCount), buttons, policy);
    AllPlayableRepeat(loaded, PassCount, buttons, policy);
    PassTraceRepeat(loaded, PassCount, buttons, policy);
  }

  /** A replay with an unplayable record stops in the first pass, at the
      first such record `k`, after the countdown and the records before it. */
  lemma ReplayStopsAtFirstUnplayable(loaded: seq<Record>, k: nat, buttons: set<string>, policy: ButtonPolicy)
    requires k < |loaded| && !Playable(loaded[k], buttons, policy)
    requires AllPlayable(loaded[..k], buttons, policy)
    ensures ReplaySpec(loaded, buttons, policy) ==
      Playback(Countdown + PassTrace(loaded[..k], buttons, policy) + RecordStep(loaded[k], buttons, policy).trace,
               RecordStep(loaded[k], buttons, policy).failure)
  {
    var all := Repeat(loaded, PassCount);
    RepeatStartsWith(loaded, PassCount);
    assert all[k] == all[..|loaded|][k] == loaded[k];
    assert all[..k] == all[..|loaded|][..k] == loaded[..k];
    RunStopsAtFirstUnplayable(all, k, buttons, policy);
  }

  // ---------------------------------------------------------------------
  // The unknown-button defect, and the skipping replay.

  /** As written: the first record naming an unknown button ends the whole
      replay right after its sleep; nothing after it, in any pass, is played. */
  lemma UnknownButtonAborts(loaded: seq<Record>, k: nat, buttons: set<string>)
    requires k < |loaded| && loaded[k].time >= 0.0
    requires loaded[k].data.Mouse? && loaded[k].data.button !in buttons
    requires AllPlayable(loaded[..k], buttons, AbortOnUnknown)
    ensures ReplaySpec(loaded, buttons, AbortOnUnknown) ==
      Playback(Countdown + PassTrace(loaded[..k], buttons, AbortOnUnknown) + [Sleep(loaded[k].time)],
               Some(MissingButtonField))
  {
    ReplayStopsAtFirstUnplayable(loaded, k, buttons, AbortOnUnknown);
  }

  /** A two-record timeline whose first click names a button `mouse.Button`
      lacks: the key press recorded after it is never replayed. */
  lemma UnknownButtonExample()
    ensures ReplaySpec([Record(0.5, Mouse("x3", true, 100, 200)), Record(0.3, Keyboard(65, Down))],
                       {"left", "middle", "right"}, AbortOnUnknown) ==
      Playback(Countdown + [Sleep(0.5)], Some(MissingButtonField))
  {
    var loaded := [Record(0.5, Mouse("x3", true, 100, 200)), Record(0.3, Keyboard(65, Down))];
    assert loaded[..0] == [];
    UnknownButtonAborts(loaded, 0, {"left", "middle", "right"});
  }

  /** With unknown buttons skipped, every timeline of non-negative delays
      replays in full, and wherever the code as written completes, the
      skipping replay does exactly the same. */
  lemma SkipUnknownCompletes(loaded: seq<Record>, buttons: set<string>)
    ensures ReplaySpec(loaded, buttons, SkipUnknown).failure.None? <==> AllNonNegative(loaded)
    ensures AllPlayable(loaded, buttons, AbortOnUnknown) ==>
      ReplaySpec(loaded, buttons, SkipUnknown) == ReplaySpec(loaded, buttons, AbortOnUnknown)
  {
    ReplayCompletes(loaded, buttons, SkipUnknown);
    ReplayCompletes(loaded, buttons, AbortOnUnknown);
    assert AllPlayable(loaded, buttons, SkipUnknown) <==> AllNonNegative(loaded) by {
      if AllNonNegative(loaded) {
        forall i | 0 <= i < |loaded| ensures Playable(loaded[i], buttons, SkipUnknown) {
        }
      }
    }
    if AllPlayable(loaded, buttons, AbortOnUnknown) {
      assert AllPlayable(loaded, buttons, SkipUnknown) by {
        forall i | 0 <= i < |loaded| ensures Playable(loaded[i], buttons, SkipUnknown) {
          assert Playable(loaded[i], buttons, AbortOnUnknown);
        }
      }
      PassTraceAgree(loaded, buttons);
    }
  }

  lemma {:induction false} PassTraceAgree(rs: seq<Record>, buttons: set<string>)
    requires AllPlayable(rs, buttons, AbortOnUnknown)
    ensures PassTrace(rs, buttons, SkipUnknown) == PassTrace(rs, buttons, AbortOnUnknown)
  {
    if rs != [] {
      assert Playable(rs[0], buttons, AbortOnUnknown);
      assert AllPlayable(rs[1..], buttons, AbortOnUnknown) by {
        forall i | 0 <= i < |rs[1..]| ensures Playable(rs[1..][i], buttons, AbortOnUnknown) {
          assert rs[1..][i] == rs[i + 1];
        }
      }
      PassTraceAgree(rs[1..], buttons);
    }
  }

  // ---------------------------------------------------------------------
  // Timing.

  /** Total time the trace spends in `time.sleep`. */
  function TotalSleep(t: seq<Command>): (r: real)
  {
    if t == [] then 0.0 else (if t[0].Sleep? then t[0].seconds else 0.0) + TotalSleep(t[1..])
  }

  lemma {:induction false} TotalSleepConcat(a: seq<Command>, b: seq<Command>)
    ensures TotalSleep(a + b) == TotalSleep(a) + TotalSleep(b)
  {
    if a == [] {
      assert a + b == b;
    } else {
      assert (a + b)[1..] == a[1..] + b;
      TotalSleepConcat(a[1..], b);
    }
  }

  lemma {:induction false} TotalSleepRepeat(t: seq<Command>, n: nat)
    ensures TotalSleep(Repeat(t, n)) == (n as real) * TotalSleep(t)
  {
    if n > 0 {
      TotalSleepRepeat(t, n - 1);
      TotalSleepConcat(Repeat(t, n - 1), t);
    }
  }

  /** One pass sleeps, in total, the sum of the recorded delays. */
  lemma {:induction false} PassSleepsRecordedTime(rs: seq<Record>, buttons: set<string>, policy: ButtonPolicy)
    requires AllNonNegative(rs)
    ensures TotalSleep(PassTrace(rs, buttons, policy)) == SumTimes(rs)
  {
    if rs != [] {
      var r := rs[0];
      var d := Dispatch(r.data, buttons, policy);
      assert TotalSleep(d.trace) == 0.0 by {
        assert d.trace == [] || (|d.trace| <= 2 && forall c :: c in d.trace ==> !c.Sleep?);
        if d.trace != [] {
          assert TotalSleep(d.trace[1..]) == 0.0 by {
            if d.trace[1..] != [] { assert d.trace[1..][1..] == []; }
          }
        }
      }
      TotalSleepConcat([Sleep(r.time)], d.trace);
      assert TotalSleep([Sleep(r.time)]) == r.time by { assert [Sleep(r.time)][1..] == []; }
      TotalSleepConcat(RecordStep(r, buttons, policy).trace, PassTrace(rs[1..], buttons, policy));
      assert AllNonNegative(rs[1..]) by {
        forall i | 0 <= i < |rs[1..]| ensures rs[1..][i].time >= 0.0 {
          assert rs[1..][i] == rs[i + 1];
        }
      }
      PassSleepsRecordedTime(rs[1..], buttons, policy);
    }
  }

  /** A completed replay sleeps three seconds of countdown plus twenty times
      the recorded duration of the timeline. */
  lemma ReplayDuration(loaded: seq<Record>, buttons: set<string>, policy: ButtonPolicy)
    requires AllPlayable(loaded, buttons, policy)
    ensures TotalSleep(ReplaySpec(loaded, buttons, policy).trace) == 3.0 + (PassCount as real) * SumTimes(loaded)
  {
    ReplayCompletes(loaded, buttons, policy);
    var pass := PassTrace(loaded, buttons, policy);
    TotalSleepConcat(Countdown, Repeat(pass, PassCount));
    TotalSleepRepeat(pass, PassCount);
    assert AllNonNegative(loaded) by {
      forall i | 0 <= i < |loaded| ensures loaded[i].time >= 0.0 {
        assert Playable(loaded[i], buttons, policy);
      }
    }
    PassSleepsRecordedTime(loaded, buttons, policy);
    assert TotalSleep(Countdown) == 3.0 by {
      assert Countdown[1..] == [Sleep(1.0), Sleep(1.0)];
      assert Countdown[1..][1..] == [Sleep(1.0)];
      assert Countdown[1..][1..][1..] == [];
    }
  }

  // ---------------------------------------------------------------------
  // Reading a trace back.

  /** One sleep of a trace and the input it was followed by, if any. */
  datatype Beat = Beat(pause: real, input: Option<Data>)

  /** The part of a record the controllers act on: a mouse click with a known
      button, or a key going down or up; nothing for the rest. */
  function Effect(d: Data, buttons: set<string>): (r: Option<Data>)
  {
    match d
    case Mouse(b, _, _, _) => if b in buttons then Some(d) else None
    case Keyboard(_, action) => if action == Down || action == Up then Some(d) else None
    case OtherDevice(_) => None
  }

  function Beats(rs: seq<Record>, buttons: set<string>): (r: seq<Beat>)
  {
    if rs == [] then [] else [Beat(rs[0].time, Effect(rs[0].data, buttons))] + Beats(rs[1..], buttons)
  }

  /** Parses a trace back into sleeps and the input issued after each;
      `None` when the trace is not a sequence of sleep-then-input beats. */
  function Decode(t: seq<Command>): (r: Option<seq<Beat>>)
    decreases |t|
  {
    if t == [] then Some([])
    else if !t[0].Sleep? then None
    else if |t| >= 3 && t[1].MoveTo? && (t[2].Press? || t[2].Release?) then
      Prepend(Beat(t[0].seconds, Some(Mouse(t[2].button, t[2].Press?, t[1].x, t[1].y))), Decode(t[3..]))
    else if |t| >= 2 && t[1].KeyPress? then
      Prepend(Beat(t[0].seconds, Some(Keyboard(t[1].vk, Down))), Decode(t[2..]))
    else if |t| >= 2 && t[1].KeyRelease? then
      Prepend(Beat(t[0].seconds, Some(Keyboard(t[1].vk, Up))), Decode(t[2..]))
    else
      Prepend(Beat(t[0].seconds, None), Decode(t[1..]))
  }

  function Prepend(b: Beat, rest: Option<seq<Beat>>): (r: Option<seq<Beat>>)
  {
    match rest
    case None => None
    case Some(bs) => Some([b] + bs)
  }

  /** Reading back one record's commands, followed by commands that start
      with a sleep, yields that record's delay and effect first. */
  lemma DecodeStep(r: Record, tail: seq<Command>, buttons: set<string>, policy: ButtonPolicy)
    requires r.time >= 0.0
    requires tail == [] || tail[0].Sleep?
    ensures Decode(RecordStep(r, buttons, policy).trace + tail) ==
      Prepend(Beat(r.time, Effect(r.data, buttons)), Decode(tail))
  {
    var d := Dispatch(r.data, buttons, policy);
    var t := [Sleep(r.time)] + d.trace + tail;
    assert RecordStep(r, buttons, policy).trace + tail == t;
    match r.data
    case Mouse(b, pressed, x, y) =>
      if b in buttons {
        assert t[3..] == tail;
      } else {
        assert t[1..] == tail;
      }
    case Keyboard(vk, action) =>
      if action == Down || action == Up {
        assert t[2..] == tail;
      } else {
        assert t[1..] == tail;
      }
    case OtherDevice(_) =>
      assert t[1..] == tail;
  }

  /** One pass of the replay can be read back into the recorded delays and
      payloads, in stored order: nothing is reordered, dropped or altered
      between the record and the synthetic input. */
  lemma {:induction false} DecodePass(rs: seq<Record>, buttons: set<string>, policy: ButtonPolicy)
    requires AllNonNegative(rs)
    ensures Decode(PassTrace(rs, buttons, policy)) == Some(Beats(rs, buttons))
  {
    if rs != [] {
      var r, rest := rs[0], rs[1..];
      assert AllNonNegative(rest) by {
        forall i | 0 <= i < |rest| ensures rest[i].time >= 0.0 {
          assert rest[i] == rs[i + 1];
        }
      }
      DecodePass(rest, buttons, policy);
      assert rest != [] ==> rest[0].time >= 0.0;
      DecodeStep(r, PassTrace(rest, buttons, policy), buttons, policy);
    }
  }

  lemma DecodeIdleBeat(s: real, t: seq<Command>)
    requires t == [] || t[0].Sleep?
    ensures Decode([Sleep(s)] + t) == Prepend(Beat(s, None), Decode(t))
  {
    assert ([Sleep(s)] + t)[1..] == t;
  }

  lemma DecodeCountdown(tail: seq<Command>)
    requires tail == [] || tail[0].Sleep?
    ensures Decode(Countdown + tail) ==
      Prepend(Beat(1.0, None), Prepend(Beat(1.0, None), Prepend(Beat(1.0, None), Decode(tail))))
  {
    DecodeIdleBeat(1.0, tail);
    DecodeIdleBeat(1.0, [Sleep(1.0)] + tail);
    DecodeIdleBeat(1.0, [Sleep(1.0), Sleep(1.0)] + tail);
    assert [Sleep(1.0)] + ([Sleep(1.0)] + tail) == [Sleep(1.0), Sleep(1.0)] + tail;
    assert Countdown + tail == [Sleep(1.0)] + ([Sleep(1.0), Sleep(1.0)] + tail);
  }

  /** A completed replay reads back as three one-second beats with no input,
      then the timeline twenty times over. */
  lemma DecodeReplay(loaded: seq<Record>, buttons: set<string>, policy: ButtonPolicy)
    requires AllPlayable(loaded, buttons, policy)
    ensures Decode(ReplaySpec(loaded, buttons, policy).trace) ==
      Some([Beat(1.0, None), Beat(1.0, None), Beat(1.0, None)] + Beats(Repeat(loaded, PassCount), buttons))
  {
    var all := Repeat(loaded, PassCount);
    AllPlayableRepeat(loaded, PassCount, buttons, policy);
    RunCompletes(all, buttons, policy);
    var tail := PassTrace(all, buttons, policy);
    assert ReplaySpec(loaded, buttons, policy).trace == Countdown + tail;
    assert AllNonNegative(all) by {
      forall i | 0 <= i < |all| ensures all[i].time >= 0.0 {
        assert Playable(all[i], buttons, policy);
      }
    }
    DecodePass(all, buttons, policy);
    assert tail == [] || tail[0].Sleep? by {
      if all != [] { assert all[0].time >= 0.0; }
    }
    DecodeCountdown(tail);
    var idle := Beat(1.0, None);
    var beats := Beats(all, buttons);
    assert [idle] + ([idle] + ([idle] + beats)) == [idle, idle, idle] + beats;
  }
}
