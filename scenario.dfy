/**
 * A whole load, end to end: "Battle" is requested with no restore flag and
 * no minimum duration while two other scenes are active beside the
 * overlay. The routine unloads both in list order, reclaims once, loads the
 * target while the slider climbs to 0.8 of its range, allows activation once
 * raw progress reaches 0.9, skips the pad, and closes the overlay.
 */
module Scenario {
  import opened Progress
  import opened UnloadWalk
  import opened Sequencer

  /** No minimum duration, a slider over [0, 1]. */
  const Setup: Config := Config(0.0, 0.0, 1.0)

  /** The host's active scenes when the unload loop starts. */
  const Active: seq<string> := ["Menu", "Tabletop", Overlay]

  /** A loader with nothing in flight and the pause counter at zero. */
  const Fresh: State := State(false, "", null, 0, "", 0.0, Idle, [], 0.0, 0.0, 0.0, false, [])

  /**
   * The eight frames of the scenario: the unload loop starts on `Active`,
   * both unloads complete at once, the load runs for two frames (the second
   * at raw progress 0.9 or more) and is then done, with no time going
   * backwards. Everything else the host reports is left free.
   */
  predicate BattleFrames(f: seq<(Tick, bool)>) {
    |f| == 8
    && f[1].0.scenes == Active
    && f[2].0.unloadDone && f[3].0.unloadDone
    && !f[4].0.loadDone
    && !f[5].0.loadDone && f[5].0.rawProgress >= RawCeiling
    && f[6].0.loadDone && f[6].0.time >= f[4].0.time
  }

  /** The loader while "Battle" is being loaded; only these fields change along the scenario. */
  function During(isLoading: bool, pauseCount: int, text: string, slider: real, phase: Phase,
                  scenes: seq<string>, startTime: real, allowActivation: bool, requests: seq<Request>): State {
    State(isLoading, "Battle", null, pauseCount, text, slider, phase, scenes, startTime, 0.0, 0.0, allowActivation, requests)
  }

  // The states the routine passes through, one per suspension point.

  const S0: State :=
    During(true, 0, "", 0.0, Starting, [], 0.0, false, [OpenOverlay])

  const S1: State :=
    During(true, 1, "Loading Battle...", 0.0, PreWait, [], 0.0, false, [OpenOverlay])

  const S2: State :=
    During(true, 1, "Loading Battle...", 0.0, Unloading(0), Active, 0.0, false, [OpenOverlay, Unload("Menu")])

  const S3: State :=
    During(true, 1, "Loading Battle...", 0.0, Unloading(0), ["Tabletop", Overlay], 0.0, false,
           [OpenOverlay, Unload("Menu"), Unload("Tabletop")])

  const S4: State :=
    During(true, 1, "Loading Battle...", 0.0, Reclaiming, [Overlay], 0.0, false,
           [OpenOverlay, Unload("Menu"), Unload("Tabletop"), Reclaim])

  function S5(t: Tick): State {
    During(true, 1, "Loading Battle...", LoadSlider(0.0, 1.0, t.rawProgress), Loading, [Overlay], t.time,
           LoadNormalized(t.rawProgress) >= 1.0,
           [OpenOverlay, Unload("Menu"), Unload("Tabletop"), Reclaim, LoadTarget("Battle")])
  }

  function S6(t: Tick): State {
    During(true, 1, "Loading Battle...", 0.8, Loading, [Overlay], t.time, true,
           [OpenOverlay, Unload("Menu"), Unload("Tabletop"), Reclaim, LoadTarget("Battle")])
  }

  function S7(t: Tick): State {
    During(true, 1, "Loading Battle...", 0.8, PostWait, [Overlay], t.time, true,
           [OpenOverlay, Unload("Menu"), Unload("Tabletop"), Reclaim, LoadTarget("Battle")])
  }

  function S8(t: Tick): State {
    During(false, 0, "", 0.8, Idle, [Overlay], t.time, true,
           [OpenOverlay, Unload("Menu"), Unload("Tabletop"), Reclaim, LoadTarget("Battle"), CloseOverlay])
  }

  lemma RequestAccepted()
    ensures Load(Fresh, "Battle", null) == S0 && Inv(Setup, S0)
  {
  }

  lemma AnnounceStep(t: Tick, restored: bool)
    ensures Inv(Setup, S0) && Next(Setup, S0, t, restored) == S1
  {
  }

  lemma FirstUnloadStep(t: Tick, restored: bool)
    requires t.scenes == Active
    ensures Inv(Setup, S1) && Next(Setup, S1, t, restored) == S2
  {
  }

  lemma SecondUnloadStep(t: Tick, restored: bool)
    requires t.unloadDone
    ensures Inv(Setup, S2) && Next(Setup, S2, t, restored) == S3
  {
    assert RemoveAt(Active, 0) == ["Tabletop", Overlay];
  }

  lemma ReclaimStep(t: Tick, restored: bool)
    requires t.unloadDone
    ensures Inv(Setup, S3) && Next(Setup, S3, t, restored) == S4
  {
    assert RemoveAt(["Tabletop", Overlay], 0) == [Overlay];
    assert FirstOther([Overlay], 0) == 1;
  }

  lemma LoadStartStep(t: Tick, restored: bool)
    requires !t.loadDone
    ensures Inv(Setup, S4) && Next(Setup, S4, t, restored) == S5(t)
  {
    assert Inv(Setup, S4) by {
      assert forall k :: 0 <= k < |S4.scenes| ==> S4.scenes[k] == Overlay;
    }
  }

  lemma ActivationStep(t4: Tick, t: Tick, restored: bool)
    requires !t.loadDone && t.rawProgress >= RawCeiling
    ensures Inv(Setup, S5(t4)) && Next(Setup, S5(t4), t, restored) == S6(t4)
  {
    assert Inv(Setup, S5(t4)) by {
      assert forall k :: 0 <= k < |S5(t4).scenes| ==> S5(t4).scenes[k] == Overlay;
    }
  }

  lemma PadSkippedStep(t4: Tick, t: Tick, restored: bool)
    requires t.loadDone && t.time >= t4.time
    ensures Inv(Setup, S6(t4)) && Next(Setup, S6(t4), t, restored) == S7(t4)
  {
    assert Inv(Setup, S6(t4)) by {
      assert forall k :: 0 <= k < |S6(t4).scenes| ==> S6(t4).scenes[k] == Overlay;
    }
    PadSkipped(Setup, S6(t4), t);
  }

  lemma TeardownStep(t4: Tick, t: Tick, restored: bool)
    ensures Inv(Setup, S7(t4)) && Next(Setup, S7(t4), t, restored) == S8(t4)
  {
    assert Inv(Setup, S7(t4)) by {
      assert forall k :: 0 <= k < |S7(t4).scenes| ==> S7(t4).scenes[k] == Overlay;
    }
  }

  /**
   * The scenario: both other scenes are unloaded in list order, reclamation
   * and the target's load are each asked for once, activation is allowed,
   * the pad is skipped, and the overlay is closed with the loader idle again
   * and the pause counter back at zero.
   */
  lemma {:induction false} BattleScenario(f: seq<(Tick, bool)>)
    requires BattleFrames(f)
    ensures Load(Fresh, "Battle", null) == S0 && Inv(Setup, S0)
    ensures var t := Run(Setup, S0, f);
      t.phase == Idle && !t.isLoading && t.pauseCount == 0 && t.text == ""
      && t.allowActivation && t.slider == LoadShare * Setup.sliderMax && t.scenes == [Overlay]
      && t.requests == [OpenOverlay, Unload("Menu"), Unload("Tabletop"), Reclaim, LoadTarget("Battle"), CloseOverlay]
  {
    RequestAccepted();
    UnloadHalf(f);
    LoadHalf(f);
  }

  /** The first half of the scenario: the overlay is announced and the two other scenes unloaded. */
  lemma UnloadHalf(f: seq<(Tick, bool)>)
    requires BattleFrames(f)
    ensures Run(Setup, S0, f) == Run(Setup, S4, f[4..])
  {
    assert Run(Setup, S0, f) == Run(Setup, S1, f[1..]) by {
      AnnounceStep(f[0].0, f[0].1);
      Advance(S0, S1, f);
    }
    assert Run(Setup, S1, f[1..]) == Run(Setup, S2, f[2..]) by {
      FirstUnloadStep(f[1].0, f[1].1);
      Advance(S1, S2, f[1..]);
      assert f[1..][1..] == f[2..];
    }
    assert Run(Setup, S2, f[2..]) == Run(Setup, S3, f[3..]) by {
      SecondUnloadStep(f[2].0, f[2].1);
      Advance(S2, S3, f[2..]);
      assert f[2..][1..] == f[3..];
    }
    assert Run(Setup, S3, f[3..]) == Run(Setup, S4, f[4..]) by {
      ReclaimStep(f[3].0, f[3].1);
      Advance(S3, S4, f[3..]);
      assert f[3..][1..] == f[4..];
    }
  }

  /** The second half of the scenario: the target is loaded, the pad skipped and the overlay closed. */
  lemma LoadHalf(f: seq<(Tick, bool)>)
    requires BattleFrames(f)
    ensures Run(Setup, S4, f[4..]) == S8(f[4].0)
  {
    var t4 := f[4].0;
    assert Run(Setup, S4, f[4..]) == Run(Setup, S5(t4), f[5..]) by {
      LoadStartStep(f[4].0, f[4].1);
      Advance(S4, S5(t4), f[4..]);
      assert f[4..][1..] == f[5..];
    }
    assert Run(Setup, S5(t4), f[5..]) == Run(Setup, S6(t4), f[6..]) by {
      ActivationStep(t4, f[5].0, f[5].1);
      Advance(S5(t4), S6(t4), f[5..]);
      assert f[5..][1..] == f[6..];
    }
    assert Run(Setup, S6(t4), f[6..]) == Run(Setup, S7(t4), f[7..]) by {
      PadSkippedStep(t4, f[6].0, f[6].1);
      Advance(S6(t4), S7(t4), f[6..]);
      assert f[6..][1..] == f[7..];
    }
    assert Run(Setup, S7(t4), f[7..]) == S8(t4) by {
      TeardownStep(t4, f[7].0, f[7].1);
      Advance(S7(t4), S8(t4), f[7..]);
      assert f[7..][1..] == [];
    }
  }

  /** One resumption taken off the front of a run. */
  lemma Advance(s: State, s': State, f: seq<(Tick, bool)>)
    requires Inv(Setup, s) && f != [] && Next(Setup, s, f[0].0, f[0].1) == s'
    ensures Inv(Setup, s') && Run(Setup, s, f) == Run(Setup, s', f[1..])
  {
    RunStep(Setup, s, f);
  }
}
