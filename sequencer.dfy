/**
 * The scene loader as a state machine over values: the process-wide load
 * request, the pause counter, the overlay's widgets and the start-up
 * routine's progress, with one transition per resumption of that routine.
 * Each phase is a point where the routine is suspended waiting for the host;
 * the host's observations for one resumption arrive as a `Tick`.
 */
module Sequencer {
  import opened Progress
  import opened UnloadWalk

  /** The external object that reports when post-load state restoration is done. */
  class RestoreFlag {
    var IsRestored: bool
  }

  /** Where the loader is: idle, or suspended at one of the routine's waits. */
  datatype Phase =
    | Idle                   // no load in flight
    | Starting               // the overlay was requested; its start-up routine has not run yet
    | PreWait                // the settle wait before unloading
    | Unloading(index: nat)  // waiting for the unload of the scene at `index`
    | Reclaiming             // waiting for unused resources to be reclaimed
    | Loading                // one frame of the progress loop has run
    | RestoreWait            // waiting for the restore flag
    | Padding                // one frame of the minimum-duration pad has run
    | PostWait               // the settle wait before teardown

  /** What the loader asks of the host, in the order it asks. */
  datatype Request =
    | OpenOverlay            // load the overlay scene additively
    | Unload(scene: string)  // unload one scene
    | Reclaim                // reclaim unused resources
    | LoadTarget(scene: string)  // load the target additively, activation held back
    | CloseOverlay           // unload the overlay scene, completion never awaited

  /** The host's observations for one resumption of the routine. */
  datatype Tick = Tick(
    scenes: seq<string>,  // the active scenes, read when the unload loop starts
    unloadDone: bool,     // the awaited unload has completed
    rawProgress: real,    // the target load's progress
    loadDone: bool,       // the target load has completed
    time: real,           // the current time
    deltaTime: Duration)  // the length of the last frame

  /** The overlay's configuration: minimum load duration and the slider's range. */
  datatype Config = Config(minLoadTime: real, sliderMin: real, sliderMax: real)

  /** Everything the loader reads or writes. */
  datatype State = State(
    isLoading: bool,
    sceneToLoad: string,
    restoreFlag: RestoreFlag?,
    pauseCount: int,
    text: string,
    slider: real,
    phase: Phase,
    scenes: seq<string>,
    startTime: real,
    leftTime: Duration,
    timer: Duration,
    allowActivation: bool,
    requests: seq<Request>)

  /** The phases at which the routine has raised the pause counter and not yet lowered it. */
  predicate Paused(p: Phase) {
    !p.Idle? && !p.Starting?
  }

  /** The phases after the unload loop, when only overlays are left active. */
  predicate PastUnloading(p: Phase) {
    p.Reclaiming? || p.Loading? || p.RestoreWait? || p.Padding? || p.PostWait?
  }

  /**
   * What holds of the loader at every suspension point. Once the unload loop
   * is over, no scene but the overlay is left active.
   */
  predicate Inv(cfg: Config, s: State)
    ensures Inv(cfg, s) && PastUnloading(s.phase) ==> Others(s.scenes) == []
  {
    (s.isLoading <==> !s.phase.Idle?)
    && (s.phase.Idle? ==> s.restoreFlag == null && s.text == "")
    && (s.phase.Unloading? ==>
          s.phase.index < |s.scenes| && s.scenes[s.phase.index] != Overlay
          && forall k :: 0 <= k < s.phase.index ==> s.scenes[k] == Overlay)
    && (PastUnloading(s.phase) ==> forall k :: 0 <= k < |s.scenes| ==> s.scenes[k] == Overlay)
    && (s.phase.RestoreWait? ==> s.restoreFlag != null)
    && (s.phase.Padding? ==> s.leftTime > 0.0 && s.slider == PadSlider(cfg.sliderMax, s.timer, s.leftTime))
    && (s.phase.PostWait? && s.leftTime > 0.0 ==> s.slider == cfg.sliderMax)
  }

  /** A load request: dropped while a load is in flight, otherwise recorded and the overlay requested. */
  function Load(s: State, scene: string, flag: RestoreFlag?): (t: State)
    ensures t.isLoading
    ensures s.isLoading ==> t == s
    ensures !s.isLoading ==> t.sceneToLoad == scene && t.restoreFlag == flag && t.phase == Starting
                             && t.requests == s.requests + [OpenOverlay]
  {
    if s.isLoading then s
    else s.(isLoading := true, restoreFlag := flag, sceneToLoad := scene,
            phase := Starting, requests := s.requests + [OpenOverlay])
  }

  /** The unload loop resumed at index `i`: request the next scene to unload, or move on to reclaiming. */
  function ResumeUnloading(s: State, i: nat): (t: State)
    requires i <= |s.scenes|
    ensures t.phase.Unloading? || t.phase == Reclaiming
    ensures t.phase.Unloading? ==>
              var j := t.phase.index;
              i <= j < |s.scenes| && s.scenes[j] != Overlay && (forall k :: i <= k < j ==> s.scenes[k] == Overlay)
              && t.requests == s.requests + [Unload(s.scenes[j])]
    ensures t.phase == Reclaiming ==>
              (forall k :: i <= k < |s.scenes| ==> s.scenes[k] == Overlay) && t.requests == s.requests + [Reclaim]
    ensures t == s.(phase := t.phase, requests := t.requests)
  {
    var j := FirstOther(s.scenes, i);
    if j < |s.scenes| then s.(phase := Unloading(j), requests := s.requests + [Unload(s.scenes[j])])
    else s.(phase := Reclaiming, requests := s.requests + [Reclaim])
  }

  /** One check of the progress loop: draw a frame while the load runs, otherwise go on to the restore wait. */
  function LoadingTick(cfg: Config, s: State, tick: Tick): (t: State)
    ensures !tick.loadDone ==>
              t.phase == Loading && t.slider == LoadSlider(cfg.sliderMin, cfg.sliderMax, tick.rawProgress)
              && (t.allowActivation <==> s.allowActivation || tick.rawProgress >= RawCeiling)
    ensures tick.loadDone ==> t.allowActivation == s.allowActivation
    ensures tick.loadDone && s.restoreFlag != null ==> t == s.(phase := RestoreWait)
    ensures tick.loadDone && s.restoreFlag == null ==> t == StartPad(cfg, s, tick) && (t.phase.Padding? || t.phase == PostWait)
    ensures t == s.(slider := t.slider, allowActivation := t.allowActivation, phase := t.phase,
                    leftTime := t.leftTime, timer := t.timer)
  {
    if !tick.loadDone then
      s.(slider := LoadSlider(cfg.sliderMin, cfg.sliderMax, tick.rawProgress),
         allowActivation := if LoadNormalized(tick.rawProgress) >= 1.0 then true else s.allowActivation,
         phase := Loading)
    else if s.restoreFlag != null then s.(phase := RestoreWait)
    else StartPad(cfg, s, tick)
  }

  /** Work out the time still owed to the minimum duration and start the pad loop. */
  function StartPad(cfg: Config, s: State, tick: Tick): (t: State)
    ensures t.phase.Padding? || t.phase == PostWait
    ensures t.phase == PostWait <==> tick.time - s.startTime >= cfg.minLoadTime
    ensures t.phase.Padding? ==> t.leftTime == cfg.minLoadTime - (tick.time - s.startTime) && t.timer == tick.deltaTime
    ensures t == s.(leftTime := t.leftTime, timer := t.timer, slider := t.slider, phase := t.phase)
  {
    PadTick(cfg, s.(leftTime := LeftTime(cfg.minLoadTime, tick.time - s.startTime), timer := 0.0), tick)
  }

  /** One check of the pad loop: draw a frame while time is owed, otherwise go on to the last wait. */
  function PadTick(cfg: Config, s: State, tick: Tick): (t: State)
    ensures t.phase.Padding? || t.phase == PostWait
    ensures t.phase == PostWait <==> s.timer >= s.leftTime
    ensures t.phase.Padding? ==> t.timer == s.timer + tick.deltaTime && t.leftTime > 0.0
    ensures t.phase.Padding? && cfg.sliderMax >= 0.0 ==> LoadShare * cfg.sliderMax <= t.slider <= cfg.sliderMax
    ensures t == s.(timer := t.timer, slider := t.slider, phase := t.phase)
  {
    if s.timer < s.leftTime then
      var t := s.timer + tick.deltaTime;
      s.(timer := t, slider := PadSlider(cfg.sliderMax, t, s.leftTime), phase := Padding)
    else s.(phase := PostWait)
  }

  /**
   * One resumption of the routine, from the wait it is suspended at to the
   * next; `restored` is what the restore flag reads.
   */
  function Next(cfg: Config, s: State, tick: Tick, restored: bool): (t: State)
    requires Inv(cfg, s)
    ensures s.phase.Idle? ==> t == s
    ensures t.sceneToLoad == s.sceneToLoad
    ensures s.requests <= t.requests && |t.requests| <= |s.requests| + 1
    ensures t.phase.Idle? ==> s.phase.Idle? || s.phase == PostWait
  {
    match s.phase
    case Idle => s
    case Starting =>
      s.(text := "Loading " + s.sceneToLoad + "...", pauseCount := s.pauseCount + 1, phase := PreWait)
    case PreWait => ResumeUnloading(s.(scenes := tick.scenes), 0)
    case Unloading(i) =>
      if tick.unloadDone then ResumeUnloading(s.(scenes := RemoveAt(s.scenes, i)), i) else s
    case Reclaiming =>
      LoadingTick(cfg, s.(startTime := tick.time, allowActivation := false,
                          requests := s.requests + [LoadTarget(s.sceneToLoad)]), tick)
    case Loading => LoadingTick(cfg, s, tick)
    case RestoreWait => if restored then StartPad(cfg, s, tick) else s
    case Padding => PadTick(cfg, s, tick)
    case PostWait =>
      s.(requests := s.requests + [CloseOverlay], isLoading := false, restoreFlag := null,
         pauseCount := s.pauseCount - 1, text := "", phase := Idle)
  }

  /** Every resumption keeps the invariant. */
  lemma NextPreservesInv(cfg: Config, s: State, tick: Tick, restored: bool)
    requires Inv(cfg, s)
    ensures Inv(cfg, Next(cfg, s, tick, restored))
  {
    match s.phase
    case Idle =>
    case Starting =>
    case PreWait =>
      ResumeUnloadingInv(cfg, s.(scenes := tick.scenes), 0);
    case Unloading(i) =>
      if tick.unloadDone {
        var s' := RemoveAt(s.scenes, i);
        assert forall k :: 0 <= k < i ==> s'[k] == s.scenes[k];
        ResumeUnloadingInv(cfg, s.(scenes := s'), i);
      }
    case Reclaiming =>
      LoadingTickInv(cfg, s.(startTime := tick.time, allowActivation := false,
                             requests := s.requests + [LoadTarget(s.sceneToLoad)]), tick);
    case Loading =>
      LoadingTickInv(cfg, s, tick);
    case RestoreWait =>
      if restored { StartPadInv(cfg, s, tick); }
    case Padding =>
      PadTickInv(cfg, s, tick);
    case PostWait =>
  }

  lemma ResumeUnloadingInv(cfg: Config, s: State, i: nat)
    requires s.isLoading && i <= |s.scenes|
    requires forall k :: 0 <= k < i ==> s.scenes[k] == Overlay
    ensures Inv(cfg, ResumeUnloading(s, i))
  {
  }

  lemma LoadingTickInv(cfg: Config, s: State, tick: Tick)
    requires s.isLoading && !s.phase.Padding? && forall k :: 0 <= k < |s.scenes| ==> s.scenes[k] == Overlay
    ensures Inv(cfg, LoadingTick(cfg, s, tick))
  {
    if tick.loadDone && s.restoreFlag == null {
      StartPadInv(cfg, s, tick);
    }
  }

  lemma StartPadInv(cfg: Config, s: State, tick: Tick)
    requires s.isLoading && !s.phase.Padding? && forall k :: 0 <= k < |s.scenes| ==> s.scenes[k] == Overlay
    ensures Inv(cfg, StartPad(cfg, s, tick))
  {
    PadTickInv(cfg, s.(leftTime := LeftTime(cfg.minLoadTime, tick.time - s.startTime), timer := 0.0), tick);
  }

  lemma PadTickInv(cfg: Config, s: State, tick: Tick)
    requires s.isLoading && forall k :: 0 <= k < |s.scenes| ==> s.scenes[k] == Overlay
    requires if s.phase.Padding? then s.leftTime > 0.0 && s.slider == PadSlider(cfg.sliderMax, s.timer, s.leftTime)
             else s.timer == 0.0
    ensures Inv(cfg, PadTick(cfg, s, tick))
  {
    if s.timer < s.leftTime {
      var t := s.timer + tick.deltaTime;
      assert PadTick(cfg, s, tick) == s.(timer := t, slider := PadSlider(cfg.sliderMax, t, s.leftTime), phase := Padding);
    } else {
      assert PadTick(cfg, s, tick) == s.(phase := PostWait);
    }
  }

  /** A load request keeps the invariant. */
  lemma LoadPreservesInv(cfg: Config, s: State, scene: string, flag: RestoreFlag?)
    requires Inv(cfg, s)
    ensures Inv(cfg, Load(s, scene, flag))
  {
  }

  /** The routine driven through a sequence of resumptions, each with its observations and the flag's reading. */
  function Run(cfg: Config, s: State, frames: seq<(Tick, bool)>): (t: State)
    requires Inv(cfg, s)
    ensures Inv(cfg, t)
    decreases |frames|
  {
    if frames == [] then s
    else
      NextPreservesInv(cfg, s, frames[0].0, frames[0].1);
      Run(cfg, Next(cfg, s, frames[0].0, frames[0].1), frames[1..])
  }

  lemma RunStep(cfg: Config, s: State, frames: seq<(Tick, bool)>)
    requires Inv(cfg, s) && frames != []
    ensures Inv(cfg, Next(cfg, s, frames[0].0, frames[0].1))
    ensures Run(cfg, s, frames) == Run(cfg, Next(cfg, s, frames[0].0, frames[0].1), frames[1..])
  {
    NextPreservesInv(cfg, s, frames[0].0, frames[0].1);
  }

  /** The unload requests for `scenes`, in order. */
  function Unloads(scenes: seq<string>): (r: seq<Request>)
    ensures |r| == |scenes|
    ensures forall k :: 0 <= k < |r| ==> r[k] == Unload(scenes[k])
  {
    if scenes == [] then [] else [Unload(scenes[0])] + Unloads(scenes[1..])
  }

  // ---------------------------------------------------------------------
  // The load request guard

  /** While a load is in flight a request changes nothing. */
  lemma LoadIgnoredWhileLoading(s: State, scene: string, flag: RestoreFlag?)
    requires s.isLoading
    ensures Load(s, scene, flag) == s
  {
  }

  /**
   * An accepted request records the target and the flag, marks a load in
   * flight, asks for the overlay once, and touches nothing else.
   */
  lemma LoadAccepted(s: State, scene: string, flag: RestoreFlag?)
    requires !s.isLoading
    ensures var t := Load(s, scene, flag);
      t.isLoading && t.sceneToLoad == scene && t.restoreFlag == flag && t.phase == Starting
      && t.requests == s.requests + [OpenOverlay]
      && t.(isLoading := s.isLoading, sceneToLoad := s.sceneToLoad, restoreFlag := s.restoreFlag,
            phase := s.phase, requests := s.requests) == s
  {
  }

  /** Of two requests in a row, the second is dropped and the first target stays. */
  lemma SecondLoadDropped(s: State, first: string, f: RestoreFlag?, second: string, g: RestoreFlag?)
    requires !s.isLoading
    ensures Load(Load(s, first, f), second, g) == Load(s, first, f)
    ensures Load(Load(s, first, f), second, g).sceneToLoad == first
  {
  }

  // ---------------------------------------------------------------------
  // Announcement and the unload loop

  /** The first resumption shows the target's name and raises the pause counter. */
  lemma StartAnnounces(cfg: Config, s: State, tick: Tick, restored: bool)
    requires Inv(cfg, s) && s.phase == Starting
    ensures var t := Next(cfg, s, tick, restored);
      t.text == "Loading " + s.sceneToLoad + "..." && t.pauseCount == s.pauseCount + 1 && t.phase == PreWait
  {
  }

  /** While the awaited unload has not completed, the routine stays where it is. */
  lemma UnloadAwaited(cfg: Config, s: State, tick: Tick, restored: bool)
    requires Inv(cfg, s) && s.phase.Unloading? && !tick.unloadDone
    ensures Next(cfg, s, tick, restored) == s
  {
  }

  /** No resumption ever asks the host to unload the overlay. */
  lemma NeverUnloadsOverlay(cfg: Config, s: State, tick: Tick, restored: bool)
    requires Inv(cfg, s)
    ensures var t := Next(cfg, s, tick, restored);
      |s.requests| <= |t.requests| && t.requests[..|s.requests|] == s.requests
      && forall k :: |s.requests| <= k < |t.requests| ==> t.requests[k] != Unload(Overlay)
  {
  }

  /** A completed unload drops the scene from the host's list and the loop resumes at the same index. */
  lemma UnloadCompleted(cfg: Config, s: State, tick: Tick, restored: bool)
    requires Inv(cfg, s) && s.phase.Unloading? && tick.unloadDone
    ensures var s' := RemoveAt(s.scenes, s.phase.index);
      var j := FirstOther(s', s.phase.index);
      Next(cfg, s, tick, restored)
        == if j < |s'| then s.(scenes := s', phase := Unloading(j), requests := s.requests + [Unload(s'[j])])
           else s.(scenes := s', phase := Reclaiming, requests := s.requests + [Reclaim])
  {
  }

  /**
   * The loop as written resumes at `i + 1` after a completed unload. On
   * [Menu, Tabletop, LoadScene] that reaches reclamation with Tabletop
   * still active, a state outside `Inv`, whose overlays-only clause holds
   * only for the corrected walk.
   */
  lemma AsWrittenStepLeavesScene(cfg: Config, s: State)
    requires Inv(cfg, s) && s.phase == Unloading(0) && s.scenes == ["Menu", "Tabletop", Overlay]
    ensures var t := ResumeUnloading(s.(scenes := RemoveAt(s.scenes, 0)), 1);
      t.phase == Reclaiming && t.scenes == ["Tabletop", Overlay] && !Inv(cfg, t)
  {
    assert RemoveAt(s.scenes, 0) == ["Tabletop", Overlay];
    assert FirstOther(["Tabletop", Overlay], 1) == 2;
  }

  /**
   * Resumed after each completed unload, the loop follows the corrected
   * walk from the awaited index: it asks for the rest of that walk's
   * unloads, then for reclamation, and the host is left with the walk's
   * remaining scenes; nothing else changes.
   */
  lemma {:induction false} UnloadingFollowsWalk(cfg: Config, s: State, frames: seq<(Tick, bool)>)
    requires Inv(cfg, s) && s.phase.Unloading?
    requires |frames| == |Walk(s.scenes, s.phase.index).unloaded|
    requires forall k :: 0 <= k < |frames| ==> frames[k].0.unloadDone
    ensures var w := Walk(s.scenes, s.phase.index);
      Run(cfg, s, frames) == s.(phase := Reclaiming, scenes := w.remaining,
                                requests := s.requests + Unloads(w.unloaded[1..]) + [Reclaim])
    decreases |frames|, 1
  {
    var i := s.phase.index;
    var s' := RemoveAt(s.scenes, i);
    var j := FirstOther(s', i);
    var w := Walk(s.scenes, i);
    assert w.unloaded[1..] == Walk(s', j).unloaded && w.remaining == Walk(s', j).remaining by {
      WalkSkipsOverlays(s', i);
    }
    RunStep(cfg, s, frames);
    UnloadCompleted(cfg, s, frames[0].0, frames[0].1);
    if j < |s'| {
      NextUnloadFollowsWalk(cfg, s, frames);
    } else {
      assert Walk(s', j).unloaded == [] && Walk(s', j).remaining == s';
      assert frames[1..] == [];
    }
  }

  /** The case of `UnloadingFollowsWalk` where another scene is left to unload after the first. */
  lemma {:induction false} NextUnloadFollowsWalk(cfg: Config, s: State, frames: seq<(Tick, bool)>)
    requires Inv(cfg, s) && s.phase.Unloading?
    requires |frames| == |Walk(s.scenes, s.phase.index).unloaded|
    requires forall k :: 0 <= k < |frames| ==> frames[k].0.unloadDone
    requires FirstOther(RemoveAt(s.scenes, s.phase.index), s.phase.index) < |s.scenes| - 1
    ensures var s' := RemoveAt(s.scenes, s.phase.index);
      var w := Walk(s', FirstOther(s', s.phase.index));
      Run(cfg, s, frames) == s.(phase := Reclaiming, scenes := w.remaining,
                                requests := s.requests + Unloads(w.unloaded) + [Reclaim])
    decreases |frames|, 0
  {
    var i := s.phase.index;
    var s' := RemoveAt(s.scenes, i);
    var j := FirstOther(s', i);
    var t := s.(scenes := s', phase := Unloading(j), requests := s.requests + [Unload(s'[j])]);
    assert Run(cfg, s, frames) == Run(cfg, t, frames[1..]) && Inv(cfg, t) by {
      RunStep(cfg, s, frames);
      UnloadCompleted(cfg, s, frames[0].0, frames[0].1);
    }
    var w := Walk(s', j);
    var rest := Walk(RemoveAt(s', j), j);
    assert w.unloaded == [s'[j]] + rest.unloaded && w.remaining == rest.remaining;
    assert |frames[1..]| == |w.unloaded| by {
      WalkSkipsOverlays(s', i);
    }
    assert Run(cfg, t, frames[1..]) == t.(phase := Reclaiming, scenes := w.remaining,
                                         requests := t.requests + Unloads(w.unloaded[1..]) + [Reclaim]) by {
      assert forall k :: 0 <= k < |frames[1..]| ==> frames[1..][k] == frames[k + 1];
      UnloadingFollowsWalk(cfg, t, frames[1..]);
    }
    assert w.unloaded[1..] == rest.unloaded;
    UnloadsCons(s.requests, s'[j], rest.unloaded);
  }

  /** Asking for the unload of `x` and then of `xs` is asking for the unloads of `[x] + xs`. */
  lemma UnloadsCons(before: seq<Request>, x: string, xs: seq<string>)
    ensures before + [Unload(x)] + Unloads(xs) == before + Unloads([x] + xs)
  {
    assert ([x] + xs)[1..] == xs;
  }

  /**
   * The unload loop as a whole: started after the settle wait on the host's
   * list of active scenes, and resumed once after each completed unload, it
   * asks the host to unload every scene other than the overlay, in list
   * order, then to reclaim unused resources, and leaves only the overlays
   * active.
   */
  lemma UnloadPhaseUnloadsEveryOtherScene(cfg: Config, s: State, frames: seq<(Tick, bool)>)
    requires Inv(cfg, s) && s.phase == PreWait && |frames| >= 1
    requires |frames| == |Others(frames[0].0.scenes)| + 1
    requires forall k :: 1 <= k < |frames| ==> frames[k].0.unloadDone
    ensures var active := frames[0].0.scenes;
      Run(cfg, s, frames) == s.(phase := Reclaiming, scenes := Overlays(active),
                                requests := s.requests + Unloads(Others(active)) + [Reclaim])
  {
    var active := frames[0].0.scenes;
    var j := FirstOther(active, 0);
    var w := Walk(active, j);
    assert w.unloaded == Others(active) && w.remaining == Overlays(active) by {
      WalkUnloadsEveryOtherScene(active);
      WalkSkipsOverlays(active, 0);
    }
    var t := ResumeUnloading(s.(scenes := active), 0);
    assert Run(cfg, s, frames) == Run(cfg, t, frames[1..]) && Inv(cfg, t) by {
      RunStep(cfg, s, frames);
    }
    if j < |active| {
      assert t == s.(scenes := active, phase := Unloading(j), requests := s.requests + [Unload(active[j])]);
      var rest := Walk(RemoveAt(active, j), j);
      assert w.unloaded == [active[j]] + rest.unloaded && w.unloaded[1..] == rest.unloaded;
      assert forall k :: 0 <= k < |frames[1..]| ==> frames[1..][k] == frames[k + 1];
      UnloadingFollowsWalk(cfg, t, frames[1..]);
      UnloadsCons(s.requests, active[j], rest.unloaded);
    } else {
      assert w.unloaded == [] && w.remaining == active;
      assert frames[1..] == [];
      assert s.requests + Unloads([]) == s.requests;
    }
  }

  // ---------------------------------------------------------------------
  // The progress loop and the restore wait

  /**
   * A frame of the progress loop shows the mapped raw progress and allows
   * activation once the remapped progress reaches 1; activation starts out
   * held back when the load is started.
   */
  lemma LoadingFrame(cfg: Config, s: State, tick: Tick, restored: bool)
    requires Inv(cfg, s) && (s.phase.Reclaiming? || s.phase.Loading?) && !tick.loadDone
    ensures var t := Next(cfg, s, tick, restored);
      t.phase == Loading
      && t.slider == LoadSlider(cfg.sliderMin, cfg.sliderMax, tick.rawProgress)
      && (cfg.sliderMin <= LoadShare * cfg.sliderMax ==> cfg.sliderMin <= t.slider <= LoadShare * cfg.sliderMax)
      && (t.allowActivation <==> tick.rawProgress >= RawCeiling || (s.phase.Loading? && s.allowActivation))
  {
  }

  /**
   * Over a stretch of the progress loop that begins when the load is
   * started, activation is allowed exactly when some frame saw raw progress
   * of at least 0.9.
   */
  lemma {:induction false} ActivationOnceProgressReachesCeiling(cfg: Config, s: State, frames: seq<(Tick, bool)>)
    requires Inv(cfg, s) && (s.phase.Reclaiming? || s.phase.Loading?) && |frames| >= 1
    requires forall k :: 0 <= k < |frames| ==> !frames[k].0.loadDone
    ensures var t := Run(cfg, s, frames);
      t.phase == Loading
      && (t.allowActivation <==>
            (s.phase.Loading? && s.allowActivation)
            || exists k :: 0 <= k < |frames| && frames[k].0.rawProgress >= RawCeiling)
    decreases |frames|
  {
    var t := Next(cfg, s, frames[0].0, frames[0].1);
    RunStep(cfg, s, frames);
    if |frames| > 1 {
      ActivationOnceProgressReachesCeiling(cfg, t, frames[1..]);
      assert forall k :: 1 <= k < |frames| ==> frames[1..][k - 1] == frames[k];
    }
  }

  /**
   * When the load completes, a supplied restore flag sends the routine to
   * the restore wait; without one the wait is skipped and the pad starts.
   */
  lemma LoadDoneGoesToRestoreGate(cfg: Config, s: State, tick: Tick, restored: bool)
    requires Inv(cfg, s) && s.phase.Loading? && tick.loadDone
    ensures var t := Next(cfg, s, tick, restored);
      (s.restoreFlag != null ==> t == s.(phase := RestoreWait))
      && (s.restoreFlag == null ==> t == StartPad(cfg, s, tick) && !t.phase.RestoreWait?)
  {
  }

  /** While the flag reads false, any number of resumptions leave the restore wait untouched. */
  lemma {:induction false} RestoreWaitHolds(cfg: Config, s: State, frames: seq<(Tick, bool)>)
    requires Inv(cfg, s) && s.phase == RestoreWait
    requires forall k :: 0 <= k < |frames| ==> !frames[k].1
    ensures Run(cfg, s, frames) == s
    decreases |frames|
  {
    if frames != [] {
      assert Next(cfg, s, frames[0].0, frames[0].1) == s;
      RestoreWaitHolds(cfg, s, frames[1..]);
    }
  }

  /** The pad is reached only past the restore wait, or with no flag at all. */
  lemma PadOnlyAfterRestore(cfg: Config, s: State, tick: Tick, restored: bool)
    requires Inv(cfg, s) && !s.phase.Padding? && !s.phase.PostWait?
    ensures var t := Next(cfg, s, tick, restored);
      (t.phase.Padding? || t.phase.PostWait?) ==>
        (s.phase.RestoreWait? && restored) || ((s.phase.Reclaiming? || s.phase.Loading?) && s.restoreFlag == null)
  {
  }

  // ---------------------------------------------------------------------
  // The minimum-duration pad

  /** When the load already took at least the minimum duration, the pad does nothing and the slider stays. */
  lemma PadSkipped(cfg: Config, s: State, tick: Tick)
    requires tick.time - s.startTime >= cfg.minLoadTime
    ensures StartPad(cfg, s, tick) == s.(leftTime := 0.0, timer := 0.0, phase := PostWait)
  {
  }

  /** Otherwise the pad owes exactly the missing time, and its first frame starts from 0.8 of the range. */
  lemma PadStarted(cfg: Config, s: State, tick: Tick)
    requires tick.time - s.startTime < cfg.minLoadTime
    ensures var t := StartPad(cfg, s, tick);
      t.leftTime == cfg.minLoadTime - (tick.time - s.startTime) && t.phase == Padding
      && t.timer == tick.deltaTime
      && (cfg.sliderMax >= 0.0 ==> LoadShare * cfg.sliderMax <= t.slider <= cfg.sliderMax)
  {
  }

  /** Each frame of the pad moves the slider forward, and never past the top of the range. */
  lemma PadFrameMonotone(cfg: Config, s: State, tick: Tick, restored: bool)
    requires Inv(cfg, s) && s.phase == Padding && cfg.sliderMax >= 0.0
    ensures var t := Next(cfg, s, tick, restored);
      s.slider <= t.slider <= cfg.sliderMax && LoadShare * cfg.sliderMax <= t.slider
  {
    if s.timer < s.leftTime {
      PadSliderMonotone(cfg.sliderMax, s.timer, s.timer + tick.deltaTime, s.leftTime);
    }
  }

  /** The pad ends only once the timer has reached the owed time, with the slider exactly at the top. */
  lemma PadEndsAtMax(cfg: Config, s: State, tick: Tick, restored: bool)
    requires Inv(cfg, s) && s.phase == Padding
    ensures var t := Next(cfg, s, tick, restored);
      t.phase == PostWait ==> s.timer >= s.leftTime && t.slider == cfg.sliderMax
  {
  }

  /** Once past the pad, the routine is at the last wait or idle, and stays so. */
  lemma {:induction false} AfterPadStaysDone(cfg: Config, s: State, frames: seq<(Tick, bool)>)
    requires Inv(cfg, s) && (s.phase == PostWait || s.phase == Idle)
    ensures var t := Run(cfg, s, frames); t.phase == PostWait || t.phase == Idle
    decreases |frames|
  {
    if frames != [] {
      RunStep(cfg, s, frames);
      AfterPadStaysDone(cfg, Next(cfg, s, frames[0].0, frames[0].1), frames[1..]);
    }
  }

  /** The total frame time of `frames`. */
  function Elapsed(frames: seq<(Tick, bool)>): (r: real)
    ensures r >= 0.0
  {
    if frames == [] then 0.0 else frames[0].0.deltaTime + Elapsed(frames[1..])
  }

  /**
   * The pad loop ends: once the frames before the last one have together
   * lasted at least the time still owed, the routine is past the pad.
   */
  lemma {:induction false} PadFinishes(cfg: Config, s: State, frames: seq<(Tick, bool)>)
    requires Inv(cfg, s) && s.phase == Padding && |frames| >= 1
    requires Elapsed(frames[..|frames| - 1]) >= s.leftTime - s.timer
    ensures var t := Run(cfg, s, frames); t.phase == PostWait || t.phase == Idle
    decreases |frames|
  {
    var tick := frames[0].0;
    var t := Next(cfg, s, tick, frames[0].1);
    RunStep(cfg, s, frames);
    PadStep(cfg, s, tick, frames[0].1);
    if s.timer >= s.leftTime {
      AfterPadStaysDone(cfg, t, frames[1..]);
    } else {
      var rest := frames[1..];
      assert frames[..|frames| - 1][1..] == rest[..|rest| - 1];
      PadFinishes(cfg, t, rest);
    }
  }

  /** In particular, at a pace of at least `d > 0` per frame the pad is over after one frame more than the owed time needs. */
  lemma PadFinishesAtPace(cfg: Config, s: State, frames: seq<(Tick, bool)>, d: real)
    requires Inv(cfg, s) && s.phase == Padding && |frames| >= 1
    requires forall k :: 0 <= k < |frames| ==> frames[k].0.deltaTime >= d
    requires (|frames| - 1) as real * d >= s.leftTime - s.timer
    ensures var t := Run(cfg, s, frames); t.phase == PostWait || t.phase == Idle
  {
    ElapsedBeforeLastAtPace(frames, d);
    PadFinishes(cfg, s, frames);
  }

  lemma ElapsedBeforeLastAtPace(frames: seq<(Tick, bool)>, d: real)
    requires |frames| >= 1
    requires forall k :: 0 <= k < |frames| ==> frames[k].0.deltaTime >= d
    ensures Elapsed(frames[..|frames| - 1]) >= (|frames| - 1) as real * d
  {
    var init := frames[..|frames| - 1];
    assert forall k :: 0 <= k < |init| ==> init[k].0.deltaTime >= d by {
      forall k | 0 <= k < |init| ensures init[k].0.deltaTime >= d {
        assert init[k] == frames[k];
      }
    }
    ElapsedAtPace(init, d);
  }

  lemma PadStep(cfg: Config, s: State, tick: Tick, restored: bool)
    requires Inv(cfg, s) && s.phase == Padding
    ensures var t := Next(cfg, s, tick, restored);
      Inv(cfg, t)
      && (s.timer >= s.leftTime ==> t.phase == PostWait)
      && (s.timer < s.leftTime ==> t.phase == Padding && t.timer == s.timer + tick.deltaTime && t.leftTime == s.leftTime)
  {
    NextPreservesInv(cfg, s, tick, restored);
  }

  /** Frames that each last at least `d` last at least `d` times their number together. */
  lemma {:induction false} ElapsedAtPace(frames: seq<(Tick, bool)>, d: real)
    requires forall k :: 0 <= k < |frames| ==> frames[k].0.deltaTime >= d
    ensures Elapsed(frames) >= |frames| as real * d
    decreases |frames|
  {
    if frames != [] {
      var rest := frames[1..];
      assert forall k :: 0 <= k < |rest| ==> rest[k].0.deltaTime >= d by {
        forall k | 0 <= k < |rest| ensures rest[k].0.deltaTime >= d {
          assert rest[k] == frames[k + 1];
        }
      }
      ElapsedAtPace(rest, d);
      assert |frames| as real * d == d + |rest| as real * d;
    }
  }

  // ---------------------------------------------------------------------
  // Teardown

  /**
   * The last resumption asks for the overlay to be unloaded, clears the
   * request and the text, and lowers the pause counter.
   */
  lemma TeardownClears(cfg: Config, s: State, tick: Tick, restored: bool)
    requires Inv(cfg, s) && s.phase == PostWait
    ensures var t := Next(cfg, s, tick, restored);
      !t.isLoading && t.restoreFlag == null && t.text == "" && t.pauseCount == s.pauseCount - 1
      && t.phase == Idle && t.requests == s.requests + [CloseOverlay]
  {
  }

  lemma NextBalancesPause(cfg: Config, s: State, tick: Tick, restored: bool)
    requires Inv(cfg, s)
    ensures var t := Next(cfg, s, tick, restored);
      t.pauseCount - (if Paused(t.phase) then 1 else 0) == s.pauseCount - (if Paused(s.phase) then 1 else 0)
  {
  }

  /** The pause counter, less the routine's own hold on it, never changes over a run. */
  lemma {:induction false} RunBalancesPause(cfg: Config, s: State, frames: seq<(Tick, bool)>)
    requires Inv(cfg, s)
    ensures var t := Run(cfg, s, frames);
      t.pauseCount - (if Paused(t.phase) then 1 else 0) == s.pauseCount - (if Paused(s.phase) then 1 else 0)
    decreases |frames|
  {
    if frames != [] {
      RunStep(cfg, s, frames);
      NextBalancesPause(cfg, s, frames[0].0, frames[0].1);
      RunBalancesPause(cfg, Next(cfg, s, frames[0].0, frames[0].1), frames[1..]);
    }
  }

  /**
   * A run that starts with the overlay's routine and ends idle leaves the
   * pause counter where it found it, no load in flight, no flag and no text.
   */
  lemma CompletedRunRestores(cfg: Config, s: State, frames: seq<(Tick, bool)>)
    requires Inv(cfg, s) && s.phase == Starting
    requires Run(cfg, s, frames).phase == Idle
    ensures var t := Run(cfg, s, frames);
      t.pauseCount == s.pauseCount && !t.isLoading && t.restoreFlag == null && t.text == ""
  {
    RunBalancesPause(cfg, s, frames);
  }
}
