/**
 * The scene loader as the host runs it: one object holding the process-wide
 * load request, the pause counter, the overlay's slider and text, and the
 * start-up routine's locals. `Load` is the static entry point; `Step` is one
 * resumption of the overlay's start-up routine, run from the wait it is
 * suspended at to the next one. Both are proved against the value-level
 * transitions of the `Sequencer` module.
 */
module Loader {
  import opened Progress
  import opened UnloadWalk
  import opened Sequencer

  class SceneLoader {
    // the overlay's configuration
    const minLoadTime: real
    const sliderMin: real
    const sliderMax: real

    // the process-wide load request and pause counter
    var isLoading: bool
    var sceneToLoad: string
    var restoreFlag: RestoreFlag?
    var pauseCount: int

    // the overlay's widgets
    var text: string
    var slider: real

    // where the start-up routine is suspended, and its locals
    var phase: Phase
    var scenes: seq<string>
    var startTime: real
    var leftTime: Duration
    var timer: Duration
    var allowActivation: bool

    // what has been asked of the host so far
    var requests: seq<Request>

    function Cfg(): Config
      reads this
    {
      Config(minLoadTime, sliderMin, sliderMax)
    }

    function Snapshot(): State
      reads this
    {
      State(isLoading, sceneToLoad, restoreFlag, pauseCount, text, slider,
            phase, scenes, startTime, leftTime, timer, allowActivation, requests)
    }

    ghost predicate Valid()
      reads this
    {
      Inv(Cfg(), Snapshot())
    }

    /** An idle loader whose pause counter starts at `pauseCount`. */
    constructor (minLoadTime: real, sliderMin: real, sliderMax: real, pauseCount: int)
      ensures Valid()
      ensures Cfg() == Config(minLoadTime, sliderMin, sliderMax)
      ensures Snapshot() == State(false, "", null, pauseCount, "", sliderMin, Idle, [], 0.0, 0.0, 0.0, false, [])
    {
      this.minLoadTime := minLoadTime;
      this.sliderMin := sliderMin;
      this.sliderMax := sliderMax;
      isLoading := false;
      sceneToLoad := "";
      restoreFlag := null;
      this.pauseCount := pauseCount;
      text := "";
      slider := sliderMin;
      phase := Idle;
      scenes := [];
      startTime := 0.0;
      leftTime := 0.0;
      timer := 0.0;
      allowActivation := false;
      requests := [];
    }

    /**
     * Ask for `scene` to be loaded, optionally with a restore flag to wait
     * for. Dropped while a load is in flight; otherwise the request is
     * recorded, the flag is reset to not restored, and the overlay is
     * requested.
     */
    method Load(scene: string, flag: RestoreFlag?)
      requires Valid()
      modifies this, flag
      ensures Valid()
      ensures Snapshot() == Sequencer.Load(old(Snapshot()), scene, flag)
      ensures old(isLoading) ==> unchanged(this) && (flag != null ==> unchanged(flag))
      ensures flag != null && !old(isLoading) ==> !flag.IsRestored
    {
      LoadPreservesInv(Cfg(), Snapshot(), scene, flag);
      if isLoading {
        return;
      }
      isLoading := true;
      restoreFlag := flag;
      if restoreFlag != null {
        flag.IsRestored := false;
      }
      sceneToLoad := scene;
      phase := Starting;
      requests := requests + [OpenOverlay];
    }

    /**
     * One resumption of the overlay's start-up routine with the host's
     * observations `tick`; the restore flag is read from the flag object.
     */
    method Step(tick: Tick)
      requires Valid()
      modifies this
      ensures Valid()
      ensures Snapshot() == Next(Cfg(), old(Snapshot()), tick, old(restoreFlag != null && restoreFlag.IsRestored))
    {
      NextPreservesInv(Cfg(), Snapshot(), tick, restoreFlag != null && restoreFlag.IsRestored);
      match phase {
        case Idle =>
        case Starting => Announce();
        case PreWait => BeginUnloading(tick);
        case Unloading(i) => AwaitUnload(tick);
        case Reclaiming => BeginLoad(tick);
        case Loading => PollLoad(tick);
        case RestoreWait => AwaitRestore(tick);
        case Padding => PollPad(tick);
        case PostWait => Teardown();
      }
    }

    /** Show the target's name and pause input, before the first wait. */
    method Announce()
      requires Valid() && phase == Starting
      modifies this
      ensures Snapshot() == old(Snapshot()).(text := "Loading " + sceneToLoad + "...", pauseCount := old(pauseCount) + 1, phase := PreWait)
    {
      text := "Loading " + sceneToLoad + "...";
      pauseCount := pauseCount + 1;
      phase := PreWait;
    }

    /** After the first wait: take the host's active scenes and start the unload loop. */
    method BeginUnloading(tick: Tick)
      requires Valid() && phase == PreWait
      modifies this
      ensures Snapshot() == ResumeUnloading(old(Snapshot()).(scenes := tick.scenes), 0)
    {
      scenes := tick.scenes;
      UnloadFrom(0);
    }

    /** In the unload loop: once the awaited unload is done, drop the scene and resume the loop. */
    method AwaitUnload(tick: Tick)
      requires Valid() && phase.Unloading?
      modifies this
      ensures var s := old(Snapshot());
              Snapshot() == if tick.unloadDone then ResumeUnloading(s.(scenes := RemoveAt(s.scenes, s.phase.index)), s.phase.index) else s
    {
      if tick.unloadDone {
        var i := phase.index;
        scenes := scenes[..i] + scenes[i + 1..];
        UnloadFrom(i);
      }
    }

    /** After the unused assets are reclaimed: start the clock, request the target scene and draw the first frame. */
    method BeginLoad(tick: Tick)
      requires Valid() && phase == Reclaiming
      modifies this
      ensures var s := old(Snapshot());
              Snapshot() == LoadingTick(Cfg(), s.(startTime := tick.time, allowActivation := false,
                                                  requests := s.requests + [LoadTarget(s.sceneToLoad)]), tick)
    {
      startTime := tick.time;
      requests := requests + [LoadTarget(sceneToLoad)];
      allowActivation := false;
      PollLoad(tick);
    }

    /** At the restore gate: go on to the pad once the flag reads restored. */
    method AwaitRestore(tick: Tick)
      requires Valid() && phase == RestoreWait
      modifies this
      ensures Snapshot() == if old(restoreFlag.IsRestored) then StartPad(Cfg(), old(Snapshot()), tick) else old(Snapshot())
    {
      if restoreFlag.IsRestored {
        BeginPad(tick);
      }
    }

    /** After the last wait: close the overlay, clear the request and resume input. */
    method Teardown()
      requires Valid() && phase == PostWait
      modifies this
      ensures var s := old(Snapshot());
              Snapshot() == s.(requests := s.requests + [CloseOverlay], isLoading := false, restoreFlag := null,
                               pauseCount := s.pauseCount - 1, text := "", phase := Idle)
    {
      requests := requests + [CloseOverlay];
      isLoading := false;
      restoreFlag := null;
      pauseCount := pauseCount - 1;
      text := "";
      phase := Idle;
    }

    /** The unload loop from index `i`: skip overlays, then request the next unload or move on to reclaiming. */
    method UnloadFrom(i: nat)
      requires i <= |scenes|
      modifies this
      ensures Snapshot() == ResumeUnloading(old(Snapshot()), i)
    {
      var j := i;
      while j < |scenes| && scenes[j] == Overlay
        invariant i <= j <= |scenes|
        invariant FirstOther(scenes, j) == FirstOther(scenes, i)
      {
        j := j + 1;
      }
      if j < |scenes| {
        requests := requests + [Unload(scenes[j])];
        phase := Unloading(j);
      } else {
        requests := requests + [Reclaim];
        phase := Reclaiming;
      }
    }

    /** One check of the progress loop. */
    method PollLoad(tick: Tick)
      modifies this
      ensures Snapshot() == LoadingTick(Cfg(), old(Snapshot()), tick)
    {
      if !tick.loadDone {
        var progress := InverseLerp(0.0, RawCeiling, tick.rawProgress);
        slider := Lerp(sliderMin, sliderMax * LoadShare, progress);
        if progress >= 1.0 {
          allowActivation := true;
        }
        phase := Loading;
      } else if restoreFlag != null {
        phase := RestoreWait;
      } else {
        BeginPad(tick);
      }
    }

    /** Work out the time owed to the minimum duration and run the pad loop's first check. */
    method BeginPad(tick: Tick)
      modifies this
      ensures Snapshot() == StartPad(Cfg(), old(Snapshot()), tick)
    {
      leftTime := Max(0.0, minLoadTime - (tick.time - startTime));
      timer := 0.0;
      PollPad(tick);
    }

    /** One check of the pad loop. */
    method PollPad(tick: Tick)
      modifies this
      ensures Snapshot() == PadTick(Cfg(), old(Snapshot()), tick)
    {
      if timer < leftTime {
        timer := timer + tick.deltaTime;
        var finalProgress := Clamp01(timer / leftTime);
        slider := Lerp(sliderMax * LoadShare, sliderMax, finalProgress);
        phase := Padding;
      } else {
        phase := PostWait;
      }
    }
  }
}
