# SceneLoader: the load guard and the load sequencer

This is a model of the scene loader of a Unity game. The source is
`Assets/Scripts/Menu/Load/SceneLoader.cs`. The loader has two parts:

- **The load guard.** `SceneLoader.Load` is a static entry point over
  process-wide state: `IsLoading`, `SceneToLoad` and `CurrentRestoreFlag`. A
  request made while a load is in flight is dropped. Otherwise the guard
  records the target and the restore flag, resets the flag to "not
  restored", and asks the host to open the `LoadScene` overlay additively.
- **The load sequencer.** The overlay's `Start` coroutine runs through a
  fixed sequence:
  1. show "Loading <scene>..." and raise the input pause counter;
  2. wait;
  3. try to unload every active scene other than the overlay, one at a time,
     each unload awaited (the loop as written skips some; see "Findings");
  4. reclaim unused assets;
  5. start the target's load with activation held back;
  6. run the progress loop, which maps raw progress 0..0.9 onto the slider
     range [minValue, 0.8·maxValue] and allows activation at 0.9;
  7. wait for the restore flag, if one was given;
  8. run the minimum-duration pad loop, which moves the slider from
     0.8·maxValue to maxValue (a skipped pad leaves it at 0.8·maxValue);
  9. wait;
  10. tear down: unload the overlay, clear the request and the text, and
      lower the pause counter.

The model has five modules:

- `Progress` (`progress.dfy`) holds the host engine's `Clamp01`,
  `InverseLerp`, `Lerp` and `Max` over exact reals. It also holds the two
  slider mappings and the time still owed to the minimum duration.
- `UnloadWalk` (`unload_walk.dfy`) models the unload loop over the host's
  scene list. The list shrinks as each awaited unload completes. The module
  holds both the loop as written and a corrected walk; see "Findings".
- `Sequencer` (`sequencer.dfy`) models the coroutine as an explicit phase
  per suspension point, as follows.
  - The yields at lines 48, 60, 64, 88, 95, 109 and 116 are the step
    boundaries.
  - `Next` is one resumption, driven by the host's observations (`Tick`)
    and the flag's reading.
  - `Run` is a sequence of resumptions.
  - `Inv` is what holds at every suspension point.
  - The lemmas state the guard, the unload order, activation, the restore
    gate, the pad and teardown.
- `Loader` (`scene_loader.dfy`) is the imperative model. Class `SceneLoader`
  holds the static fields, the widgets and the coroutine's locals as fields.
  - `Load` and `Step` update those fields in place.
  - `Step` dispatches to one method per phase. `UnloadFrom` holds the
    loop's skip over overlays, which carries its invariant; the step after
    a completed unload is in `AwaitUnload`.
  - Each method is proved equal to the value-level transition of
    `Sequencer`. `Load` and `Step` also keep `Valid()`, which is `Inv` over
    the fields; the per-phase methods are only called from `Step`.
- `Scenario` (`scenario.dfy`) is a whole load of "Battle", end to end.

The host's requests are kept as a log of `Request` values:

- opening the overlay;
- unloading a scene;
- reclaiming assets;
- loading the target;
- closing the overlay.

## Model

| member | source | states |
|---|---|---|
| Progress.Clamp01 | Assets/Scripts/Menu/Load/SceneLoader.cs:106 | The result lies in [0, 1]. It equals the input inside [0, 1], is 0 below it and is 1 above it. |
| Progress.Max | Assets/Scripts/Menu/Load/SceneLoader.cs:99 | The result is one of the two arguments and is at least each of them. |
| Progress.InverseLerp | Assets/Scripts/Menu/Load/SceneLoader.cs:80 | The result lies in [0, 1] and is 0 when the bounds coincide. Inside the bounds it is exactly (v-a)/(b-a); at or below the lower bound it is 0; at or past the upper bound it is 1. |
| Progress.Lerp | Assets/Scripts/Menu/Load/SceneLoader.cs:81 | For a fraction t in [0, 1] the result is exactly (1-t)·a + t·b. A fraction at or below 0 gives a; at or above 1 it gives b. Over an ordered interval the result stays inside it. |
| Progress.LerpMonotone | Assets/Scripts/Menu/Load/SceneLoader.cs:81 | Over an ordered interval, a larger fraction never gives a smaller point. |
| Progress.LoadNormalized | Assets/Scripts/Menu/Load/SceneLoader.cs:79-80 | Normalised progress lies in [0, 1] and equals raw/0.9 for raw in [0, 0.9]. It reaches 1 exactly when raw is at least 0.9. |
| Progress.LoadNormalizedMonotone | Assets/Scripts/Menu/Load/SceneLoader.cs:80 | Normalised progress never decreases as raw progress grows. |
| Progress.LoadSlider | Assets/Scripts/Menu/Load/SceneLoader.cs:81 | Given minValue <= 0.8*maxValue, the load-phase slider lies in [minValue, 0.8*maxValue]. It is minValue at raw 0 and 0.8*maxValue from raw 0.9 on. |
| Progress.LoadSliderMonotone | Assets/Scripts/Menu/Load/SceneLoader.cs:79-81 | The load-phase slider is non-decreasing in raw progress. |
| Progress.LeftTime | Assets/Scripts/Menu/Load/SceneLoader.cs:98-99 | The owed time is never negative. It is 0 exactly when the elapsed time has reached the minimum; otherwise it is the minimum less the elapsed time. |
| Progress.PadSlider | Assets/Scripts/Menu/Load/SceneLoader.cs:106-107 | For maxValue >= 0 the pad slider lies in [0.8*maxValue, maxValue]. It is 0.8*maxValue at timer 0 and exactly maxValue once the timer reaches the owed time. |
| Progress.PadSliderMonotone | Assets/Scripts/Menu/Load/SceneLoader.cs:103-107 | The pad slider never decreases as the timer advances. |
| UnloadWalk.Others | Assets/Scripts/Menu/Load/SceneLoader.cs:52-56 | The scenes to unload are exactly the listed scenes other than the overlay. |
| UnloadWalk.WalkAsWritten | Assets/Scripts/Menu/Load/SceneLoader.cs:53-62 | The loop as written, resumed at an index: every scene is either unloaded or left active, and the scenes before the start index are untouched. What it unloads is characterised by WalkAsWrittenInOrder, WalkAsWrittenConserves and WalkAsWrittenSkipsScene. |
| UnloadWalk.Walk | Assets/Scripts/Menu/Load/SceneLoader.cs:53-62 | The corrected walk, resumed at an index: every scene is either unloaded or left active, the scenes before the start index are untouched, and only overlays are left from the start index on. WalkUnloadsOthers characterises it fully. |
| UnloadWalk.FirstOther | Assets/Scripts/Menu/Load/SceneLoader.cs:53-56 | The index where the loop next finds a scene to unload: every index skipped holds the overlay, and the index found does not. |
| UnloadWalk.WalkSkipsOverlays | Assets/Scripts/Menu/Load/SceneLoader.cs:53-57 | Skipping the overlays ahead of the next scene to unload does not change what the walk does. |
| UnloadWalk.WalkAsWrittenInOrder | Assets/Scripts/Menu/Load/SceneLoader.cs:53-62 | The loop as written unloads scenes in list order and only non-overlay scenes: what it unloads is a subsequence of them. |
| UnloadWalk.WalkAsWrittenConserves | Assets/Scripts/Menu/Load/SceneLoader.cs:53-62 | The loop as written never unloads the overlay. Every scene ends up either unloaded or still active. |
| UnloadWalk.WalkAsWrittenSkipsScene | Assets/Scripts/Menu/Load/SceneLoader.cs:52-62 | With [Menu, Tabletop, LoadScene] the loop as written unloads only Menu and leaves Tabletop active. |
| UnloadWalk.WalkUnloadsOthers | Assets/Scripts/Menu/Load/SceneLoader.cs:52-62 | Resumed at an index, the corrected walk unloads exactly the non-overlay scenes from there on, in order. It keeps the prefix and every overlay. |
| UnloadWalk.WalkUnloadsEveryOtherScene | Assets/Scripts/Menu/Load/SceneLoader.cs:52-62 | Over the whole list, the corrected walk unloads every non-overlay scene in list order and leaves only the overlays. |
| UnloadWalk.WalkUnloadsBothScenes | Assets/Scripts/Menu/Load/SceneLoader.cs:52-62 | With [Menu, Tabletop, LoadScene] the corrected walk unloads Menu then Tabletop and leaves only the overlay. |
| Sequencer.Load | Assets/Scripts/Menu/Load/SceneLoader.cs:24-36 | After any request a load is in flight. A request made while loading returns the state unchanged; otherwise the target and the flag are recorded, the routine is about to start, and the overlay is asked for once. |
| Sequencer.Inv | Assets/Scripts/Menu/Load/SceneLoader.cs:20-125 | What holds at every suspension point of the routine with the corrected walk; its own contract states that once the unload loop is over, no scene but the overlay is left active, which the loop as written does not achieve. Kept by NextPreservesInv and LoadPreservesInv, and by every Run. |
| Sequencer.ResumeUnloading | Assets/Scripts/Menu/Load/SceneLoader.cs:53-60 | The loop resumed at index i either waits on the first non-overlay scene from i on, having asked for its unload and skipped only overlays, or, with only overlays from i on, asks for reclamation. Nothing else changes. |
| Sequencer.LoadingTick | Assets/Scripts/Menu/Load/SceneLoader.cs:77-103 | While the load runs, the frame shows the load-phase slider and activation becomes allowed once raw progress reaches 0.9, never revoked. Once done, activation is kept as it was; with a flag only the phase changes, to the restore wait; with no flag the result is the pad's start, at the pad or the last wait. No request is made. |
| Sequencer.StartPad | Assets/Scripts/Menu/Load/SceneLoader.cs:98-103 | The pad is skipped exactly when the elapsed time has reached the minimum; otherwise it owes the missing time and has run one frame. Only the pad's fields, the slider and the phase change. |
| Sequencer.PadTick | Assets/Scripts/Menu/Load/SceneLoader.cs:103-110 | The pad ends exactly when the timer has reached the owed time. Otherwise the timer advances by the frame time and the slider lies in [0.8·max, max]. Only the timer, the slider and the phase change. |
| Sequencer.Next | Assets/Scripts/Menu/Load/SceneLoader.cs:41-125 | One resumption: an idle loader does not move, the target never changes, earlier requests are kept and at most one new request is made, and the routine only becomes idle from its last wait. |
| Sequencer.Run | Assets/Scripts/Menu/Load/SceneLoader.cs:41-125 | Any number of resumptions of the routine with the corrected walk keeps the suspension-point invariant. |
| Sequencer.NextPreservesInv | Assets/Scripts/Menu/Load/SceneLoader.cs:41-125 | Each resumption (with the corrected walk) keeps the invariant, including these facts: IsLoading holds exactly while the routine is running; the unload index only passes overlays; past the loop only overlays remain; the pad's slider matches its timer. |
| Sequencer.AsWrittenStepLeavesScene | Assets/Scripts/Menu/Load/SceneLoader.cs:53-62 | The as-written step after a completed unload (resume at i + 1) on [Menu, Tabletop, LoadScene] reaches reclamation with Tabletop still active, a state outside the invariant. |
| Sequencer.LoadPreservesInv | Assets/Scripts/Menu/Load/SceneLoader.cs:24-36 | A load request keeps the invariant. |
| Sequencer.Unloads | Assets/Scripts/Menu/Load/SceneLoader.cs:59 | One unload request per scene, in the scenes' order. |
| Sequencer.LoadIgnoredWhileLoading | Assets/Scripts/Menu/Load/SceneLoader.cs:24-27 | While a load is in flight, a request changes nothing. |
| Sequencer.LoadAccepted | Assets/Scripts/Menu/Load/SceneLoader.cs:28-35 | An accepted request sets IsLoading, the target and the flag, and asks for the overlay once. Nothing else changes. |
| Sequencer.SecondLoadDropped | Assets/Scripts/Menu/Load/SceneLoader.cs:24-36 | Of two requests in a row, the second is dropped and the first target stays. |
| Sequencer.StartAnnounces | Assets/Scripts/Menu/Load/SceneLoader.cs:43-48 | The first resumption shows "Loading <scene>..." and raises the pause counter by one. |
| Sequencer.UnloadAwaited | Assets/Scripts/Menu/Load/SceneLoader.cs:59-60 | Until the awaited unload is done, the routine does not move. |
| Sequencer.NeverUnloadsOverlay | Assets/Scripts/Menu/Load/SceneLoader.cs:53-59 | No resumption rewrites earlier requests, and none asks for the overlay to be unloaded by the loop. |
| Sequencer.UnloadCompleted | Assets/Scripts/Menu/Load/SceneLoader.cs:53-62 | A completed unload removes that scene from the list. The loop then resumes at the same index, which now holds the next scene. |
| Sequencer.UnloadingFollowsWalk | Assets/Scripts/Menu/Load/SceneLoader.cs:53-64 | Resumed once per completed unload, the routine asks for the rest of the corrected walk's unloads, then for reclamation. |
| Sequencer.UnloadPhaseUnloadsEveryOtherScene | Assets/Scripts/Menu/Load/SceneLoader.cs:48-64 | From the first wait, the routine asks for every non-overlay scene to be unloaded, in list order, then for reclamation. Only overlays are left active. |
| Sequencer.LoadingFrame | Assets/Scripts/Menu/Load/SceneLoader.cs:68-88 | A progress frame shows the mapped slider within [min, 0.8*max]. Activation, held back when the load starts, is allowed exactly once raw progress reaches 0.9. |
| Sequencer.ActivationOnceProgressReachesCeiling | Assets/Scripts/Menu/Load/SceneLoader.cs:71-89 | Over the progress loop, activation is allowed exactly when some frame saw raw progress of at least 0.9. |
| Sequencer.LoadDoneGoesToRestoreGate | Assets/Scripts/Menu/Load/SceneLoader.cs:77-95 | Once the load is done, a flag sends the routine to the restore wait. With no flag the wait is skipped. |
| Sequencer.RestoreWaitHolds | Assets/Scripts/Menu/Load/SceneLoader.cs:94-95 | While the flag reads false, the routine stays at the restore wait through any number of resumptions. |
| Sequencer.PadOnlyAfterRestore | Assets/Scripts/Menu/Load/SceneLoader.cs:94-103 | The pad is entered only from a restore wait whose flag reads true, or after the load when there is no flag. |
| Sequencer.PadSkipped | Assets/Scripts/Menu/Load/SceneLoader.cs:98-103 | When the load already took the minimum duration, the pad loop runs zero times and the slider is untouched. |
| Sequencer.PadStarted | Assets/Scripts/Menu/Load/SceneLoader.cs:98-107 | Otherwise the pad owes exactly the missing time, and its first frame's slider is in [0.8*max, max]. |
| Sequencer.PadFrameMonotone | Assets/Scripts/Menu/Load/SceneLoader.cs:103-109 | Each pad frame moves the slider forward within [0.8*max, max]. |
| Sequencer.PadEndsAtMax | Assets/Scripts/Menu/Load/SceneLoader.cs:103-110 | The pad ends only with the timer at or past the owed time and the slider exactly at max. |
| Sequencer.AfterPadStaysDone | Assets/Scripts/Menu/Load/SceneLoader.cs:110-125 | Past the pad, the routine is at the last wait or done, and stays so. |
| Sequencer.Elapsed | Assets/Scripts/Menu/Load/SceneLoader.cs:105 | The total frame time is never negative. |
| Sequencer.PadFinishes | Assets/Scripts/Menu/Load/SceneLoader.cs:103-110 | The pad loop ends once the frames have together lasted the owed time. |
| Sequencer.PadFinishesAtPace | Assets/Scripts/Menu/Load/SceneLoader.cs:103-110 | With every frame lasting at least d, the pad ends within one frame more than the owed time over d. |
| Sequencer.ElapsedAtPace | Assets/Scripts/Menu/Load/SceneLoader.cs:105 | Frames that each last at least d last at least d times their number together. |
| Sequencer.TeardownClears | Assets/Scripts/Menu/Load/SceneLoader.cs:116-124 | The last resumption closes the overlay, clears IsLoading, the flag and the text, and lowers the pause counter. |
| Sequencer.NextBalancesPause | Assets/Scripts/Menu/Load/SceneLoader.cs:44-123 | Each resumption keeps the pause counter, less the routine's own hold on it, unchanged. |
| Sequencer.RunBalancesPause | Assets/Scripts/Menu/Load/SceneLoader.cs:41-125 | Over any run, the pause counter less the routine's own hold is unchanged. |
| Sequencer.CompletedRunRestores | Assets/Scripts/Menu/Load/SceneLoader.cs:41-125 | A complete run leaves the pause counter where it started, with no load in flight, no flag and no text. |
| Scenario.BattleScenario | Assets/Scripts/Menu/Load/SceneLoader.cs:24-125 | Loading "Battle" with no flag and no minimum time, beside Menu and Tabletop: both scenes are unloaded in order, reclamation and the load are asked for once, activation is allowed, the pad is skipped, and the overlay is closed. The loader ends idle. |
| Loader.SceneLoader.constructor | Assets/Scripts/Menu/Load/SceneLoader.cs:15-22 | A fresh loader is idle, with no flag and no text, and satisfies the invariant. |
| Loader.SceneLoader.Load | Assets/Scripts/Menu/Load/SceneLoader.cs:24-36 | The fields become the guard's transition of the old fields. While loading, neither the loader nor the flag changes; when accepted, a given flag reads not restored. |
| Loader.SceneLoader.Step | Assets/Scripts/Menu/Load/SceneLoader.cs:41-125 | The fields become the sequencer's next state, and the invariant is kept. |
| Loader.SceneLoader.UnloadFrom | Assets/Scripts/Menu/Load/SceneLoader.cs:53-60 | The index loop stops at the first non-overlay scene and asks for its unload. Having run off the list, it asks for reclamation. |
| Loader.SceneLoader.Announce | Assets/Scripts/Menu/Load/SceneLoader.cs:43-44 | Shows the target's name and raises the pause counter. |
| Loader.SceneLoader.BeginUnloading | Assets/Scripts/Menu/Load/SceneLoader.cs:50-60 | Reads the active scenes and starts the unload loop at index 0. |
| Loader.SceneLoader.AwaitUnload | Assets/Scripts/Menu/Load/SceneLoader.cs:59-62 | Waits for the unload, then drops the scene and resumes the loop at the same index. |
| Loader.SceneLoader.BeginLoad | Assets/Scripts/Menu/Load/SceneLoader.cs:64-71 | Starts the clock, requests the target with activation held back, and runs the first progress check. |
| Loader.SceneLoader.PollLoad | Assets/Scripts/Menu/Load/SceneLoader.cs:77-95 | One progress check: draws the frame, or leaves for the restore wait or the pad. |
| Loader.SceneLoader.AwaitRestore | Assets/Scripts/Menu/Load/SceneLoader.cs:94-95 | Stays until the flag reads restored, then starts the pad. |
| Loader.SceneLoader.BeginPad | Assets/Scripts/Menu/Load/SceneLoader.cs:98-103 | Works out the owed time and runs the first pad check. |
| Loader.SceneLoader.PollPad | Assets/Scripts/Menu/Load/SceneLoader.cs:103-110 | One pad check: advances the timer and the slider, or leaves for the last wait. |
| Loader.SceneLoader.Teardown | Assets/Scripts/Menu/Load/SceneLoader.cs:116-124 | Closes the overlay, clears the request and the text, and lowers the pause counter. |

## Left out

**The host and its timing**
- The host's scene manager and its asynchronous operations are inputs:
  - the list of active scenes;
  - whether the awaited unload is done;
  - raw progress and whether the load is done;
  - the frame time and the clock.
  Requests to the host are recorded in a log and not carried out.
- `Resources.UnloadUnusedAssets` and `System.GC.Collect` are one recorded reclaim request that completes in one step.
- The two `WaitForSeconds(prePostWaitTime)` waits are single steps. The wait's length is not modelled.
- `Debug.Log` output, the commented-out lines, and the `Slider` and `TMP_Text` widgets are not modelled, beyond a slider value and a text string.

**Termination and completion**
- Termination of the progress loop is not proved. It ends only when the host reports the load done.
- The restore wait has no time-out; it can block for ever.
- The fire-and-forget unload of the overlay at teardown is a request; its completion is never observed.

**Arithmetic and external types**
- Progress.Lerp: the slider arithmetic is over exact reals, not 32-bit floats, so float rounding is not modelled. The same holds for Progress.InverseLerp, Progress.Clamp01 and the slider mappings.
- `InputManager` is not part of this model; its `PauseCount` is a plain integer field.
- `RestoreFlag` is not part of this model. It is a class with one `IsRestored` field, which only the caller sets to true; how it is created is not modelled.
- Loader.SceneLoader: one object holds both the static request state and the overlay's widgets and lives across loads, whereas the host creates a fresh overlay for every load. So from `Starting` until the first progress frame, the model's `slider` still holds the previous load's final value; no contract depends on it.

**Known limits of the model**
- Sequencer.Inv, Sequencer.NextPreservesInv and Sequencer.Run: the invariant's overlays-only clause (past the unload loop only overlays remain) holds only for the corrected walk; the loop as written breaks it (Sequencer.AsWrittenStepLeavesScene). Since `Next` and every phase lemma require `Inv`, the load, pad and teardown lemmas cover the states the corrected routine reaches.
- Sequencer.Next, Sequencer.ResumeUnloading, Sequencer.UnloadCompleted, Sequencer.UnloadingFollowsWalk, Sequencer.UnloadPhaseUnloadsEveryOtherScene, Loader.SceneLoader.Step, Loader.SceneLoader.AwaitUnload and Scenario.BattleScenario use the corrected walk (see "Findings"): after a completed unload the loop stays on the same index. The index walk as written is modelled only by UnloadWalk.WalkAsWritten and its lemmas.
- Scene names are assumed to identify the list entry unloaded. A completed unload removes the entry at the awaited index.
- `Load` returns nothing. Whether a request was accepted is `!old(isLoading)`.
- The coroutine's local `op` is not a field. Activation permission is the `allowActivation` field, and the awaited unload's completion arrives in the tick.

## Findings

| source | as written | input that shows it | evidently intended | confidence | as-written member | corrected member |
|---|---|---|---|---|---|---|
| Assets/Scripts/Menu/Load/SceneLoader.cs:53-62 | The loop indexes the host's live scene list with `i` and advances `i` after every awaited unload. The completed unload has removed that scene, so the next scene has moved into slot `i` and is skipped. | Active scenes [Menu, Tabletop, LoadScene]: Menu is unloaded, Tabletop moves to index 0, `i` becomes 1 and finds LoadScene, and the loop ends. Tabletop is never unloaded. | Unload every scene other than the overlay, as the comment at line 52 says. After a completed unload, stay on the same index. | not executed | UnloadWalk.WalkAsWrittenSkipsScene | UnloadWalk.WalkUnloadsEveryOtherScene |
