/**
 * The loop that unloads every scene but the loading overlay before the
 * target scene is loaded. The host's list of active scenes shrinks by one
 * each time an awaited unload completes, while the loop walks that same list
 * by index. Two walks are modelled: the loop as written, whose index moves
 * on after every completed unload, and the corrected walk, which stays on
 * the index that the next scene has just moved into.
 */
module UnloadWalk {

  /** Name of the loading overlay's own scene; the walk never unloads it. */
  const Overlay: string := "LoadScene"

  /** The scenes of `scenes` other than the overlay, in list order. */
  function Others(scenes: seq<string>): (r: seq<string>)
    ensures |r| <= |scenes|
    ensures forall x :: x in r <==> x in scenes && x != Overlay
    ensures r == [] <==> forall k :: 0 <= k < |scenes| ==> scenes[k] == Overlay
  {
    if scenes == [] then []
    else (if scenes[0] != Overlay then [scenes[0]] else []) + Others(scenes[1..])
  }

  /** The copies of the overlay in `scenes`. */
  function Overlays(scenes: seq<string>): (r: seq<string>)
    ensures |r| <= |scenes|
    ensures forall k :: 0 <= k < |r| ==> r[k] == Overlay
  {
    if scenes == [] then []
    else (if scenes[0] == Overlay then [scenes[0]] else []) + Overlays(scenes[1..])
  }

  /** The host's list once the scene at index `i` has been unloaded. */
  function RemoveAt(scenes: seq<string>, i: nat): seq<string>
    requires i < |scenes|
  {
    scenes[..i] + scenes[i + 1..]
  }

  lemma MultisetRemoveAt(scenes: seq<string>, i: nat)
    requires i < |scenes|
    ensures multiset(scenes) == multiset(RemoveAt(scenes, i)) + multiset{scenes[i]}
  {
    assert scenes == scenes[..i] + [scenes[i]] + scenes[i + 1..];
  }

  /** What a walk unloaded, in order, and what the host's list holds afterwards. */
  datatype Outcome = Outcome(unloaded: seq<string>, remaining: seq<string>)

  /**
   * The loop as written, resumed at index `i`: a scene that is not the
   * overlay is unloaded, the list loses it once the unload completes, and
   * the index advances all the same, so it skips the scene that moved into
   * the freed slot.
   */
  function WalkAsWritten(scenes: seq<string>, i: nat): (r: Outcome)
    ensures |r.unloaded| + |r.remaining| == |scenes|
    ensures i <= |scenes| ==> i <= |r.remaining| && r.remaining[..i] == scenes[..i]
    decreases |scenes| - i
  {
    if i >= |scenes| then Outcome([], scenes)
    else if scenes[i] != Overlay then
      var rest := WalkAsWritten(RemoveAt(scenes, i), i + 1);
      Outcome([scenes[i]] + rest.unloaded, rest.remaining)
    else WalkAsWritten(scenes, i + 1)
  }

  /**
   * The corrected walk, resumed at index `i`: after a completed unload the
   * index stays put, because the next scene now sits there.
   */
  function Walk(scenes: seq<string>, i: nat): (r: Outcome)
    ensures |r.unloaded| + |r.remaining| == |scenes|
    ensures i <= |scenes| ==> i <= |r.remaining| && r.remaining[..i] == scenes[..i]
    ensures i <= |scenes| ==> forall k :: i <= k < |r.remaining| ==> r.remaining[k] == Overlay
    decreases |scenes| - i
  {
    if i >= |scenes| then Outcome([], scenes)
    else if scenes[i] != Overlay then
      var rest := Walk(RemoveAt(scenes, i), i);
      Outcome([scenes[i]] + rest.unloaded, rest.remaining)
    else Walk(scenes, i + 1)
  }

  /**
   * Where the walk, resumed at index `i`, next finds a scene to unload: the
   * first index from `i` on that does not hold the overlay, or the length of
   * the list when there is none.
   */
  function FirstOther(scenes: seq<string>, i: nat): (j: nat)
    requires i <= |scenes|
    ensures i <= j <= |scenes|
    ensures j < |scenes| ==> scenes[j] != Overlay
    ensures forall k :: i <= k < j ==> scenes[k] == Overlay
    decreases |scenes| - i
  {
    if i == |scenes| || scenes[i] != Overlay then i else FirstOther(scenes, i + 1)
  }

  /** Skipping the overlays ahead of the next scene to unload does not change what the corrected walk does. */
  lemma {:induction false} WalkSkipsOverlays(scenes: seq<string>, i: nat)
    requires i <= |scenes|
    ensures Walk(scenes, i) == Walk(scenes, FirstOther(scenes, i))
    decreases |scenes| - i
  {
    if i < |scenes| && scenes[i] == Overlay {
      WalkSkipsOverlays(scenes, i + 1);
    }
  }

  /** `xs` occurs in `ys` in the same order, possibly with gaps. */
  predicate IsSubsequence(xs: seq<string>, ys: seq<string>)
    decreases |ys|
  {
    if xs == [] then true
    else if ys == [] then false
    else if xs[0] == ys[0] then IsSubsequence(xs[1..], ys[1..])
    else IsSubsequence(xs, ys[1..])
  }

  lemma {:induction false} SubsequenceDropHead(xs: seq<string>, ys: seq<string>)
    requires xs != [] && IsSubsequence(xs, ys)
    ensures IsSubsequence(xs[1..], ys)
    decreases |ys|, 0
  {
    assert ys == [ys[0]] + ys[1..];
    if xs[0] != ys[0] {
      SubsequenceDropHead(xs, ys[1..]);
    }
    SubsequenceSkip(xs[1..], ys[1..], ys[0]);
  }

  lemma {:induction false} SubsequenceSkip(xs: seq<string>, ys: seq<string>, y: string)
    requires IsSubsequence(xs, ys)
    ensures IsSubsequence(xs, [y] + ys)
    decreases |ys|, 1
  {
    assert ([y] + ys)[1..] == ys;
    if xs != [] && xs[0] == y {
      SubsequenceDropHead(xs, ys);
    }
  }

  lemma {:induction false} SubsequenceCons(xs: seq<string>, ys: seq<string>, y: string)
    requires IsSubsequence(xs, ys)
    ensures IsSubsequence([y] + xs, [y] + ys)
  {
    assert ([y] + xs)[1..] == xs;
    assert ([y] + ys)[1..] == ys;
  }

  lemma {:induction false} OthersSplit(scenes: seq<string>, i: nat)
    requires i < |scenes|
    ensures Others(scenes[i..]) == (if scenes[i] != Overlay then [scenes[i]] else []) + Others(scenes[i + 1..])
    ensures Overlays(scenes[i..]) == (if scenes[i] == Overlay then [scenes[i]] else []) + Overlays(scenes[i + 1..])
  {
    assert scenes[i..][1..] == scenes[i + 1..];
  }

  /**
   * The loop as written unloads scenes in list order: what it unloads is a
   * subsequence of the non-overlay scenes from the start index on, so in
   * particular it never unloads the overlay.
   */
  lemma {:induction false} WalkAsWrittenInOrder(scenes: seq<string>, i: nat)
    requires i <= |scenes|
    ensures IsSubsequence(WalkAsWritten(scenes, i).unloaded, Others(scenes[i..]))
    decreases |scenes| - i
  {
    if i < |scenes| {
      OthersSplit(scenes, i);
      if scenes[i] != Overlay {
        var s' := RemoveAt(scenes, i);
        var rest := WalkAsWritten(s', i + 1);
        if i + 1 < |scenes| {
          WalkAsWrittenInOrder(s', i + 1);
          assert s'[i + 1..] == scenes[i + 2..];
          OthersSplit(scenes, i + 1);
          assert scenes[i + 1..][1..] == scenes[i + 2..];
          if scenes[i + 1] != Overlay {
            SubsequenceSkip(rest.unloaded, Others(scenes[i + 2..]), scenes[i + 1]);
          } else {
            assert Others(scenes[i + 1..]) == Others(scenes[i + 2..]);
          }
        } else {
          assert rest.unloaded == [];
        }
        SubsequenceCons(rest.unloaded, Others(scenes[i + 1..]), scenes[i]);
      } else {
        WalkAsWrittenInOrder(scenes, i + 1);
        assert Others(scenes[i..]) == Others(scenes[i + 1..]);
      }
    }
  }

  /** The loop as written never unloads the overlay and loses no scene from the record. */
  lemma {:induction false} WalkAsWrittenConserves(scenes: seq<string>, i: nat)
    ensures Overlay !in WalkAsWritten(scenes, i).unloaded
    ensures multiset(WalkAsWritten(scenes, i).unloaded) + multiset(WalkAsWritten(scenes, i).remaining) == multiset(scenes)
    decreases |scenes| - i
  {
    if i < |scenes| {
      if scenes[i] != Overlay {
        var s' := RemoveAt(scenes, i);
        var rest := WalkAsWritten(s', i + 1);
        WalkAsWrittenConserves(s', i + 1);
        assert WalkAsWritten(scenes, i).unloaded == [scenes[i]] + rest.unloaded;
        assert WalkAsWritten(scenes, i).remaining == rest.remaining;
        MultisetRemoveAt(scenes, i);
      } else {
        WalkAsWrittenConserves(scenes, i + 1);
      }
    }
  }

  /** Counterexample: with two scenes ahead of the overlay, the loop as written unloads only the first. */
  lemma WalkAsWrittenSkipsScene()
    ensures WalkAsWritten(["Menu", "Tabletop", Overlay], 0) == Outcome(["Menu"], ["Tabletop", Overlay])
  {
    assert RemoveAt(["Menu", "Tabletop", Overlay], 0) == ["Tabletop", Overlay];
    assert WalkAsWritten(["Tabletop", Overlay], 1) == WalkAsWritten(["Tabletop", Overlay], 2);
  }

  /**
   * The corrected walk from index `i` unloads exactly the non-overlay
   * scenes from `i` on, in list order, and leaves the prefix before `i`
   * and every overlay in place.
   */
  lemma {:induction false} WalkUnloadsOthers(scenes: seq<string>, i: nat)
    requires i <= |scenes|
    ensures Walk(scenes, i).unloaded == Others(scenes[i..])
    ensures Walk(scenes, i).remaining == scenes[..i] + Overlays(scenes[i..])
    decreases |scenes| - i
  {
    if i == |scenes| {
      assert scenes[..i] == scenes;
    } else if scenes[i] != Overlay {
      var s' := RemoveAt(scenes, i);
      var rest := Walk(s', i);
      assert Walk(scenes, i) == Outcome([scenes[i]] + rest.unloaded, rest.remaining);
      WalkUnloadsOthers(s', i);
      assert s'[..i] == scenes[..i];
      assert s'[i..] == scenes[i + 1..];
      OthersSplit(scenes, i);
    } else {
      assert Walk(scenes, i) == Walk(scenes, i + 1);
      WalkUnloadsOthers(scenes, i + 1);
      OthersSplit(scenes, i);
      assert scenes[..i + 1] == scenes[..i] + [scenes[i]];
    }
  }

  /** The corrected walk over the whole list unloads every other scene in order and leaves only overlays. */
  lemma WalkUnloadsEveryOtherScene(scenes: seq<string>)
    ensures Walk(scenes, 0).unloaded == Others(scenes)
    ensures Walk(scenes, 0).remaining == Overlays(scenes)
  {
    WalkUnloadsOthers(scenes, 0);
    assert scenes[0..] == scenes;
  }

  /** On the counterexample list the corrected walk unloads both scenes. */
  lemma WalkUnloadsBothScenes()
    ensures Walk(["Menu", "Tabletop", Overlay], 0) == Outcome(["Menu", "Tabletop"], [Overlay])
  {
    assert RemoveAt(["Menu", "Tabletop", Overlay], 0) == ["Tabletop", Overlay];
    assert RemoveAt(["Tabletop", Overlay], 0) == [Overlay];
    assert Walk([Overlay], 0) == Walk([Overlay], 1);
  }
}
