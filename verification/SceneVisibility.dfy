/** Showing and hiding a scene item: visibility switched at once for the user, and on the right audio
    frame for the sound, while references keep the source active until the last frame that needs it. */
module SceneVisibility {
  import opened Sequences
  import opened CDivision
  import opened AudioTicks

  datatype Action = Action(visible: bool, timestamp: nat)

  /** `registrations` counts the times the source is an active child of the scene; `lost` the times
      set_visibility went on although adding it had failed. */
  datatype Item = Item(hasAudio: bool, activeRefs: int, visible: bool, userVisible: bool, actions: seq<Action>,
                       registrations: int, lost: nat)

  /** An item just added by obs_scene_add. */
  function Added(hasAudio: bool, now: nat): Item {
    if hasAudio then Item(true, 1, false, true, [Action(true, now)], 1, 0)
    else Item(false, 1, true, true, [], 1, 0)
  }

  datatype Step =
    | SetVisible(visible: bool, now: nat, addOk: bool)
    | SetVisibility(vis: bool, addOk: bool)
    | RenderAudio(rate: pos, ts: nat)

  // ---------------------------------------------------------------- the steps

  /** The frame of the window on which an action falls; late actions fall on the first one. */
  function FrameOf(a: Action, rate: pos, ts: nat): nat {
    NsToFrames(rate, (if a.timestamp < ts then ts else a.timestamp) - ts)
  }

  /** How many actions the window takes: those before the first one past its end. */
  function Due(actions: seq<Action>, rate: pos, ts: nat): (k: nat)
    ensures k <= |actions|
  {
    if actions == [] || FrameOf(actions[0], rate, ts) >= AUDIO_OUTPUT_FRAMES then 0
    else 1 + Due(actions[1..], rate, ts)
  }

  function Last(visible: bool, actions: seq<Action>): bool {
    if actions == [] then visible else actions[|actions| - 1].visible
  }

  function Hides(actions: seq<Action>): nat {
    if actions == [] then 0 else (if actions[0].visible then 0 else 1) + Hides(actions[1..])
  }

  function Shows(actions: seq<Action>): nat {
    if actions == [] then 0 else (if actions[0].visible then 1 else 0) + Shows(actions[1..])
  }

  function Bit(b: bool): int {
    if b then 1 else 0
  }

  function AfterSetVisibility(s: Item, vis: bool, addOk: bool): Item {
    Item(s.hasAudio, Bit(vis), vis, vis, [],
         s.registrations + if s.activeRefs > 0 then (if vis then 0 else -1) else Bit(vis && addOk),
         s.lost + if s.activeRefs <= 0 && vis && !addOk then 1 else 0)
  }

  function AfterSetVisible(s: Item, visible: bool, now: nat, addOk: bool): Item {
    if s.userVisible == visible then s
    else if visible && s.activeRefs == 0 && !addOk then s
    else
      var counted := s.(activeRefs := s.activeRefs + Bit(visible), userVisible := visible,
                        registrations := s.registrations + Bit(visible && s.activeRefs == 0));
      if s.hasAudio then counted.(actions := s.actions + [Action(visible, now)])
      else AfterSetVisibility(counted, visible, addOk)
  }

  /** The window is processed at all only if the first action is before its end in nanoseconds. */
  predicate Applies(s: Item, rate: pos, ts: nat) {
    s.actions != [] && s.actions[0].timestamp < ts + FramesToNs(rate, AUDIO_OUTPUT_FRAMES)
  }

  function AfterRender(s: Item, rate: pos, ts: nat): Item {
    if !Applies(s, rate, ts) then s
    else
      var k := Due(s.actions, rate, ts);
      var hides := Hides(s.actions[..k]);
      s.(visible := Last(s.visible, s.actions[..k]), actions := s.actions[k..],
         activeRefs := s.activeRefs - hides,
         registrations := s.registrations - if 1 <= s.activeRefs <= hides then 1 else 0)
  }

  function Next(s: Item, step: Step): Item {
    match step
    case SetVisible(visible, now, addOk) => AfterSetVisible(s, visible, now, addOk)
    case SetVisibility(vis, addOk) => AfterSetVisibility(s, vis, addOk)
    case RenderAudio(rate, ts) => AfterRender(s, rate, ts)
  }

  ghost function Run(s: Item, steps: seq<Step>): Item {
    if steps == [] then s else Next(Run(s, steps[..|steps| - 1]), steps[|steps| - 1])
  }

  // ---------------------------------------------------------------- the invariant

  /** Pending actions switch to and fro, the first one away from what is heard now. */
  predicate Alternate(visible: bool, actions: seq<Action>) {
    forall i :: 0 <= i < |actions| ==> actions[i].visible == ((i % 2 == 0) != visible)
  }

  ghost predicate Inv(s: Item) {
    && Alternate(s.visible, s.actions)
    && Last(s.visible, s.actions) == s.userVisible
    && s.activeRefs == Bit(s.visible) + Shows(s.actions)
    && s.registrations + s.lost == Bit(s.activeRefs > 0)
    && (!s.hasAudio ==> s.actions == [])
  }

  lemma {:induction false} CountAppend(xs: seq<Action>, ys: seq<Action>)
    ensures Shows(xs + ys) == Shows(xs) + Shows(ys)
    ensures Hides(xs + ys) == Hides(xs) + Hides(ys)
  {
    if xs == [] {
      assert xs + ys == ys;
    } else {
      assert (xs + ys)[1..] == xs[1..] + ys;
      CountAppend(xs[1..], ys);
    }
  }

  /** Along alternating actions, shows and hides differ by exactly the change of state. */
  lemma {:induction false} AlternateBalance(visible: bool, actions: seq<Action>)
    requires Alternate(visible, actions)
    ensures Bit(visible) + Shows(actions) - Hides(actions) == Bit(Last(visible, actions))
    decreases |actions|
  {
    if actions != [] {
      AlternateTail(visible, actions);
      AlternateBalance(!visible, actions[1..]);
    }
  }

  lemma AlternateTail(visible: bool, actions: seq<Action>)
    requires Alternate(visible, actions) && actions != []
    ensures actions[0].visible == !visible && Alternate(!visible, actions[1..])
    ensures Last(!visible, actions[1..]) == Last(visible, actions)
  {
  }

  lemma {:induction false} AlternateDrop(visible: bool, actions: seq<Action>, k: nat)
    requires Alternate(visible, actions) && k <= |actions|
    ensures Alternate(visible, actions[..k]) && Alternate(Last(visible, actions[..k]), actions[k..])
    ensures Last(Last(visible, actions[..k]), actions[k..]) == Last(visible, actions)
    decreases k
  {
    if k > 0 {
      AlternateTail(visible, actions);
      AlternateDrop(!visible, actions[1..], k - 1);
      assert actions[1..][..k - 1] == actions[..k][1..] && actions[1..][k - 1..] == actions[k..];
    }
  }

  lemma AddedInv(hasAudio: bool, now: nat)
    ensures Inv(Added(hasAudio, now))
  {
    assert Shows([Action(true, now)]) == 1;
  }

  lemma SetVisibleKeepsInv(s: Item, visible: bool, now: nat, addOk: bool)
    requires Inv(s)
    ensures Inv(AfterSetVisible(s, visible, now, addOk))
  {
    if s.userVisible != visible {
      AlternateAppend(s.visible, s.actions, Action(visible, now));
    }
  }

  lemma {:induction false} AlternateAppend(visible: bool, actions: seq<Action>, next: Action)
    requires Alternate(visible, actions) && next.visible != Last(visible, actions)
    ensures Alternate(visible, actions + [next]) && Last(visible, actions + [next]) == next.visible
    ensures Shows(actions + [next]) == Shows(actions) + Bit(next.visible)
  {
    CountAppend(actions, [next]);
    assert Shows([next]) == Bit(next.visible);
  }

  /** Showing or hiding changes nothing if the user sees that already, or if an unreferenced source cannot be
      added. Otherwise the user sees it at once; the sound follows with an action of that time if the item
      has any, and at once if it has none. */
  lemma SetVisibleRight(s: Item, visible: bool, now: nat, addOk: bool)
    requires Inv(s)
    ensures var t := AfterSetVisible(s, visible, now, addOk);
            if s.userVisible == visible || (visible && s.activeRefs <= 0 && !addOk) then t == s
            else
              && t.userVisible == visible && t.hasAudio == s.hasAudio
              && (s.hasAudio ==> t.actions == s.actions + [Action(visible, now)] && t.visible == s.visible)
              && (!s.hasAudio ==> t.actions == [] && t.visible == visible)
  {
    if s.activeRefs <= 0 {
      ReferencesCounted(s);
    }
  }

  lemma ReferencesCounted(s: Item)
    requires Inv(s)
    ensures s.activeRefs >= 0
  {
  }

  /** A new item is seen at once; it is heard from the time at which it was added. */
  lemma AddedRight(hasAudio: bool, now: nat)
    ensures var t := Added(hasAudio, now);
            && t.hasAudio == hasAudio && t.userVisible && t.activeRefs == 1 && t.registrations == 1
            && (hasAudio ==> t.actions == [Action(true, now)] && !t.visible)
            && (!hasAudio ==> t.actions == [] && t.visible)
  {
  }

  lemma RenderKeepsInv(s: Item, rate: pos, ts: nat)
    requires Inv(s)
    ensures Inv(AfterRender(s, rate, ts))
  {
    if Applies(s, rate, ts) {
      var k := Due(s.actions, rate, ts);
      AlternateDrop(s.visible, s.actions, k);
      AlternateBalance(s.visible, s.actions[..k]);
      assert s.actions == s.actions[..k] + s.actions[k..];
      CountAppend(s.actions[..k], s.actions[k..]);
    }
  }

  /** In every run: the references are one for what is heard now and one for every pending show, the
      pending actions alternate and end at what the user sees, and the source is an active child of
      the scene exactly while there are references, unless an add inside set_visibility has failed. */
  lemma {:induction false} RunInv(hasAudio: bool, now: nat, steps: seq<Step>)
    ensures Inv(Run(Added(hasAudio, now), steps))
  {
    if steps == [] {
      AddedInv(hasAudio, now);
    } else {
      var s := Run(Added(hasAudio, now), steps[..|steps| - 1]);
      RunInv(hasAudio, now, steps[..|steps| - 1]);
      match steps[|steps| - 1] {
        case SetVisible(visible, t, addOk) => SetVisibleKeepsInv(s, visible, t, addOk);
        case SetVisibility(vis, addOk) =>
        case RenderAudio(rate, ts) => RenderKeepsInv(s, rate, ts);
      }
    }
  }

  /** The registration follows the references exactly when set_visibility has lost no add. */
  lemma {:induction false} RegisteredIff(hasAudio: bool, now: nat, steps: seq<Step>)
    ensures var s := Run(Added(hasAudio, now), steps);
            (s.registrations == Bit(s.activeRefs > 0)) <==> s.lost == 0
    ensures var s := Run(Added(hasAudio, now), steps);
            s.actions == [] ==> s.visible == s.userVisible && s.activeRefs == Bit(s.visible)
  {
    RunInv(hasAudio, now, steps);
  }

  /** Every call that shows through set_visibility finds the item referenced. */
  ghost predicate ShownWhileReferenced(s: Item, steps: seq<Step>) {
    forall i :: 0 <= i < |steps| ==>
      (steps[i].SetVisibility? && steps[i].vis ==> Run(s, steps[..i]).activeRefs > 0)
  }

  predicate Hiding(step: Step) {
    (step.SetVisible? && !step.visible) || (step.SetVisibility? && !step.vis)
  }

  /** The one caller that passes `true` to set_visibility is the loader, for an item that it has just
      added and that nothing has hidden yet. */
  ghost predicate ShownBeforeHidden(steps: seq<Step>) {
    forall i, j :: 0 <= i < j < |steps| && Hiding(steps[i]) ==> !(steps[j].SetVisibility? && steps[j].vis)
  }

  lemma {:induction false} NotHiddenYet(hasAudio: bool, now: nat, steps: seq<Step>)
    requires forall i :: 0 <= i < |steps| ==> !Hiding(steps[i])
    ensures Run(Added(hasAudio, now), steps).userVisible
  {
    if steps != [] {
      NotHiddenYet(hasAudio, now, steps[..|steps| - 1]);
    }
  }

  /** What the user sees is referenced, now or by a pending show. */
  lemma {:induction false} SeenIsReferenced(s: Item)
    requires Inv(s) && s.userVisible
    ensures s.activeRefs > 0
  {
    if s.actions != [] {
      var n := |s.actions| - 1;
      SplitLast(s.actions);
      CountAppend(s.actions[..n], [s.actions[n]]);
    }
  }

  lemma {:induction false} LoaderShowsReferenced(hasAudio: bool, now: nat, steps: seq<Step>)
    requires ShownBeforeHidden(steps)
    ensures ShownWhileReferenced(Added(hasAudio, now), steps)
  {
    forall i | 0 <= i < |steps| && steps[i].SetVisibility? && steps[i].vis
      ensures Run(Added(hasAudio, now), steps[..i]).activeRefs > 0
    {
      RunInv(hasAudio, now, steps[..i]);
      NotHiddenYet(hasAudio, now, steps[..i]);
      SeenIsReferenced(Run(Added(hasAudio, now), steps[..i]));
    }
  }

  lemma ShownPrefix(s: Item, steps: seq<Step>)
    requires ShownWhileReferenced(s, steps) && steps != []
    ensures ShownWhileReferenced(s, steps[..|steps| - 1])
  {
    var before := steps[..|steps| - 1];
    forall i | 0 <= i < |before|
      ensures before[i] == steps[i] && before[..i] == steps[..i]
    {
    }
  }

  lemma {:induction false} NothingLost(hasAudio: bool, now: nat, steps: seq<Step>)
    requires ShownWhileReferenced(Added(hasAudio, now), steps)
    ensures Run(Added(hasAudio, now), steps).lost == 0
  {
    if steps != [] {
      var last := |steps| - 1;
      ShownPrefix(Added(hasAudio, now), steps);
      NothingLost(hasAudio, now, steps[..last]);
      RunInv(hasAudio, now, steps[..last]);
      KeepsNothingLost(Run(Added(hasAudio, now), steps[..last]), steps[last]);
    }
  }

  /** With that caller the source is an active child of the scene exactly while it is referenced. */
  lemma {:induction false} RegisteredForCallers(hasAudio: bool, now: nat, steps: seq<Step>)
    requires ShownBeforeHidden(steps)
    ensures var s := Run(Added(hasAudio, now), steps);
            s.registrations == Bit(s.activeRefs > 0) && (s.activeRefs > 0 <==> s.visible || Shows(s.actions) > 0)
  {
    RunInv(hasAudio, now, steps);
    LoaderShowsReferenced(hasAudio, now, steps);
    NothingLost(hasAudio, now, steps);
  }

  lemma KeepsNothingLost(s: Item, step: Step)
    requires s.activeRefs >= 0 && s.lost == 0
    requires step.SetVisibility? && step.vis ==> s.activeRefs > 0
    ensures Next(s, step).lost == 0
  {
  }

  /** Showing an unreferenced item through set_visibility while adding it fails leaves it referenced
      but unregistered. */
  lemma LostRegistration()
    ensures var s := Run(Added(false, 0), [SetVisibility(false, true), SetVisibility(true, false)]);
            s.activeRefs == 1 && s.registrations == 0
  {
    var steps := [SetVisibility(false, true), SetVisibility(true, false)];
    assert steps[..1] == [SetVisibility(false, true)] && steps[..1][..0] == [];
    assert Run(Added(false, 0), steps[..1]) == AfterSetVisibility(Added(false, 0), false, true);
  }

  // ---------------------------------------------------------------- the gate

  predicate InOrder(actions: seq<Action>) {
    forall i, j :: 0 <= i < j < |actions| ==> actions[i].timestamp <= actions[j].timestamp
  }

  /** The state on frame `f`: that of the latest action falling on it or before it. */
  function VisibleAt(visible: bool, actions: seq<Action>, rate: pos, ts: nat, f: nat): bool {
    if actions == [] then visible
    else
      var last := actions[|actions| - 1];
      if FrameOf(last, rate, ts) <= f then last.visible
      else VisibleAt(visible, actions[..|actions| - 1], rate, ts, f)
  }

  lemma FrameOrder(a: Action, b: Action, rate: pos, ts: nat)
    requires a.timestamp <= b.timestamp
    ensures FrameOf(a, rate, ts) <= FrameOf(b, rate, ts)
  {
    var x := if a.timestamp < ts then 0 else a.timestamp - ts;
    var y := if b.timestamp < ts then 0 else b.timestamp - ts;
    MulOrder(rate, x, y);
    FloorMonotone(x * rate, y * rate, NS_PER_SECOND);
  }

  /** Actions on later frames do not matter, and neither does the order of looking at them. */
  lemma {:induction false} VisibleAtSplit(visible: bool, actions: seq<Action>, rate: pos, ts: nat, k: nat, f: nat)
    requires k <= |actions|
    requires forall i :: k <= i < |actions| ==> FrameOf(actions[i], rate, ts) > f
    ensures VisibleAt(visible, actions, rate, ts, f) == VisibleAt(visible, actions[..k], rate, ts, f)
  {
    if k < |actions| {
      var init := actions[..|actions| - 1];
      VisibleAtSplit(visible, init, rate, ts, k, f);
      assert init[..k] == actions[..k];
    } else {
      assert actions[..k] == actions;
    }
  }

  lemma {:induction false} VisibleAtEnd(visible: bool, actions: seq<Action>, rate: pos, ts: nat, f: nat)
    requires forall i :: 0 <= i < |actions| ==> FrameOf(actions[i], rate, ts) <= f
    ensures VisibleAt(visible, actions, rate, ts, f) == Last(visible, actions)
  {
  }

  // ---------------------------------------------------------------- in samples and nanoseconds

  lemma FloorBelow(a: nat, d: pos, k: int)
    ensures a / d <= k <==> a < (k + 1) * d
  {
    FloorBounds(a, d);
    if a / d <= k {
      MulOrder(d, a / d + 1, k + 1);
    } else {
      MulOrder(d, k + 1, a / d);
    }
  }

  /** An action has taken effect on a frame if the frame has not ended when the action is due. */
  predicate DueBy(a: Action, rate: pos, ts: nat, frames: nat) {
    (a.timestamp - ts) * rate < frames * NS_PER_SECOND
  }

  lemma FrameIs(a: Action, rate: pos, ts: nat, f: nat)
    ensures FrameOf(a, rate, ts) <= f <==> DueBy(a, rate, ts, f + 1)
  {
    if a.timestamp >= ts {
      FloorBelow((a.timestamp - ts) * rate, NS_PER_SECOND, f);
    } else {
      MulOrder(rate, a.timestamp - ts, 0);
    }
  }

  lemma {:induction false} DueIs(actions: seq<Action>, rate: pos, ts: nat)
    ensures var k := Due(actions, rate, ts);
            && (forall i :: 0 <= i < k ==> DueBy(actions[i], rate, ts, AUDIO_OUTPUT_FRAMES))
            && (k < |actions| ==> !DueBy(actions[k], rate, ts, AUDIO_OUTPUT_FRAMES))
  {
    if actions != [] {
      FrameIs(actions[0], rate, ts, AUDIO_OUTPUT_FRAMES - 1);
      if FrameOf(actions[0], rate, ts) < AUDIO_OUTPUT_FRAMES {
        DueIs(actions[1..], rate, ts);
        var k := Due(actions[1..], rate, ts);
        forall i | 0 <= i < k + 1
          ensures DueBy(actions[i], rate, ts, AUDIO_OUTPUT_FRAMES)
        {
          assert i > 0 ==> actions[i] == actions[1..][i - 1];
        }
      }
    }
  }

  /** A window takes the actions up to the first one that is due behind its last frame, provided that the
      first one is due a nanosecond or more before the window's end; otherwise it takes none. */
  lemma RenderTakes(s: Item, rate: pos, ts: nat) returns (k: nat)
    ensures k <= |s.actions|
    ensures var t := AfterRender(s, rate, ts);
            && t.actions == s.actions[k..] && t.userVisible == s.userVisible
            && t.visible == (if k == 0 then s.visible else s.actions[k - 1].visible)
    ensures if s.actions != []
               && (s.actions[0].timestamp - ts + 1) * rate <= AUDIO_OUTPUT_FRAMES * NS_PER_SECOND
            then
              && (forall i :: 0 <= i < k ==> DueBy(s.actions[i], rate, ts, AUDIO_OUTPUT_FRAMES))
              && (k < |s.actions| ==> !DueBy(s.actions[k], rate, ts, AUDIO_OUTPUT_FRAMES))
            else k == 0
  {
    k := 0;
    if s.actions != [] {
      var left := s.actions[0].timestamp - ts;
      FloorBelow(AUDIO_OUTPUT_FRAMES * NS_PER_SECOND, rate, left);
      assert Applies(s, rate, ts) <==> (left + 1) * rate <= AUDIO_OUTPUT_FRAMES * NS_PER_SECOND;
    }
    if Applies(s, rate, ts) {
      k := Due(s.actions, rate, ts);
      DueIs(s.actions, rate, ts);
      assert s.actions[..k] != [] ==> s.actions[..k][k - 1] == s.actions[k - 1];
    } else {
      assert s.actions[0..] == s.actions;
    }
  }

  /** On every frame the sound follows the last action due before the frame ends. */
  lemma {:induction false} SoundAt(visible: bool, actions: seq<Action>, rate: pos, ts: nat, f: nat, k: nat)
    requires k <= |actions|
    requires forall i :: 0 <= i < k ==> DueBy(actions[i], rate, ts, f + 1)
    requires forall i :: k <= i < |actions| ==> !DueBy(actions[i], rate, ts, f + 1)
    ensures VisibleAt(visible, actions, rate, ts, f) == if k == 0 then visible else actions[k - 1].visible
  {
    forall i | 0 <= i < |actions|
      ensures FrameOf(actions[i], rate, ts) <= f <==> i < k
    {
      FrameIs(actions[i], rate, ts, f);
    }
    VisibleAtSplit(visible, actions, rate, ts, k, f);
    VisibleAtEnd(visible, actions[..k], rate, ts, f);
  }
}
