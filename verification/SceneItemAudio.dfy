/** A scene item whose visibility, references and pending audio actions are updated in place. */
module SceneItemAudio {
  import opened CDivision
  import opened AudioTicks
  import opened SceneVisibility

  lemma FramesFrom(all: seq<Action>, rate: pos, ts: nat, k: nat)
    requires InOrder(all) && k < |all|
    ensures forall i :: k <= i < |all| ==> FrameOf(all[k], rate, ts) <= FrameOf(all[i], rate, ts)
  {
    forall i | k <= i < |all|
      ensures FrameOf(all[k], rate, ts) <= FrameOf(all[i], rate, ts)
    {
      FrameOrder(all[k], all[i], rate, ts);
    }
  }

  /** Between two actions the state is the one the earlier of them left. */
  lemma {:induction false} GateBetween(visible: bool, all: seq<Action>, rate: pos, ts: nat, k: nat, f: nat)
    requires k <= |all|
    requires forall i :: 0 <= i < k ==> FrameOf(all[i], rate, ts) <= f
    requires forall i :: k <= i < |all| ==> FrameOf(all[i], rate, ts) > f
    ensures VisibleAt(visible, all, rate, ts, f) == Last(visible, all[..k])
  {
    VisibleAtSplit(visible, all, rate, ts, k, f);
    VisibleAtEnd(visible, all[..k], rate, ts, f);
  }

  lemma TakeOne(all: seq<Action>, k: nat)
    requires k < |all|
    ensures all[k..][1..] == all[k + 1..] && all[k..][0] == all[k]
    ensures all[..k + 1] == all[..k] + [all[k]]
    ensures Hides(all[..k + 1]) == Hides(all[..k]) + Bit(!all[k].visible)
  {
    assert all[..k + 1] == all[..k] + [all[k]];
    CountAppend(all[..k], [all[k]]);
  }

  lemma TimelyAppend(actions: seq<Action>, clock: nat, visible: bool, now: nat)
    requires Timely(actions, clock) && clock <= now
    ensures Timely(actions + [Action(visible, now)], now)
  {
  }

  lemma AddedTimely(hasAudio: bool, now: nat)
    ensures Timely(Added(hasAudio, now).actions, now)
  {
  }

  class SceneItem {
    const hasAudio: bool
    var activeRefs: int
    var visible: bool
    var userVisible: bool
    var audioActions: seq<Action>
    var registrations: int
    ghost var lost: nat
    ghost var clock: nat

    ghost function Abs(): Item
      reads this
    {
      Item(hasAudio, activeRefs, visible, userVisible, audioActions, registrations, lost)
    }

    ghost predicate Valid()
      reads this
    {
      SceneVisibility.Inv(Abs()) && Timely(audioActions, clock)
    }

    constructor (hasAudio: bool, now: nat)
      ensures Valid() && clock == now && Abs() == Added(hasAudio, now)
    {
      this.hasAudio := hasAudio;
      activeRefs, userVisible, registrations, lost, clock := 1, true, 1, 0, now;
      visible, audioActions := !hasAudio, if hasAudio then [Action(true, now)] else [];
      new;
      AddedTimely(hasAudio, now);
      assert Timely(audioActions, clock) && Abs() == Added(hasAudio, now);
      assert SceneVisibility.Inv(Abs()) by {
        AddedInv(hasAudio, now);
      }
    }

    /** set_visibility, also used while set_visible is half way. */
    method SetVisibility(vis: bool, addOk: bool)
      modifies this`audioActions, this`activeRefs, this`visible, this`userVisible, this`registrations, this`lost
      ensures Abs() == AfterSetVisibility(old(Abs()), vis, addOk)
      ensures old(Valid()) ==> Valid()
    {
      audioActions := [];
      if activeRefs > 0 {
        if !vis {
          registrations := registrations - 1;
        }
      } else if vis {
        if addOk {
          registrations := registrations + 1;
        } else {
          lost := lost + 1;
        }
      }
      activeRefs := if vis then 1 else 0;
      visible := vis;
      userVisible := vis;
    }

    /** obs_sceneitem_set_visible; `now` is the clock, `addOk` whether the source can be added. */
    method SetVisible(vis: bool, now: nat, addOk: bool) returns (changed: bool)
      requires Valid() && clock <= now
      modifies this
      ensures Valid() && clock == now
      ensures Abs() == AfterSetVisible(old(Abs()), vis, now, addOk)
      ensures changed <==> old(userVisible) != vis && !(vis && old(activeRefs) == 0 && !addOk)
      ensures changed ==> userVisible == vis
    {
      SetVisibleKeepsInv(Abs(), vis, now, addOk);
      clock := now;
      if userVisible == vis {
        return false;
      }
      if vis {
        activeRefs := activeRefs + 1;
        if activeRefs == 1 {
          if !addOk {
            activeRefs := activeRefs - 1;
            return false;
          }
          registrations := registrations + 1;
        }
      }
      userVisible := vis;
      if hasAudio {
        TimelyAppend(audioActions, old(clock), vis, now);
        audioActions := audioActions + [Action(vis, now)];
      } else {
        SetVisibility(vis, addOk);
      }
      return true;
    }

    method ReleaseHidden(hides: nat)
      modifies this`activeRefs, this`registrations
      ensures activeRefs == old(activeRefs) - hides
      ensures registrations == old(registrations) - if 1 <= old(activeRefs) <= hides then 1 else 0
    {
      var derefCount := hides;
      while derefCount > 0
        invariant 0 <= derefCount <= hides
        invariant activeRefs == old(activeRefs) - (hides - derefCount)
        invariant registrations == old(registrations) - if 1 <= old(activeRefs) <= hides - derefCount then 1 else 0
      {
        derefCount := derefCount - 1;
        activeRefs := activeRefs - 1;
        if activeRefs == 0 {
          registrations := registrations - 1;
        }
      }
    }

    /** The loop over the pending actions: fills the gate up to the last action taken. */
    method TakeActions(buf: array<real>, rate: pos, ts: nat) returns (frameNum: nat, hides: nat)
      requires buf.Length == AUDIO_OUTPUT_FRAMES && InOrder(audioActions)
      modifies this`visible, this`audioActions, buf
      ensures var all := old(audioActions); var k := Due(all, rate, ts);
              audioActions == all[k..] && visible == Last(old(visible), all[..k]) && hides == Hides(all[..k])
      ensures frameNum <= AUDIO_OUTPUT_FRAMES
      ensures forall f :: 0 <= f < frameNum ==>
                buf[f] == Gate(VisibleAt(old(visible), old(audioActions), rate, ts, f))
      ensures forall f :: frameNum <= f < AUDIO_OUTPUT_FRAMES ==>
                VisibleAt(old(visible), old(audioActions), rate, ts, f) == visible
    {
      ghost var all := audioActions;
      ghost var k := 0;
      hides, frameNum := 0, 0;
      while audioActions != []
        invariant k <= |all| && audioActions == all[k..]
        invariant Due(all, rate, ts) == k + Due(all[k..], rate, ts)
        invariant visible == Last(old(visible), all[..k]) && hides == Hides(all[..k])
        invariant frameNum <= AUDIO_OUTPUT_FRAMES
        invariant forall i :: 0 <= i < k ==> FrameOf(all[i], rate, ts) <= frameNum
        invariant forall f :: 0 <= f < frameNum ==> buf[f] == Gate(VisibleAt(old(visible), all, rate, ts, f))
        decreases |audioActions|
      {
        TakeOne(all, k);
        FramesFrom(all, rate, ts, k);
        var action := audioActions[0];
        var newFrameNum := FrameOf(action, rate, ts);
        if newFrameNum >= AUDIO_OUTPUT_FRAMES {
          break;
        }
        audioActions := audioActions[1..];
        var before := visible;
        visible := action.visible;
        if !visible {
          hides := hides + 1;
        }
        forall f | frameNum <= f < newFrameNum
          ensures VisibleAt(old(visible), all, rate, ts, f) == before
        {
          GateBetween(old(visible), all, rate, ts, k, f);
        }
        frameNum := Fill(buf, frameNum, newFrameNum, before);
        k := k + 1;
      }
      forall f | frameNum <= f < AUDIO_OUTPUT_FRAMES
        ensures VisibleAt(old(visible), all, rate, ts, f) == visible
      {
        GateBetween(old(visible), all, rate, ts, k, f);
      }
    }

    /** apply_scene_item_audio_actions */
    method ApplyAudioActions(buf: array<real>, rate: pos, ts: nat)
      requires buf.Length == AUDIO_OUTPUT_FRAMES && InOrder(audioActions) && Applies(Abs(), rate, ts)
      modifies this`visible, this`audioActions, this`activeRefs, this`registrations, buf
      ensures Abs() == AfterRender(old(Abs()), rate, ts)
      ensures forall f :: 0 <= f < AUDIO_OUTPUT_FRAMES ==>
                buf[f] == Gate(VisibleAt(old(visible), old(audioActions), rate, ts, f))
    {
      var frameNum, hides := TakeActions(buf, rate, ts);
      frameNum := Fill(buf, frameNum, AUDIO_OUTPUT_FRAMES, visible);
      ReleaseHidden(hides);
    }

    /** apply_scene_item_volume: on every frame of the window the gate is the state after all actions up
        to that frame; without an action before the window's end nothing changes. */
    method RenderAudio(buf: array<real>, rate: pos, ts: nat) returns (applied: bool)
      requires Valid() && buf.Length == AUDIO_OUTPUT_FRAMES
      modifies this`visible, this`audioActions, this`activeRefs, this`registrations, buf
      ensures Valid() && Abs() == AfterRender(old(Abs()), rate, ts)
      ensures applied <==> Applies(old(Abs()), rate, ts)
      ensures applied ==>
                forall f :: 0 <= f < AUDIO_OUTPUT_FRAMES ==>
                  buf[f] == Gate(VisibleAt(old(visible), old(audioActions), rate, ts, f))
      ensures !applied ==> buf[..] == old(buf[..])
    {
      if audioActions == [] || audioActions[0].timestamp >= ts + FramesToNs(rate, AUDIO_OUTPUT_FRAMES) {
        return false;
      }
      RenderKeepsInv(Abs(), rate, ts);
      TimelyDrop(audioActions, clock, Due(audioActions, rate, ts));
      ApplyAudioActions(buf, rate, ts);
      return true;
    }
  }

  lemma TimelyDrop(actions: seq<Action>, clock: nat, k: nat)
    requires Timely(actions, clock) && k <= |actions|
    ensures Timely(actions[k..], clock)
  {
  }

  function Gate(visible: bool): real {
    if visible then 1.0 else 0.0
  }

  ghost predicate Timely(actions: seq<Action>, clock: nat) {
    InOrder(actions) && forall i :: 0 <= i < |actions| ==> actions[i].timestamp <= clock
  }

  /** Continues the gate up to frame `end`, if that is ahead. */
  method Fill(buf: array<real>, start: nat, end: nat, visible: bool) returns (frameNum: nat)
    requires start <= buf.Length && end <= buf.Length
    modifies buf
    ensures frameNum == if end > start then end else start
    ensures forall f :: 0 <= f < buf.Length ==> buf[f] == if start <= f < end then Gate(visible) else old(buf[f])
  {
    frameNum := start;
    while frameNum < end
      invariant start <= frameNum && (frameNum <= end || frameNum == start)
      invariant forall f :: 0 <= f < buf.Length ==>
                  buf[f] == if start <= f < frameNum then Gate(visible) else old(buf[f])
    {
      buf[frameNum] := if visible then 1.0 else 0.0;
      frameNum := frameNum + 1;
    }
  }
}
