/** The hotkey core: bindings, press counters and the calls made, all changed in place. */
module HotkeyObject {
  import opened Keys
  import opened Hotkeys
  import opened HotkeyRounds
  import opened HotkeyPairs

  class HotkeyCore {
    var bindings: seq<Binding>
    var pressedCounts: seq<int>
    var edges: seq<Edge>            // the calls of the hotkeys' functions

    ghost function Abs(): State
      reads this
    {
      State(bindings, pressedCounts, edges)
    }

    ghost predicate Valid()
      reads this
    {
      Known(Abs())
    }

    constructor ()
      ensures Valid() && Abs() == FRESH
    {
      bindings, pressedCounts, edges := [], [], [];
    }

    /** obs_hotkey_register_internal; `saved` is what the context's saved data has for the hotkey. */
    method RegisterHotkey(saved: seq<Combination>) returns (id: nat)
      requires Valid()
      modifies this
      ensures Valid() && Abs() == Next(old(Abs()), Register(saved)) && id == |old(pressedCounts)|
    {
      id := |pressedCounts|;
      pressedCounts := pressedCounts + [0];
      AppendBindings(id, saved);
    }

    method PressReleasedBinding(i: nat)
      requires Valid() && i < |bindings|
      modifies this
      ensures Abs() == Applied(old(Abs()), old(bindings)[i].hotkey, Press)
                         .(bindings := old(bindings)[i := old(bindings)[i].(pressed := true)])
      ensures Valid()
    {
      var h := bindings[i].hotkey;
      bindings := bindings[i := bindings[i].(pressed := true)];
      var before := pressedCounts[h];
      pressedCounts := pressedCounts[h := before + 1];
      if before != 0 {
        assert before == 0 || edges + [] == edges;
        return;
      }
      edges := edges + [Edge(h, true)];
    }

    method ReleasePressedBinding(i: nat)
      requires Valid() && i < |bindings|
      modifies this
      ensures Abs() == Applied(old(Abs()), old(bindings)[i].hotkey, Release)
                         .(bindings := old(bindings)[i := old(bindings)[i].(pressed := false)])
      ensures Valid()
    {
      var h := bindings[i].hotkey;
      bindings := bindings[i := bindings[i].(pressed := false)];
      pressedCounts := pressedCounts[h := pressedCounts[h] - 1];
      if pressedCounts[h] != 0 {
        assert edges + [] == edges;
        return;
      }
      edges := edges + [Edge(h, false)];
    }

    /** handle_binding, for a binding that takes part in the round. */
    method HandleBinding(i: nat, e: Event)
      requires Valid() && i < |bindings| && TakesPart(bindings[i], e)
      modifies this
      ensures Valid() && Abs() == HandledAt(old(Abs()), i, e)
      ensures RoundRight(old(bindings)[i], e, bindings[i])
    {
      HandledRight(bindings[i], e);
      var b := bindings[i];
      var modifiersMatch := ModifiersMatch(b, EventModifiers(e), e.strict);
      var modifiersOnly := b.combo.key == KEY_NONE;
      if b.combo.modifiers == 0 {
        bindings := bindings[i := b.(modifiersMatch := true)];
      }
      var reset := false;
      if b.combo.modifiers == 0 && modifiersOnly {
        reset := true;
      } else if (!bindings[i].modifiersMatch && !modifiersOnly) || !modifiersMatch {
        reset := true;
      } else if !KeyDown(b, e) {
        reset := true;
      }
      if !reset {
        if bindings[i].pressed || (e.Poll? && e.noPress) {
          return;
        }
        PressReleasedBinding(i);
        return;
      }
      bindings := bindings[i := bindings[i].(modifiersMatch := modifiersMatch)];
      if !bindings[i].pressed {
        return;
      }
      ReleasePressedBinding(i);
    }

    /** query_hotkeys, or obs_hotkey_inject_event: one round over all bindings. */
    method HandleEvent(e: Event)
      requires Valid()
      modifies this
      ensures Valid() && Abs() == Next(old(Abs()), Round(e))
      ensures |bindings| == |old(bindings)|
      ensures forall i :: 0 <= i < |bindings| ==> RoundRight(old(bindings)[i], e, bindings[i])
    {
      AllRoundsRight(Abs(), e);
      for i := 0 to |bindings|
        invariant Valid() && |bindings| == |old(bindings)| && |pressedCounts| == |old(pressedCounts)|
        invariant Abs() == Rounded(old(Abs()), i, e)
      {
        if e.Poll? || ModifiersMatch(bindings[i], e.combo.modifiers, e.strict) {
          HandleBinding(i, e);
        }
      }
    }

    /** remove_bindings: release and erase the first binding of the hotkey until there is none. */
    method RemoveBindings(h: nat)
      requires Valid()
      modifies this
      ensures Valid() && Abs() == Removed(old(Abs()), h)
    {
      var i := FindBinding(h);
      while i < |bindings|
        invariant Valid() && i == FirstOf(bindings, h)
        invariant Removed(Abs(), h) == Removed(old(Abs()), h)
        decreases |bindings|
      {
        EraseBinding(i);
        i := FindBinding(h);
      }
    }

    method EraseBinding(i: nat)
      requires Valid() && i < |bindings|
      modifies this
      ensures Valid() && Abs() == RemovedAt(old(Abs()), i)
    {
      if bindings[i].pressed {
        ReleasePressedBinding(i);
      }
      bindings := bindings[..i] + bindings[i + 1..];
    }

    method FindBinding(h: nat) returns (i: nat)
      ensures i == FirstOf(bindings, h)
    {
      i := 0;
      while i < |bindings|
        invariant i <= |bindings| && FirstOf(bindings, h) == i + FirstOf(bindings[i..], h)
      {
        if bindings[i].hotkey == h {
          return;
        }
        assert bindings[i..][1..] == bindings[i + 1..];
        i := i + 1;
      }
    }

    /** load_bindings: one new binding after the other, behind those that are there. */
    method AppendBindings(h: nat, combos: seq<Combination>)
      requires Valid()
      modifies this
      ensures Valid() && Abs() == Next(old(Abs()), Append(h, combos))
    {
      if h < |pressedCounts| {
        for k := 0 to |combos|
          invariant Valid() && pressedCounts == old(pressedCounts) && edges == old(edges)
          invariant bindings == old(bindings) + Created(h, combos[..k])
        {
          bindings := bindings + [Binding(combos[k], false, false, h)];
          assert Created(h, combos[..k + 1]) == Created(h, combos[..k]) + [Binding(combos[k], false, false, h)];
        }
        assert combos[..|combos|] == combos;
      }
    }

    /** obs_hotkey_load_bindings, and obs_hotkey_load for what is saved */
    method LoadBindings(h: nat, combos: seq<Combination>)
      requires Valid()
      modifies this
      ensures Valid() && Abs() == Next(old(Abs()), Reload(h, combos))
    {
      if h < |pressedCounts| {
        RemoveBindings(h);
        AppendBindings(h, combos);
      }
    }
  }

  /** The state of a pair, changed by the functions of its two hotkeys. */
  class HotkeyPair {
    const id0: nat
    const id1: nat
    var pressed0: bool
    var pressed1: bool
    var calls: seq<Edge>            // the calls of the sides' own functions

    ghost function Abs(): Pair
      reads this
    {
      Pair(id0, id1, pressed0, pressed1)
    }

    constructor (id0: nat, id1: nat)
      ensures Abs() == Pair(id0, id1, false, false) && calls == []
    {
      this.id0, this.id1 := id0, id1;
      pressed0, pressed1, calls := false, false, [];
    }

    method FirstFunc(pressed: bool, accepts: bool)
      modifies this
      ensures Abs() == Heard(old(Abs()), Edge(id0, pressed), accepts)
      ensures calls == old(calls) + if Calls(old(Abs()), Edge(id0, pressed)) then [Edge(id0, pressed)] else []
    {
      assert calls + [] == calls;
      if pressed1 {
        return;
      }
      if pressed0 && !pressed {
        pressed0 := false;
      } else {
        calls := calls + [Edge(id0, pressed)];
        if accepts {
          pressed0 := pressed;
        }
      }
    }

    method SecondFunc(pressed: bool, accepts: bool)
      requires id0 != id1
      modifies this
      ensures Abs() == Heard(old(Abs()), Edge(id1, pressed), accepts)
      ensures calls == old(calls) + if Calls(old(Abs()), Edge(id1, pressed)) then [Edge(id1, pressed)] else []
    {
      assert calls + [] == calls;
      if pressed0 {
        return;
      }
      if pressed1 && !pressed {
        pressed1 := false;
      } else {
        calls := calls + [Edge(id1, pressed)];
        if accepts {
          pressed1 := pressed;
        }
      }
    }
  }
}
