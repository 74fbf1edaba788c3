/** Two hotkeys bound into a pair, of which at most one side is in effect. */
module HotkeyPairs {
  import opened Hotkeys

  datatype Pair = Pair(id0: nat, id1: nat, pressed0: bool, pressed1: bool)

  /** obs_hotkey_pair_first_func and its twin; `accepts` is what the side's own function returns. */
  function Heard(p: Pair, e: Edge, accepts: bool): Pair {
    if e.hotkey == p.id0 then
      if p.pressed1 then p
      else if p.pressed0 && !e.down then p.(pressed0 := false)
      else if accepts then p.(pressed0 := e.down) else p
    else if e.hotkey == p.id1 then
      if p.pressed0 then p
      else if p.pressed1 && !e.down then p.(pressed1 := false)
      else if accepts then p.(pressed1 := e.down) else p
    else p
  }

  /** The side's own function is called, with the edge's direction. */
  predicate Calls(p: Pair, e: Edge) {
    if e.hotkey == p.id0 then !p.pressed1 && !(p.pressed0 && !e.down)
    else e.hotkey == p.id1 && !p.pressed0 && !(p.pressed1 && !e.down)
  }

  /** A side's key puts it in effect, if the other one is not and the press is accepted, and its release ends
      that; nothing it does changes the other side. Its own function hears of everything but the release that ends
      its effect, and of nothing while the other side is in effect. */
  lemma HeardRight(p: Pair, e: Edge, accepts: bool)
    requires p.id0 != p.id1
    ensures var q := Heard(p, e, accepts);
            && q.id0 == p.id0 && q.id1 == p.id1
            && (e.hotkey == p.id0 && !p.pressed1 ==> (q.pressed0 <==> e.down && (p.pressed0 || accepts)))
            && (e.hotkey == p.id1 && !p.pressed0 ==> (q.pressed1 <==> e.down && (p.pressed1 || accepts)))
            && (e.hotkey != p.id0 || p.pressed1 ==> q.pressed0 == p.pressed0)
            && (e.hotkey != p.id1 || p.pressed0 ==> q.pressed1 == p.pressed1)
    ensures Calls(p, e) <==>
              || (e.hotkey == p.id0 && !p.pressed1 && (e.down || !p.pressed0))
              || (e.hotkey == p.id1 && !p.pressed0 && (e.down || !p.pressed1))
  {
  }

  ghost function After(id0: nat, id1: nat, edges: seq<Edge>, accepts: seq<bool>): (p: Pair)
    requires |edges| == |accepts|
    ensures p.id0 == id0 && p.id1 == id1
  {
    if edges == [] then Pair(id0, id1, false, false)
    else
      var last := |edges| - 1;
      Heard(After(id0, id1, edges[..last], accepts[..last]), edges[last], accepts[last])
  }

  /** A side is in effect only while its hotkey is down, and never together with the other one. */
  lemma {:induction false} PairExclusive(id0: nat, id1: nat, edges: seq<Edge>, accepts: seq<bool>)
    requires |edges| == |accepts| && id0 != id1 && Alternates(edges)
    ensures var p := After(id0, id1, edges, accepts);
            && !(p.pressed0 && p.pressed1)
            && (p.pressed0 ==> Down(edges, id0)) && (p.pressed1 ==> Down(edges, id1))
  {
    if edges != [] {
      var last := |edges| - 1;
      PairExclusive(id0, id1, edges[..last], accepts[..last]);
    }
  }

  /** In every run of the hotkeys, whatever the two functions answer. */
  lemma {:induction false} PairInRuns(steps: seq<Step>, id0: nat, id1: nat, accepts: seq<bool>)
    requires |accepts| == |Run(steps).edges| && id0 != id1
    requires id0 < |Run(steps).counts| && id1 < |Run(steps).counts|
    ensures var s := Run(steps);
            var p := After(id0, id1, s.edges, accepts);
            && !(p.pressed0 && p.pressed1)
            && (p.pressed0 ==> Held(s.bindings, id0) > 0) && (p.pressed1 ==> Held(s.bindings, id1) > 0)
  {
    RunInv(steps);
    var s := Run(steps);
    assert Counted(s, id0) && Counted(s, id1);
    PairExclusive(id0, id1, s.edges, accepts);
  }
}
