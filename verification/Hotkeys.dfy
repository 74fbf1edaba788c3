/** Hotkeys and their key bindings: how often a hotkey is held, and the presses and releases it is
    told about. */
module Hotkeys {
  import opened Keys

  datatype Combination = Combination(modifiers: bv32, key: int)

  datatype Binding = Binding(combo: Combination, pressed: bool, modifiersMatch: bool, hotkey: nat)

  datatype Edge = Edge(hotkey: nat, down: bool)

  /** `counts` is the pressed counter of every hotkey, `edges` the calls made to their functions. */
  datatype State = State(bindings: seq<Binding>, counts: seq<int>, edges: seq<Edge>)

  const FRESH := State([], [], [])

  /** One round over the bindings: a poll of the keyboard, or an injected event. */
  datatype Event =
    | Poll(modifiers: bv32, held: set<int>, noPress: bool, strict: bool)
    | Inject(combo: Combination, down: bool, strict: bool)

  datatype Step =
    | Register(saved: seq<Combination>)
    | Round(event: Event)
    | Reload(hotkey: nat, combos: seq<Combination>)
    | Append(hotkey: nat, combos: seq<Combination>)

  // ---------------------------------------------------------------- one binding

  /** modifiers_match, for the modifiers that a binding wants. */
  predicate MaskMatches(want: bv32, modifiers: bv32, strict: bool) {
    || want == 0
    || (!strict && want & modifiers == want)
    || (strict && want == modifiers)
  }

  predicate ModifiersMatch(b: Binding, modifiers: bv32, strict: bool) {
    MaskMatches(b.combo.modifiers, modifiers, strict)
  }

  /** Whether a binding takes part in a round, and whether its key counts as down there. */
  predicate TakesPart(b: Binding, e: Event) {
    e.Poll? || ModifiersMatch(b, e.combo.modifiers, e.strict)
  }

  predicate KeyDown(b: Binding, e: Event) {
    if b.combo.key == KEY_NONE then true
    else match e
      case Poll(_, held, _, _) => b.combo.key in held
      case Inject(combo, down, _) => b.combo.key == combo.key && down
  }

  function EventModifiers(e: Event): bv32 {
    match e
    case Poll(modifiers, _, _, _) => modifiers
    case Inject(combo, _, _) => combo.modifiers
  }

  datatype Effect = Nothing | Press | Release

  /** handle_binding leaves through its `reset` label. */
  predicate Resets(b: Binding, e: Event) {
    var only := b.combo.key == KEY_NONE;
    || (b.combo.modifiers == 0 && only)
    || (b.combo.modifiers != 0 && !b.modifiersMatch && !only)
    || !ModifiersMatch(b, EventModifiers(e), e.strict)
    || !KeyDown(b, e)
  }

  function EffectOf(b: Binding, e: Event): Effect {
    if !TakesPart(b, e) then Nothing
    else if Resets(b, e) then if b.pressed then Release else Nothing
    else if b.pressed || (e.Poll? && e.noPress) then Nothing
    else Press
  }

  function AfterEffect(b: Binding, effect: Effect): bool {
    match effect
    case Nothing => b.pressed
    case Press => true
    case Release => false
  }

  function Handled(b: Binding, e: Event): Binding {
    if !TakesPart(b, e) then b
    else
      b.(pressed := AfterEffect(b, EffectOf(b, e)),
         modifiersMatch := if Resets(b, e) then ModifiersMatch(b, EventModifiers(e), e.strict)
                           else b.modifiersMatch || b.combo.modifiers == 0)
  }

  // ---------------------------------------------------------------- the steps

  /** The pressed counter moves, and its hotkey hears of it when it leaves or reaches zero. */
  function Applied(s: State, h: nat, effect: Effect): State
    requires h < |s.counts|
  {
    match effect
    case Nothing => s
    case Press =>
      s.(counts := s.counts[h := s.counts[h] + 1],
         edges := s.edges + if s.counts[h] == 0 then [Edge(h, true)] else [])
    case Release =>
      s.(counts := s.counts[h := s.counts[h] - 1],
         edges := s.edges + if s.counts[h] - 1 == 0 then [Edge(h, false)] else [])
  }

  predicate Known(s: State) {
    forall i :: 0 <= i < |s.bindings| ==> s.bindings[i].hotkey < |s.counts|
  }

  function HandledAt(s: State, i: nat, e: Event): (t: State)
    requires Known(s) && i < |s.bindings|
    ensures Known(t) && |t.bindings| == |s.bindings| && |t.counts| == |s.counts|
  {
    var b := s.bindings[i];
    Applied(s, b.hotkey, EffectOf(b, e)).(bindings := s.bindings[i := Handled(b, e)])
  }

  /** The first `n` bindings have been handled. */
  function Rounded(s: State, n: nat, e: Event): (t: State)
    requires Known(s) && n <= |s.bindings|
    ensures Known(t) && |t.bindings| == |s.bindings| && |t.counts| == |s.counts|
  {
    if n == 0 then s else HandledAt(Rounded(s, n - 1, e), n - 1, e)
  }

  function RemovedAt(s: State, i: nat): (t: State)
    requires Known(s) && i < |s.bindings|
    ensures Known(t) && |t.bindings| == |s.bindings| - 1 && |t.counts| == |s.counts|
  {
    var b := s.bindings[i];
    Applied(s, b.hotkey, if b.pressed then Release else Nothing).(bindings := s.bindings[..i] + s.bindings[i + 1..])
  }

  /** find_binding: the first binding of a hotkey, or the number of bindings. */
  function FirstOf(bindings: seq<Binding>, h: nat): (i: nat)
    ensures i <= |bindings| && (i < |bindings| ==> bindings[i].hotkey == h)
    ensures forall k :: 0 <= k < i ==> bindings[k].hotkey != h
  {
    if bindings == [] || bindings[0].hotkey == h then 0 else 1 + FirstOf(bindings[1..], h)
  }

  function Removed(s: State, h: nat): (t: State)
    requires Known(s)
    ensures Known(t) && |t.counts| == |s.counts|
    ensures forall i :: 0 <= i < |t.bindings| ==> t.bindings[i].hotkey != h
    decreases |s.bindings|
  {
    var i := FirstOf(s.bindings, h);
    if i == |s.bindings| then s else Removed(RemovedAt(s, i), h)
  }

  function Created(h: nat, combos: seq<Combination>): (r: seq<Binding>)
    ensures |r| == |combos|
    ensures forall i :: 0 <= i < |r| ==> r[i] == Binding(combos[i], false, false, h)
  {
    seq(|combos|, i requires 0 <= i < |combos| => Binding(combos[i], false, false, h))
  }

  /** load_bindings on its own, as the obs_hotkeys_load functions call it: bindings are added and none is
      removed. An unknown hotkey is left alone. */
  function Appended(s: State, h: nat, combos: seq<Combination>): (t: State)
    requires Known(s)
    ensures Known(t) && |t.counts| == |s.counts|
  {
    if h >= |s.counts| then s else s.(bindings := s.bindings + Created(h, combos))
  }

  /** obs_hotkey_load_bindings and obs_hotkey_load: first the old ones are removed. */
  function Reloaded(s: State, h: nat, combos: seq<Combination>): (t: State)
    requires Known(s)
    ensures Known(t) && |t.counts| == |s.counts|
  {
    if h >= |s.counts| then s else Appended(Removed(s, h), h, combos)
  }

  function Next(s: State, step: Step): (t: State)
    requires Known(s)
    ensures Known(t) && |s.counts| <= |t.counts|
  {
    match step
    case Register(saved) => Appended(s.(counts := s.counts + [0]), |s.counts|, saved)
    case Round(event) => Rounded(s, |s.bindings|, event)
    case Reload(h, combos) => Reloaded(s, h, combos)
    case Append(h, combos) => Appended(s, h, combos)
  }

  ghost function Run(steps: seq<Step>): (s: State)
    ensures Known(s)
  {
    if steps == [] then FRESH else Next(Run(steps[..|steps| - 1]), steps[|steps| - 1])
  }

  // ---------------------------------------------------------------- the invariant

  /** How many bindings of a hotkey are pressed. */
  function Held(bindings: seq<Binding>, h: nat): nat {
    if bindings == [] then 0
    else Held(bindings[..|bindings| - 1], h) + One(bindings[|bindings| - 1], h)
  }

  function One(b: Binding, h: nat): nat {
    if b.hotkey == h && b.pressed then 1 else 0
  }

  /** What the hotkey was told last. */
  function Down(edges: seq<Edge>, h: nat): bool {
    if edges == [] then false
    else if edges[|edges| - 1].hotkey == h then edges[|edges| - 1].down
    else Down(edges[..|edges| - 1], h)
  }

  /** Every call tells its hotkey the opposite of the last one; the first one is a press. */
  ghost predicate Alternates(edges: seq<Edge>) {
    edges == [] ||
    (var last := edges[|edges| - 1];
     Alternates(edges[..|edges| - 1]) && last.down != Down(edges[..|edges| - 1], last.hotkey))
  }

  ghost predicate Counted(s: State, h: nat)
    requires h < |s.counts|
  {
    s.counts[h] == Held(s.bindings, h) && (Down(s.edges, h) <==> s.counts[h] > 0)
  }

  ghost predicate AllCounted(s: State) {
    && (forall h :: 0 <= h < |s.counts| ==> Counted(s, h))
    && (forall h :: h >= |s.counts| ==> !Down(s.edges, h))
  }

  ghost predicate Inv(s: State) {
    Known(s) && Alternates(s.edges) && AllCounted(s)
  }

  lemma {:induction false} HeldConcat(a: seq<Binding>, b: seq<Binding>, h: nat)
    ensures Held(a + b, h) == Held(a, h) + Held(b, h)
  {
    if b == [] {
      assert a + b == a;
    } else {
      assert (a + b)[..|a + b| - 1] == a + b[..|b| - 1];
      HeldConcat(a, b[..|b| - 1], h);
    }
  }

  lemma {:induction false} HeldAround(a: seq<Binding>, i: nat, h: nat)
    requires i < |a|
    ensures Held(a, h) == Held(a[..i], h) + One(a[i], h) + Held(a[i + 1..], h)
  {
    assert a == (a[..i] + [a[i]]) + a[i + 1..];
    HeldConcat(a[..i] + [a[i]], a[i + 1..], h);
    assert (a[..i] + [a[i]])[..i] == a[..i];
  }

  lemma HeldUpdate(a: seq<Binding>, i: nat, b: Binding, h: nat)
    requires i < |a|
    ensures Held(a[i := b], h) == Held(a, h) - One(a[i], h) + One(b, h)
  {
    HeldAround(a, i, h);
    HeldAround(a[i := b], i, h);
    assert a[i := b][..i] == a[..i] && a[i := b][i + 1..] == a[i + 1..];
  }

  lemma {:induction false} HeldWithout(a: seq<Binding>, i: nat, h: nat)
    requires i < |a|
    ensures Held(a[..i] + a[i + 1..], h) == Held(a, h) - One(a[i], h)
  {
    HeldAround(a, i, h);
    HeldConcat(a[..i], a[i + 1..], h);
  }

  lemma {:induction false} DownNext(edges: seq<Edge>, e: Edge, h: nat)
    ensures Down(edges + [e], h) == if e.hotkey == h then e.down else Down(edges, h)
    ensures Alternates(edges) && e.down != Down(edges, e.hotkey) ==> Alternates(edges + [e])
  {
    assert (edges + [e])[..|edges|] == edges;
  }

  function Delta(effect: Effect): int {
    match effect
    case Nothing => 0
    case Press => 1
    case Release => -1
  }

  function Told(s: State, h: nat, effect: Effect): seq<Edge>
    requires h < |s.counts|
  {
    if effect.Press? && s.counts[h] == 0 then [Edge(h, true)]
    else if effect.Release? && s.counts[h] == 1 then [Edge(h, false)]
    else []
  }

  lemma {:induction false} AppliedEdges(s: State, h: nat, effect: Effect)
    requires h < |s.counts| && Alternates(s.edges) && (Down(s.edges, h) <==> s.counts[h] > 0)
    ensures Applied(s, h, effect).edges == s.edges + Told(s, h, effect)
    ensures Alternates(Applied(s, h, effect).edges)
    ensures forall k :: Down(Applied(s, h, effect).edges, k) ==
                        if k == h && Told(s, h, effect) != [] then effect.Press? else Down(s.edges, k)
  {
    assert s.edges + [] == s.edges;
    forall k
      ensures Down(s.edges + [Edge(h, true)], k) == if k == h then true else Down(s.edges, k)
      ensures Down(s.edges + [Edge(h, false)], k) == if k == h then false else Down(s.edges, k)
    {
      DownNext(s.edges, Edge(h, true), k);
      DownNext(s.edges, Edge(h, false), k);
    }
    DownNext(s.edges, Edge(h, true), h);
    DownNext(s.edges, Edge(h, false), h);
  }

  /** The counter follows the bindings, so the calls keep alternating. */
  lemma {:induction false} AppliedKeepsInv(s: State, hot: nat, effect: Effect, bs: seq<Binding>)
    requires Inv(s) && hot < |s.counts|
    requires forall i :: 0 <= i < |bs| ==> bs[i].hotkey < |s.counts|
    requires forall h :: Held(bs, h) == Held(s.bindings, h) + if h == hot then Delta(effect) else 0
    ensures Inv(Applied(s, hot, effect).(bindings := bs))
  {
    var t := Applied(s, hot, effect).(bindings := bs);
    assert Counted(s, hot);
    AppliedEdges(s, hot, effect);
    forall h | 0 <= h < |t.counts|
      ensures Counted(t, h)
    {
      assert Counted(s, h);
      assert Held(bs, h) == Held(s.bindings, h) + if h == hot then Delta(effect) else 0;
    }
  }

  lemma HandledAtKeepsInv(s: State, i: nat, e: Event, t: State)
    requires Inv(s) && i < |s.bindings| && t == HandledAt(s, i, e)
    ensures Inv(t)
  {
    var b := s.bindings[i];
    var bs := s.bindings[i := Handled(b, e)];
    forall h
      ensures Held(bs, h) == Held(s.bindings, h) + if h == b.hotkey then Delta(EffectOf(b, e)) else 0
    {
      HeldUpdate(s.bindings, i, Handled(b, e), h);
    }
    AppliedKeepsInv(s, b.hotkey, EffectOf(b, e), bs);
  }

  lemma {:induction false} RoundedKeepsInv(s: State, n: nat, e: Event)
    requires Inv(s) && n <= |s.bindings|
    ensures Inv(Rounded(s, n, e))
  {
    if n > 0 {
      RoundedKeepsInv(s, n - 1, e);
      HandledAtKeepsInv(Rounded(s, n - 1, e), n - 1, e, Rounded(s, n, e));
    }
  }

  lemma RemovedAtKeepsInv(s: State, i: nat)
    requires Inv(s) && i < |s.bindings|
    ensures Inv(RemovedAt(s, i))
  {
    var b := s.bindings[i];
    var bs := s.bindings[..i] + s.bindings[i + 1..];
    var effect := if b.pressed then Release else Nothing;
    forall h
      ensures Held(bs, h) == Held(s.bindings, h) + if h == b.hotkey then Delta(effect) else 0
    {
      HeldWithout(s.bindings, i, h);
    }
    AppliedKeepsInv(s, b.hotkey, effect, bs);
  }

  lemma {:induction false} RemovedKeepsInv(s: State, h: nat)
    requires Inv(s)
    ensures Inv(Removed(s, h))
    decreases |s.bindings|
  {
    var i := FirstOf(s.bindings, h);
    if i < |s.bindings| {
      RemovedAtKeepsInv(s, i);
      RemovedKeepsInv(RemovedAt(s, i), h);
    }
  }

  lemma {:induction false} NothingHeld(bs: seq<Binding>, h: nat)
    requires forall i :: 0 <= i < |bs| ==> !bs[i].pressed || bs[i].hotkey != h
    ensures Held(bs, h) == 0
  {
    if bs != [] {
      NothingHeld(bs[..|bs| - 1], h);
    }
  }

  /** New bindings are not pressed, so nothing is counted or told. */
  lemma AppendedKeepsInv(s: State, h: nat, combos: seq<Combination>)
    requires Inv(s)
    ensures Inv(Appended(s, h, combos))
  {
    if h < |s.counts| {
      var bs := s.bindings + Created(h, combos);
      forall k
        ensures Held(bs, k) == Held(s.bindings, k) + if k == h then Delta(Nothing) else 0
      {
        HeldConcat(s.bindings, Created(h, combos), k);
        NothingHeld(Created(h, combos), k);
      }
      AppliedKeepsInv(s, h, Nothing, bs);
    }
  }

  lemma ReloadedKeepsInv(s: State, h: nat, combos: seq<Combination>)
    requires Inv(s)
    ensures Inv(Reloaded(s, h, combos))
  {
    if h < |s.counts| {
      RemovedKeepsInv(s, h);
      AppendedKeepsInv(Removed(s, h), h, combos);
    }
  }

  /** A new hotkey has no bindings but those saved for it. */
  lemma RegisterKeepsInv(s: State, saved: seq<Combination>)
    requires Inv(s)
    ensures Inv(Next(s, Register(saved)))
  {
    var t := s.(counts := s.counts + [0]);
    forall h | 0 <= h < |t.counts|
      ensures Counted(t, h)
    {
      if h < |s.counts| {
        assert Counted(s, h);
      } else {
        NothingHeld(s.bindings, h);
      }
    }
    assert Inv(t);
    AppendedKeepsInv(t, |s.counts|, saved);
  }

  /** In every run of polls, injected events, registrations, loads and reloads, a hotkey's counter is the number
      of its pressed bindings, and its function hears of presses and releases in turn, a press first. */
  lemma {:induction false} RunInv(steps: seq<Step>)
    ensures Inv(Run(steps))
  {
    if steps != [] {
      var before := Run(steps[..|steps| - 1]);
      RunInv(steps[..|steps| - 1]);
      match steps[|steps| - 1] {
        case Register(saved) => RegisterKeepsInv(before, saved);
        case Round(event) => RoundedKeepsInv(before, |before.bindings|, event);
        case Reload(h, combos) => ReloadedKeepsInv(before, h, combos);
        case Append(h, combos) => AppendedKeepsInv(before, h, combos);
      }
    }
  }

  /** After a reload nothing of the hotkey is held any more, and it knows. */
  lemma {:induction false} ReloadReleases(steps: seq<Step>, h: nat, combos: seq<Combination>)
    requires h < |Run(steps).counts|
    ensures var s := Reloaded(Run(steps), h, combos); s.counts[h] == 0 && !Down(s.edges, h)
  {
    var r := Removed(Run(steps), h);
    var s := Reloaded(Run(steps), h, combos);
    RunInv(steps);
    RemovedKeepsInv(Run(steps), h);
    ReloadedKeepsInv(Run(steps), h, combos);
    HeldConcat(r.bindings, Created(h, combos), h);
    NothingHeld(r.bindings, h);
    NothingHeld(Created(h, combos), h);
    assert Counted(s, h);
  }

  // ---------------------------------------------------------------- a binding to nothing

  predicate Empty(c: Combination) {
    c.modifiers == 0 && c.key == KEY_NONE
  }

  ghost predicate EmptyIdle(bindings: seq<Binding>) {
    forall i :: 0 <= i < |bindings| && Empty(bindings[i].combo) ==> !bindings[i].pressed
  }

  lemma {:induction false} RoundedKeepsIdle(s: State, n: nat, e: Event)
    requires Known(s) && n <= |s.bindings| && EmptyIdle(s.bindings)
    ensures EmptyIdle(Rounded(s, n, e).bindings)
  {
    if n > 0 {
      RoundedKeepsIdle(s, n - 1, e);
      HandledKeepsIdle(Rounded(s, n - 1, e), n - 1, e, Rounded(s, n, e));
    }
  }

  /** handle_binding always takes its `reset` way for such a binding. */
  lemma HandledKeepsIdle(s: State, i: nat, e: Event, t: State)
    requires Known(s) && i < |s.bindings| && t == HandledAt(s, i, e) && EmptyIdle(s.bindings)
    ensures EmptyIdle(t.bindings)
  {
    assert t.bindings == s.bindings[i := Handled(s.bindings[i], e)];
  }

  lemma {:induction false} RemovedKeepsIdle(s: State, h: nat)
    requires Known(s) && EmptyIdle(s.bindings)
    ensures EmptyIdle(Removed(s, h).bindings)
    decreases |s.bindings|
  {
    var i := FirstOf(s.bindings, h);
    if i < |s.bindings| {
      assert RemovedAt(s, i).bindings == s.bindings[..i] + s.bindings[i + 1..];
      RemovedKeepsIdle(RemovedAt(s, i), h);
    }
  }

  /** A binding without modifiers and without a key is never pressed in any run. */
  lemma {:induction false} EmptyNeverPressed(steps: seq<Step>)
    ensures EmptyIdle(Run(steps).bindings)
  {
    if steps != [] {
      var before := Run(steps[..|steps| - 1]);
      EmptyNeverPressed(steps[..|steps| - 1]);
      match steps[|steps| - 1] {
        case Register(saved) =>
        case Round(event) => RoundedKeepsIdle(before, |before.bindings|, event);
        case Reload(h, combos) => RemovedKeepsIdle(before, h);
        case Append(h, combos) =>
      }
    }
  }
}
