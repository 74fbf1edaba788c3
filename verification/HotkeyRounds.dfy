/** When a round presses a binding and when it releases one, flag by flag and key by key. */
module HotkeyRounds {
  import opened Keys
  import opened Hotkeys

  // ----- modifier flags

  /** A single bit of a modifier mask. */
  predicate IsFlag(f: bv32) {
    f != 0 && f & (f - 1) == 0
  }

  predicate Has(modifiers: bv32, f: bv32) {
    modifiers & f != 0
  }

  ghost predicate NoFlags(modifiers: bv32) {
    forall f :: IsFlag(f) ==> !Has(modifiers, f)
  }

  ghost predicate AllIn(a: bv32, b: bv32) {
    forall f :: IsFlag(f) && Has(a, f) ==> Has(b, f)
  }

  /** Every flag wanted is held; and, if modifiers are strict and any is wanted, no other. */
  ghost predicate Fits(want: bv32, held: bv32, strict: bool) {
    AllIn(want, held) && (strict && !NoFlags(want) ==> AllIn(held, want))
  }

  /** The lowest bit that is set. */
  lemma LowestFlag(x: bv32) returns (f: bv32)
    requires x != 0
    ensures IsFlag(f) && x & f == f
  {
    f := x & (!x + 1);
  }

  lemma FlagSet(x: bv32, f: bv32)
    requires f != 0 && x & f == f
    ensures Has(x, f)
  {
  }

  lemma NoFlagsIsZero(m: bv32)
    ensures NoFlags(m) <==> m == 0
  {
    if m != 0 {
      var f := LowestFlag(m);
      FlagSet(m, f);
    }
  }

  lemma HeldFlag(want: bv32, held: bv32, f: bv32)
    requires want & !held == 0 && Has(want, f)
    ensures Has(held, f)
  {
  }

  lemma FlagHeldOrMissing(want: bv32, held: bv32, f: bv32)
    requires IsFlag(f) && (Has(want, f) ==> Has(held, f))
    ensures !Has(want & !held, f)
  {
  }

  lemma NothingMissing(want: bv32, held: bv32)
    requires want & held == want
    ensures want & !held == 0
  {
  }

  lemma AllThere(want: bv32, held: bv32)
    requires want & !held == 0
    ensures want & held == want
  {
  }

  lemma AllHeld(want: bv32, held: bv32, missing: bv32)
    requires missing == want & !held
    ensures AllIn(want, held) <==> missing == 0
  {
    NoFlagsIsZero(missing);
    if missing == 0 {
      forall f | IsFlag(f) && Has(want, f)
        ensures Has(held, f)
      {
        HeldFlag(want, held, f);
      }
    }
    if AllIn(want, held) {
      forall f | IsFlag(f)
        ensures !Has(missing, f)
      {
        FlagHeldOrMissing(want, held, f);
      }
    }
  }

  lemma HeldIff(want: bv32, held: bv32)
    ensures AllIn(want, held) <==> want & held == want
  {
    AllHeld(want, held, want & !held);
    if want & held == want {
      NothingMissing(want, held);
    }
    if want & !held == 0 {
      AllThere(want, held);
    }
  }

  lemma SameIff(a: bv32, b: bv32)
    ensures a == b <==> a & b == a && b & a == b
  {
  }

  lemma AllInBoth(a: bv32, b: bv32)
    ensures AllIn(a, b) && AllIn(b, a) <==> a == b
  {
    HeldIff(a, b);
    HeldIff(b, a);
    SameIff(a, b);
  }

  lemma ZeroIn(a: bv32, b: bv32)
    requires a == 0
    ensures a & b == a
  {
  }

  lemma FitsLoosely(want: bv32, held: bv32)
    ensures Fits(want, held, false) <==> want == 0 || want & held == want
  {
    HeldIff(want, held);
    if want == 0 {
      ZeroIn(want, held);
    }
  }

  lemma FitsStrictly(want: bv32, held: bv32)
    ensures Fits(want, held, true) <==> want == 0 || want == held
  {
    NoFlagsIsZero(want);
    AllInBoth(want, held);
  }

  lemma MaskFits(want: bv32, held: bv32, strict: bool)
    ensures Fits(want, held, strict) <==> MaskMatches(want, held, strict)
  {
    if strict {
      FitsStrictly(want, held);
    } else {
      FitsLoosely(want, held);
    }
  }

  lemma FitsMatch(b: Binding, held: bv32, strict: bool)
    ensures Fits(b.combo.modifiers, held, strict) <==> ModifiersMatch(b, held, strict)
  {
    MaskFits(b.combo.modifiers, held, strict);
  }

  // ----- one binding

  /** Only modifiers are bound: the key never matters. */
  predicate Keyless(b: Binding) {
    b.combo.key == KEY_NONE
  }

  /** The key counts as down: in a poll when it is held, in an injected event when it is that key's press. */
  ghost predicate KeyIsDown(b: Binding, e: Event) {
    match e
    case Poll(_, held, _, _) => b.combo.key in held
    case Inject(combo, down, _) => combo.key == b.combo.key && down
  }

  ghost predicate EventFits(b: Binding, e: Event) {
    match e
    case Poll(modifiers, _, _, strict) => Fits(b.combo.modifiers, modifiers, strict)
    case Inject(combo, _, strict) => Fits(b.combo.modifiers, combo.modifiers, strict)
  }

  /** With a key and modifiers, the modifiers must have fitted in an earlier round too. */
  ghost predicate SeenBefore(b: Binding) {
    NoFlags(b.combo.modifiers) || Keyless(b) || b.modifiersMatch
  }

  /** The event holds the binding down. */
  ghost predicate HeldDown(b: Binding, e: Event) {
    && !(NoFlags(b.combo.modifiers) && Keyless(b))
    && EventFits(b, e) && SeenBefore(b) && (Keyless(b) || KeyIsDown(b, e))
  }

  ghost predicate MayPress(e: Event) {
    e.Poll? ==> !e.noPress
  }

  /** An injected event is heard only by the bindings whose modifiers it fits. */
  ghost predicate Hears(b: Binding, e: Event) {
    e.Poll? || EventFits(b, e)
  }

  /** What a round makes of a binding: a released one is pressed exactly if the event holds it down and may
      press, and a pressed one is released exactly if the event is heard and does not hold it down. */
  ghost predicate RoundRight(b: Binding, e: Event, after: Binding) {
    && after.combo == b.combo && after.hotkey == b.hotkey
    && (!b.pressed ==> (after.pressed <==> HeldDown(b, e) && MayPress(e)))
    && (b.pressed ==> (!after.pressed <==> Hears(b, e) && !HeldDown(b, e)))
  }

  lemma HandledRight(b: Binding, e: Event)
    ensures RoundRight(b, e, Handled(b, e))
  {
    FitsMatch(b, EventModifiers(e), e.strict);
    NoFlagsIsZero(b.combo.modifiers);
  }

  /** With a key and modifiers, a round that is heard notes whether the modifiers fitted. */
  lemma HandledNotes(b: Binding, e: Event)
    requires !NoFlags(b.combo.modifiers) && !Keyless(b)
    ensures Handled(b, e).modifiersMatch == if Hears(b, e) then EventFits(b, e) else b.modifiersMatch
  {
    FitsMatch(b, EventModifiers(e), e.strict);
    NoFlagsIsZero(b.combo.modifiers);
  }

  /** Without modifiers there is nothing to wait for: any round that is heard notes that they fit. */
  lemma FlaglessNotes(b: Binding, e: Event)
    requires NoFlags(b.combo.modifiers)
    ensures Hears(b, e) && Handled(b, e).modifiersMatch
  {
    FitsMatch(b, EventModifiers(e), e.strict);
    NoFlagsIsZero(b.combo.modifiers);
  }

  // ----- whole rounds

  lemma {:induction false} RoundedAt(s: State, n: nat, e: Event, i: nat)
    requires Known(s) && i < |s.bindings| && n <= |s.bindings|
    ensures Rounded(s, n, e).bindings[i] == if i < n then Handled(s.bindings[i], e) else s.bindings[i]
  {
    if n > 0 {
      RoundedAt(s, n - 1, e, i);
      HandledAtBindings(Rounded(s, n - 1, e), n - 1, e);
    }
  }

  lemma HandledAtBindings(s: State, i: nat, e: Event)
    requires Known(s) && i < |s.bindings|
    ensures HandledAt(s, i, e).bindings == s.bindings[i := Handled(s.bindings[i], e)]
  {
  }

  /** One round does that to every binding. */
  lemma RoundsRight(s: State, e: Event, i: nat)
    requires Known(s) && i < |s.bindings|
    ensures RoundRight(s.bindings[i], e, Next(s, Round(e)).bindings[i])
  {
    RoundedAt(s, |s.bindings|, e, i);
    HandledRight(s.bindings[i], e);
  }

  lemma AllRoundsRight(s: State, e: Event)
    requires Known(s)
    ensures |Next(s, Round(e)).bindings| == |s.bindings|
    ensures forall i :: 0 <= i < |s.bindings| ==> RoundRight(s.bindings[i], e, Next(s, Round(e)).bindings[i])
  {
    forall i | 0 <= i < |s.bindings|
      ensures RoundRight(s.bindings[i], e, Next(s, Round(e)).bindings[i])
    {
      RoundsRight(s, e, i);
    }
  }

  // ----- what an earlier round has seen

  ghost function Rounds(s: State, events: seq<Event>): (t: State)
    requires Known(s)
    ensures Known(t) && |t.bindings| == |s.bindings|
  {
    if events == [] then s else Next(Rounds(s, events[..|events| - 1]), Round(events[|events| - 1]))
  }

  /** Whether the modifiers fitted in the last of the events that the binding heard. */
  ghost predicate LastFitted(b: Binding, events: seq<Event>) {
    if events == [] then b.modifiersMatch
    else
      var last := events[|events| - 1];
      if Hears(b, last) then EventFits(b, last) else LastFitted(b, events[..|events| - 1])
  }

  lemma {:induction false} RoundsNote(s: State, events: seq<Event>, i: nat)
    requires Known(s) && i < |s.bindings|
    requires !NoFlags(s.bindings[i].combo.modifiers) && !Keyless(s.bindings[i])
    ensures var b := Rounds(s, events).bindings[i];
            b.combo == s.bindings[i].combo && b.modifiersMatch == LastFitted(s.bindings[i], events)
  {
    if events != [] {
      var n := |events| - 1;
      var before := Rounds(s, events[..n]);
      RoundsNote(s, events[..n], i);
      RoundedAt(before, |before.bindings|, events[n], i);
      HandledNotes(before.bindings[i], events[n]);
    }
  }

  /** So a binding with a key and modifiers is pressed exactly in a round in which the key is down and the
      modifiers fit, when they fitted already in the last round that it heard. */
  lemma {:induction false} PressedAfterRounds(s: State, events: seq<Event>, e: Event, i: nat)
    requires Known(s) && i < |s.bindings|
    requires !NoFlags(s.bindings[i].combo.modifiers) && !Keyless(s.bindings[i])
    requires !Rounds(s, events).bindings[i].pressed
    ensures var b := s.bindings[i];
            Next(Rounds(s, events), Round(e)).bindings[i].pressed <==>
              EventFits(b, e) && KeyIsDown(b, e) && MayPress(e) && LastFitted(b, events)
  {
    RoundsNote(s, events, i);
    RoundsRight(Rounds(s, events), e, i);
  }

  // ----- in every run a pressed binding has been seen before

  ghost predicate PressedSeen(bindings: seq<Binding>) {
    forall i :: 0 <= i < |bindings| && bindings[i].pressed ==> SeenBefore(bindings[i])
  }

  lemma HandledSeen(b: Binding, e: Event)
    requires b.pressed ==> SeenBefore(b)
    ensures Handled(b, e).pressed ==> SeenBefore(Handled(b, e))
  {
    FitsMatch(b, EventModifiers(e), e.strict);
    NoFlagsIsZero(b.combo.modifiers);
  }

  lemma {:induction false} RemovedKeepsSeen(s: State, h: nat)
    requires Known(s) && PressedSeen(s.bindings)
    ensures PressedSeen(Removed(s, h).bindings)
    decreases |s.bindings|
  {
    var i := FirstOf(s.bindings, h);
    if i < |s.bindings| {
      assert RemovedAt(s, i).bindings == s.bindings[..i] + s.bindings[i + 1..];
      RemovedKeepsSeen(RemovedAt(s, i), h);
    }
  }

  lemma RoundKeepsSeen(s: State, e: Event)
    requires Known(s) && PressedSeen(s.bindings)
    ensures PressedSeen(Next(s, Round(e)).bindings)
  {
    forall i | 0 <= i < |s.bindings|
      ensures Next(s, Round(e)).bindings[i].pressed ==> SeenBefore(Next(s, Round(e)).bindings[i])
    {
      RoundedAt(s, |s.bindings|, e, i);
      HandledSeen(s.bindings[i], e);
    }
  }

  lemma {:induction false} RunSeen(steps: seq<Step>)
    ensures PressedSeen(Run(steps).bindings)
  {
    if steps != [] {
      var before := Run(steps[..|steps| - 1]);
      RunSeen(steps[..|steps| - 1]);
      match steps[|steps| - 1] {
        case Register(saved) =>
        case Round(e) => RoundKeepsSeen(before, e);
        case Reload(h, combos) => RemovedKeepsSeen(before, h);
        case Append(h, combos) =>
      }
    }
  }

  /** In every run a pressed binding is released exactly when a round that it hears finds its key up or its
      modifiers not fitting. */
  lemma {:induction false} ReleasedInRuns(steps: seq<Step>, e: Event, i: nat)
    requires i < |Run(steps).bindings| && Run(steps).bindings[i].pressed
    ensures var b := Run(steps).bindings[i];
            !Next(Run(steps), Round(e)).bindings[i].pressed <==>
              if e.Poll? then !EventFits(b, e) || (!Keyless(b) && !KeyIsDown(b, e))
              else EventFits(b, e) && !Keyless(b) && !KeyIsDown(b, e)
  {
    RunSeen(steps);
    EmptyNeverPressed(steps);
    NoFlagsIsZero(Run(steps).bindings[i].combo.modifiers);
    RoundsRight(Run(steps), e, i);
  }

  /** Control and the key 7, not strict: with shift held as well, the modifiers first and then the key. */
  lemma ControlShiftKey()
    ensures var s := State([Binding(Combination(4, 7), false, false, 0)], [0], []);
            Rounds(s, [Poll(6, {}, false, false), Poll(6, {7}, false, false)]).bindings[0].pressed
  {
    var s := State([Binding(Combination(4, 7), false, false, 0)], [0], []);
    var first, second := Poll(6, {}, false, false), Poll(6, {7}, false, false);
    assert [first, second][..1] == [first] && [first][..0] == [];
    RoundedAt(s, 1, first, 0);
    RoundedAt(Rounds(s, [first]), 1, second, 0);
  }
}
