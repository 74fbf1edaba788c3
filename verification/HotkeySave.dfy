/** Saving the bindings of a hotkey as settings objects and loading them back by key name. */
module HotkeySave {
  import opened Wrappers
  import opened Sequences
  import opened Keys
  import opened Hotkeys
  import opened NameTable
  import Trie = NameTrie
  import opened DataTree
  import opened DataJson
  import opened JsonOrder

  const INTERACT_SHIFT_KEY: bv32 := 2
  const INTERACT_CONTROL_KEY: bv32 := 4
  const INTERACT_ALT_KEY: bv32 := 8
  const INTERACT_COMMAND_KEY: bv32 := 128
  const STORED_MODIFIERS: bv32 := 0x8E

  // ---------------------------------------------------------------- key names

  /** The table of key names, a key being its place in it. */
  function Table(names: seq<string>): (es: seq<Entry>)
    ensures |es| == |names| && forall i :: 0 <= i < |es| ==> es[i] == (names[i], i)
  {
    seq(|names|, i requires 0 <= i < |names| => (names[i], i))
  }

  function KeyToName(names: seq<string>, key: int): string {
    if 0 <= key < |names| then names[key] else ""
  }

  /** obs_key_from_name, by the trie. */
  function KeyFromName(names: seq<string>, name: string): int {
    match Trie.Lookup(Build(Table(names)), name)
    case Some(v) => v
    case None => KEY_NONE
  }

  ghost predicate GoodNames(names: seq<string>) {
    && names != []
    && (forall i :: 0 <= i < |names| ==> names[i] != "")
    && (forall i, j :: 0 <= i < j < |names| ==> names[i] != names[j])
  }

  lemma {:induction false} ScanFinds(es: seq<Entry>, k: nat)
    requires k < |es| && forall i :: 0 <= i < k ==> es[i].0 != es[k].0
    ensures Scan(es, es[k].0) == Some(es[k].1)
  {
    if k > 0 {
      ScanFinds(es[1..], k - 1);
    }
  }

  /** Names lead back to exactly the keys in the table. */
  lemma KeyRoundTrip(names: seq<string>, key: int)
    requires GoodNames(names)
    ensures KeyFromName(names, KeyToName(names, key)) == if 0 <= key < |names| then key else KEY_NONE
  {
    LookupIsScan(Table(names), KeyToName(names, key));
    if 0 <= key < |names| {
      ScanFinds(Table(names), key);
    } else {
      ScanAbsent(Table(names), "");
    }
  }

  // ---------------------------------------------------------------- one binding

  function SaveModifier(items: seq<Item>, modifiers: bv32, name: string, flag: bv32): seq<Item> {
    if modifiers & flag == flag then SetUser(items, name, Bool(true)) else items
  }

  function SavedModifiers(modifiers: bv32): seq<Item> {
    var shift := SaveModifier([], modifiers, "shift", INTERACT_SHIFT_KEY);
    var control := SaveModifier(shift, modifiers, "control", INTERACT_CONTROL_KEY);
    var alt := SaveModifier(control, modifiers, "alt", INTERACT_ALT_KEY);
    SaveModifier(alt, modifiers, "command", INTERACT_COMMAND_KEY)
  }

  function SaveBinding(names: seq<string>, c: Combination): Data {
    Data(SetUser(SavedModifiers(c.modifiers), "key", Str(KeyToName(names, c.key))))
  }

  /** The value a getter sees: the user's, else the default, else the automatic one. */
  function Shown(items: seq<Item>, name: string): Option<Val> {
    match Find(items, name)
    case None => None
    case Some(item) =>
      if item.user.Some? then item.user else if item.default.Some? then item.default else item.autoselect
  }

  function GetBool(d: Data, name: string): bool {
    match Shown(d.items, name)
    case Some(Bool(b)) => b
    case _ => false
  }

  function GetString(d: Data, name: string): string {
    match Shown(d.items, name)
    case Some(Str(s)) => s
    case _ => ""
  }

  function LoadModifier(d: Data, name: string, flag: bv32): bv32 {
    if GetBool(d, name) then flag else 0
  }

  /** load_binding; the test that is meant to skip a binding looks at a pointer that is never null. */
  function LoadBinding(names: seq<string>, d: Data): Combination {
    Combination(LoadModifier(d, "shift", INTERACT_SHIFT_KEY) | LoadModifier(d, "control", INTERACT_CONTROL_KEY)
                | LoadModifier(d, "alt", INTERACT_ALT_KEY) | LoadModifier(d, "command", INTERACT_COMMAND_KEY),
                KeyFromName(names, GetString(d, "key")))
  }

  /** No name of a key leads to KEY_NONE but the first one. */
  lemma NamesNoKey(names: seq<string>, name: string)
    requires GoodNames(names)
    ensures KeyFromName(names, name) == KEY_NONE <==> forall i :: 0 < i < |names| ==> names[i] != name
  {
    LookupIsScan(Table(names), name);
    if i :| 0 <= i < |names| && names[i] == name {
      ScanFinds(Table(names), i);
    } else {
      ScanAbsent(Table(names), name);
    }
  }

  lemma NoFlag(a: bv32, b: bv32, c: bv32, d: bv32)
    ensures a | b | c | d == 0 <==> a == 0 && b == 0 && c == 0 && d == 0
  {
  }

  /** A binding to nothing comes from exactly the objects that set none of the four flags and name no key;
      they are what a test of the flags and the key's name would have skipped. */
  lemma LoadsEmptyIff(names: seq<string>, d: Data)
    requires GoodNames(names)
    ensures Empty(LoadBinding(names, d)) <==>
      && !GetBool(d, "shift") && !GetBool(d, "control") && !GetBool(d, "alt") && !GetBool(d, "command")
      && forall i :: 0 < i < |names| ==> names[i] != GetString(d, "key")
  {
    NamesNoKey(names, GetString(d, "key"));
    NoFlag(LoadModifier(d, "shift", INTERACT_SHIFT_KEY), LoadModifier(d, "control", INTERACT_CONTROL_KEY),
           LoadModifier(d, "alt", INTERACT_ALT_KEY), LoadModifier(d, "command", INTERACT_COMMAND_KEY));
  }

  lemma {:induction false} EmptyObjectLoads(names: seq<string>)
    requires GoodNames(names)
    ensures |Load(names, [Data([])])| == 1 && Empty(Load(names, [Data([])])[0])
  {
    NamesNoKey(names, "");
    LoadsEmptyIff(names, Data([]));
    assert Load(names, [Data([])]) == [LoadBinding(names, Data([]))];
  }

  lemma {:induction false} RunAppend(steps: seq<Step>, h: nat, combos: seq<Combination>)
    requires h < |Run(steps).counts|
    ensures Run(steps + [Append(h, combos)]).bindings == Run(steps).bindings + Created(h, combos)
  {
    assert (steps + [Append(h, combos)])[..|steps|] == steps;
  }

  /** The empty object is one: it becomes a binding, which then is never pressed. */
  lemma {:induction false} EmptyObjectIsLoaded(names: seq<string>, steps: seq<Step>, h: nat)
    requires GoodNames(names) && h < |Run(steps).counts|
    ensures var combos := Load(names, [Data([])]);
      && |combos| == 1 && Empty(combos[0])
      && Run(steps + [Append(h, combos)]).bindings == Run(steps).bindings + [Binding(combos[0], false, false, h)]
  {
    EmptyObjectLoads(names);
    RunAppend(steps, h, Load(names, [Data([])]));
  }

  // ---------------------------------------------------------------- what saving puts into the object

  predicate PlainItem(x: Item) {
    x.default.None? && x.autoselect.None? && x.user.Some? && (x.user.value.Bool? || x.user.value.Str?)
  }

  ghost predicate Plain(items: seq<Item>) {
    && Sorted(items)
    && forall x :: x in items ==> PlainItem(x)
  }

  lemma {:induction false} SetPlain(items: seq<Item>, name: string, v: Val)
    requires Plain(items) && Find(items, name).None? && (v.Bool? || v.Str?)
    ensures Plain(SetUser(items, name, v))
  {
    SetUserSorted(items, name, v);
    PlaceMembers(items, Item(name, Some(v), None, None));
  }

  function Flag(name: string, modifiers: bv32, flag: bv32): Option<Item> {
    if modifiers & flag == flag then Some(Item(name, Some(Bool(true)), None, None)) else None
  }

  lemma {:induction false} SaveModifierFind(items: seq<Item>, modifiers: bv32, name: string, flag: bv32, other: string)
    requires Find(items, name).None?
    ensures Find(SaveModifier(items, modifiers, name, flag), other) ==
            if other == name then Flag(name, modifiers, flag) else Find(items, other)
  {
    if modifiers & flag == flag {
      SetUserFind(items, name, Bool(true), other);
    }
  }

  lemma {:induction false} SaveModifierPlain(items: seq<Item>, modifiers: bv32, name: string, flag: bv32)
    requires Plain(items) && Find(items, name).None?
    ensures Plain(SaveModifier(items, modifiers, name, flag))
  {
    if modifiers & flag == flag {
      SetPlain(items, name, Bool(true));
    }
  }

  function FlagOf(name: string): bv32 {
    if name == "shift" then INTERACT_SHIFT_KEY
    else if name == "control" then INTERACT_CONTROL_KEY
    else if name == "alt" then INTERACT_ALT_KEY
    else if name == "command" then INTERACT_COMMAND_KEY
    else 0
  }

  /** The object has the four names as far as their modifiers are set, and nothing else. */
  lemma {:induction false} SavedModifiersFind(modifiers: bv32, other: string)
    ensures Find(SavedModifiers(modifiers), other) ==
            if FlagOf(other) == 0 then None else Flag(other, modifiers, FlagOf(other))
  {
    var shift := SaveModifier([], modifiers, "shift", INTERACT_SHIFT_KEY);
    var control := SaveModifier(shift, modifiers, "control", INTERACT_CONTROL_KEY);
    var alt := SaveModifier(control, modifiers, "alt", INTERACT_ALT_KEY);
    DistinctNames();
    SaveModifierFind([], modifiers, "shift", INTERACT_SHIFT_KEY, "control");
    SaveModifierFind([], modifiers, "shift", INTERACT_SHIFT_KEY, "alt");
    SaveModifierFind([], modifiers, "shift", INTERACT_SHIFT_KEY, "command");
    SaveModifierFind([], modifiers, "shift", INTERACT_SHIFT_KEY, other);
    SaveModifierFind(shift, modifiers, "control", INTERACT_CONTROL_KEY, "alt");
    SaveModifierFind(shift, modifiers, "control", INTERACT_CONTROL_KEY, "command");
    SaveModifierFind(shift, modifiers, "control", INTERACT_CONTROL_KEY, other);
    SaveModifierFind(control, modifiers, "alt", INTERACT_ALT_KEY, "command");
    SaveModifierFind(control, modifiers, "alt", INTERACT_ALT_KEY, other);
    SaveModifierFind(alt, modifiers, "command", INTERACT_COMMAND_KEY, other);
  }

  lemma SavedModifiersPlain(modifiers: bv32)
    ensures Plain(SavedModifiers(modifiers))
  {
    var shift := SaveModifier([], modifiers, "shift", INTERACT_SHIFT_KEY);
    var control := SaveModifier(shift, modifiers, "control", INTERACT_CONTROL_KEY);
    var alt := SaveModifier(control, modifiers, "alt", INTERACT_ALT_KEY);
    DistinctNames();
    SaveModifierPlain([], modifiers, "shift", INTERACT_SHIFT_KEY);
    SaveModifierFind([], modifiers, "shift", INTERACT_SHIFT_KEY, "control");
    SaveModifierFind([], modifiers, "shift", INTERACT_SHIFT_KEY, "alt");
    SaveModifierFind([], modifiers, "shift", INTERACT_SHIFT_KEY, "command");
    SaveModifierPlain(shift, modifiers, "control", INTERACT_CONTROL_KEY);
    SaveModifierFind(shift, modifiers, "control", INTERACT_CONTROL_KEY, "alt");
    SaveModifierFind(shift, modifiers, "control", INTERACT_CONTROL_KEY, "command");
    SaveModifierPlain(control, modifiers, "alt", INTERACT_ALT_KEY);
    SaveModifierFind(control, modifiers, "alt", INTERACT_ALT_KEY, "command");
    SaveModifierPlain(alt, modifiers, "command", INTERACT_COMMAND_KEY);
  }

  lemma DistinctNames()
    ensures "shift" != "control" && "shift" != "alt" && "shift" != "command" && "shift" != "key"
    ensures "control" != "alt" && "control" != "command" && "control" != "key"
    ensures "alt" != "command" && "alt" != "key" && "command" != "key"
  {
    assert "shift"[0] == 's' && "control"[0] == 'c' && "alt"[0] == 'a' && "command"[0] == 'c' && "key"[0] == 'k';
    assert "control"[2] == 'n' && "command"[2] == 'm';
  }

  lemma {:induction false} PlainSaved(items: seq<Item>)
    requires Plain(items)
    ensures UserItems(items) == items && DeepItems(items)
  {
    if items != [] {
      PlainTail(items);
      PlainSaved(items[1..]);
      assert items == [items[0]] + items[1..];
    }
  }

  lemma {:induction false} PlainTail(items: seq<Item>)
    requires Plain(items) && items != []
    ensures Plain(items[1..])
    ensures PlainItem(items[0])
    ensures var x := items[0]; x == Item(x.name, Some(x.user.value), None, None)
  {
    SortedTail(items);
    assert items[0] in items;
    assert forall x :: x in items[1..] ==> x in items;
  }

  lemma SaveBindingPlain(names: seq<string>, c: Combination)
    ensures Plain(SaveBinding(names, c).items)
    ensures DeepSorted(SaveBinding(names, c)) && UserPart(SaveBinding(names, c)) == SaveBinding(names, c)
  {
    SavedModifiersPlain(c.modifiers);
    DistinctNames();
    SavedModifiersFind(c.modifiers, "key");
    SetPlain(SavedModifiers(c.modifiers), "key", Str(KeyToName(names, c.key)));
    PlainSaved(SaveBinding(names, c).items);
  }

  // ---------------------------------------------------------------- the round trip

  lemma FlagSaved(names: seq<string>, c: Combination, name: string)
    requires FlagOf(name) != 0
    ensures LoadModifier(SaveBinding(names, c), name, FlagOf(name)) == c.modifiers & FlagOf(name)
  {
    DistinctNames();
    SavedModifiersFind(c.modifiers, name);
    SavedModifiersFind(c.modifiers, "key");
    SetUserFind(SavedModifiers(c.modifiers), "key", Str(KeyToName(names, c.key)), name);
    OneBit(c.modifiers);
  }

  lemma OneBit(m: bv32)
    ensures m & 2 == 2 || m & 2 == 0
    ensures m & 4 == 4 || m & 4 == 0
    ensures m & 8 == 8 || m & 8 == 0
    ensures m & 128 == 128 || m & 128 == 0
  {
  }

  lemma FourBits(m: bv32)
    ensures (m & 2) | (m & 4) | (m & 8) | (m & 128) == m & 0x8E
  {
  }

  lemma KeySaved(names: seq<string>, c: Combination)
    ensures GetString(SaveBinding(names, c), "key") == KeyToName(names, c.key)
  {
    SetUserFind(SavedModifiers(c.modifiers), "key", Str(KeyToName(names, c.key)), "key");
    DistinctNames();
    SavedModifiersFind(c.modifiers, "key");
  }

  /** The key is saved by its name, the first one included. */
  lemma KeyNamed(names: seq<string>, c: Combination)
    requires 0 <= c.key < |names|
    ensures GetString(SaveBinding(names, c), "key") == names[c.key]
  {
    KeySaved(names, c);
  }

  /** The getters fall back from the user's value to the default, and from that to the automatic one. */
  lemma {:induction false} ShownFallsBack(items: seq<Item>, x: Item)
    requires Find(items, x.name) == Some(x)
    ensures x.user.Some? ==> Shown(items, x.name) == x.user
    ensures x.user.None? && x.default.Some? ==> Shown(items, x.name) == x.default
    ensures x.user.None? && x.default.None? ==> Shown(items, x.name) == x.autoselect
  {
  }

  /** What comes back: the four modifiers that are stored, and the key if it has a name. */
  lemma LoadSaved(names: seq<string>, c: Combination)
    requires GoodNames(names)
    ensures LoadBinding(names, SaveBinding(names, c)) ==
            Combination(c.modifiers & STORED_MODIFIERS, if 0 <= c.key < |names| then c.key else KEY_NONE)
  {
    DistinctNames();
    FlagSaved(names, c, "shift");
    FlagSaved(names, c, "control");
    FlagSaved(names, c, "alt");
    FlagSaved(names, c, "command");
    FourBits(c.modifiers);
    KeySaved(names, c);
    KeyRoundTrip(names, c.key);
  }

  predicate Storable(names: seq<string>, c: Combination) {
    c.modifiers & STORED_MODIFIERS == c.modifiers && 0 <= c.key < |names|
  }

  // ---------------------------------------------------------------- the bindings of a hotkey

  function CombosOf(bindings: seq<Binding>, h: nat): seq<Combination> {
    if bindings == [] then []
    else (if bindings[0].hotkey == h then [bindings[0].combo] else []) + CombosOf(bindings[1..], h)
  }

  function Save(names: seq<string>, combos: seq<Combination>): (ds: seq<Data>)
    ensures |ds| == |combos|
  {
    if combos == [] then [] else [SaveBinding(names, combos[0])] + Save(names, combos[1..])
  }

  function Load(names: seq<string>, ds: seq<Data>): (combos: seq<Combination>)
    ensures |combos| == |ds|
  {
    if ds == [] then [] else [LoadBinding(names, ds[0])] + Load(names, ds[1..])
  }

  lemma {:induction false} SaveSnoc(names: seq<string>, combos: seq<Combination>, c: Combination)
    ensures Save(names, combos + [c]) == Save(names, combos) + [SaveBinding(names, c)]
  {
    if combos == [] {
      assert [c][1..] == [] && combos + [c] == [c];
    } else {
      assert (combos + [c])[1..] == combos[1..] + [c];
      SaveSnoc(names, combos[1..], c);
    }
  }

  lemma {:induction false} LoadSnoc(names: seq<string>, ds: seq<Data>, d: Data)
    ensures Load(names, ds + [d]) == Load(names, ds) + [LoadBinding(names, d)]
  {
    if ds == [] {
      assert [d][1..] == [] && ds + [d] == [d];
    } else {
      assert (ds + [d])[1..] == ds[1..] + [d];
      LoadSnoc(names, ds[1..], d);
    }
  }

  /** save_hotkey: one object for every binding of the hotkey. */
  method SaveHotkey(names: seq<string>, bindings: seq<Binding>, h: nat) returns (objects: seq<Data>)
    ensures objects == Save(names, CombosOf(bindings, h))
  {
    objects := [];
    for i := 0 to |bindings|
      invariant objects == Save(names, CombosOf(bindings[..i], h))
    {
      TakeNext(bindings, i);
      CombosSnoc(bindings[..i], bindings[i], h);
      if bindings[i].hotkey == h {
        SaveSnoc(names, CombosOf(bindings[..i], h), bindings[i].combo);
        objects := objects + [SaveBinding(names, bindings[i].combo)];
      }
    }
    TakeAll(bindings);
  }

  /** load_bindings: no object is skipped. */
  method LoadHotkey(names: seq<string>, objects: seq<Data>) returns (combos: seq<Combination>)
    ensures combos == Load(names, objects)
  {
    combos := [];
    for i := 0 to |objects|
      invariant combos == Load(names, objects[..i])
    {
      TakeNext(objects, i);
      LoadSnoc(names, objects[..i], objects[i]);
      combos := combos + [LoadBinding(names, objects[i])];
    }
    TakeAll(objects);
  }

  lemma {:induction false} CombosSnoc(bs: seq<Binding>, b: Binding, h: nat)
    ensures CombosOf(bs + [b], h) == if b.hotkey == h then CombosOf(bs, h) + [b.combo] else CombosOf(bs, h)
  {
    CombosConcat(bs, [b], h);
    assert [b][1..] == [];
    assert CombosOf(bs, h) + [] == CombosOf(bs, h);
  }

  lemma {:induction false} SaveDeep(names: seq<string>, combos: seq<Combination>)
    ensures DeepAll(Save(names, combos)) && UserParts(Save(names, combos)) == Save(names, combos)
  {
    if combos != [] {
      SaveBindingPlain(names, combos[0]);
      SaveDeep(names, combos[1..]);
      assert Save(names, combos)[1..] == Save(names, combos[1..]);
    }
  }

  lemma {:induction false} LoadSave(names: seq<string>, combos: seq<Combination>)
    requires GoodNames(names)
    ensures Load(names, Save(names, combos)) == combos <==> forall i :: 0 <= i < |combos| ==> Storable(names, combos[i])
  {
    if combos != [] {
      LoadSaved(names, combos[0]);
      LoadSave(names, combos[1..]);
      assert Save(names, combos)[1..] == Save(names, combos[1..]);
      var loaded := Load(names, Save(names, combos));
      assert loaded[1..] == Load(names, Save(names, combos[1..]));
      assert loaded == combos <==> loaded[0] == combos[0] && loaded[1..] == combos[1..] by {
        SplitEqual(loaded, combos);
      }
      StorableTail(names, combos);
    }
  }

  lemma SplitEqual<T>(a: seq<T>, b: seq<T>)
    requires |a| == |b| && a != []
    ensures a == b <==> a[0] == b[0] && a[1..] == b[1..]
  {
    assert a == [a[0]] + a[1..] && b == [b[0]] + b[1..];
  }

  lemma StorableTail(names: seq<string>, combos: seq<Combination>)
    requires combos != []
    ensures (forall i :: 0 <= i < |combos| ==> Storable(names, combos[i])) <==>
            Storable(names, combos[0]) && forall i :: 0 <= i < |combos[1..]| ==> Storable(names, combos[1..][i])
  {
    assert forall i :: 0 < i < |combos| ==> combos[i] == combos[1..][i - 1];
  }

  /** Saving a hotkey's bindings to JSON and loading them gives the same list back, in whatever order the
      members of the saved objects are read, exactly if every binding uses only the stored modifiers and a
      key that has a name. */
  lemma {:induction false} SavedBindingsReturn(names: seq<string>, combos: seq<Combination>, j: Json)
    requires GoodNames(names) && Same(JArray(ToElements(Save(names, combos))), j)
    ensures ValOf(j) == Some(Arr(Save(names, combos)))
    ensures Load(names, Save(names, combos)) == combos <==> forall i :: 0 <= i < |combos| ==> Storable(names, combos[i])
  {
    SaveDeep(names, combos);
    SaveLoadArray(Save(names, combos), j);
    LoadSave(names, combos);
  }

  // ---------------------------------------------------------------- reloading

  lemma {:induction false} CombosConcat(a: seq<Binding>, b: seq<Binding>, h: nat)
    ensures CombosOf(a + b, h) == CombosOf(a, h) + CombosOf(b, h)
  {
    if a == [] {
      assert a + b == b;
    } else {
      assert (a + b)[1..] == a[1..] + b;
      CombosConcat(a[1..], b, h);
      Regroup(if a[0].hotkey == h then [a[0].combo] else [], CombosOf(a[1..], h), CombosOf(b, h));
    }
  }

  lemma {:induction false} CombosNone(bs: seq<Binding>, h: nat)
    requires forall i :: 0 <= i < |bs| ==> bs[i].hotkey != h
    ensures CombosOf(bs, h) == []
  {
    if bs != [] {
      CombosNone(bs[1..], h);
    }
  }

  lemma {:induction false} CombosCreated(h: nat, combos: seq<Combination>)
    ensures CombosOf(Created(h, combos), h) == combos
  {
    if combos != [] {
      assert Created(h, combos)[1..] == Created(h, combos[1..]);
      CombosCreated(h, combos[1..]);
      assert combos == [combos[0]] + combos[1..];
    }
  }

  lemma {:induction false} CombosWithout(bs: seq<Binding>, i: nat, g: nat)
    requires i < |bs| && bs[i].hotkey != g
    ensures CombosOf(bs[..i] + bs[i + 1..], g) == CombosOf(bs, g)
  {
    assert bs == bs[..i] + ([bs[i]] + bs[i + 1..]);
    CombosConcat(bs[..i], [bs[i]] + bs[i + 1..], g);
    CombosConcat([bs[i]], bs[i + 1..], g);
    CombosConcat(bs[..i], bs[i + 1..], g);
    CombosNone([bs[i]], g);
  }

  /** Erasing one binding leaves the combinations of the other hotkeys. */
  lemma {:induction false} RemovedAtKeepsOthers(s: State, i: nat, g: nat, t: State)
    requires Known(s) && i < |s.bindings| && s.bindings[i].hotkey != g && t == RemovedAt(s, i)
    ensures CombosOf(t.bindings, g) == CombosOf(s.bindings, g)
  {
    CombosWithout(s.bindings, i, g);
  }

  lemma {:induction false} RemovedKeepsOthers(s: State, h: nat, g: nat)
    requires Known(s) && g != h
    ensures CombosOf(Removed(s, h).bindings, g) == CombosOf(s.bindings, g)
    decreases |s.bindings|
  {
    var i := FirstOf(s.bindings, h);
    if i < |s.bindings| {
      var t := RemovedAt(s, i);
      RemovedAtKeepsOthers(s, i, g, t);
      RemovedKeepsOthers(t, h, g);
    }
  }

  lemma {:induction false} AppendedBindings(s: State, h: nat, combos: seq<Combination>, g: nat)
    requires Known(s) && h < |s.counts|
    ensures CombosOf(Appended(s, h, combos).bindings, g) ==
      CombosOf(s.bindings, g) + (if g == h then combos else [])
  {
    CombosConcat(s.bindings, Created(h, combos), g);
    if g == h {
      CombosCreated(h, combos);
    } else {
      CombosNone(Created(h, combos), g);
    }
  }

  /** Loading what was saved without removing what is there gives every binding twice. */
  lemma {:induction false} SaveAndAppend(names: seq<string>, s: State, h: nat)
    requires GoodNames(names) && Known(s) && h < |s.counts|
    ensures var combos := CombosOf(s.bindings, h);
            var after := Appended(s, h, Load(names, Save(names, combos)));
            CombosOf(after.bindings, h) == combos + combos <==>
              forall i :: 0 <= i < |combos| ==> Storable(names, combos[i])
  {
    var combos := CombosOf(s.bindings, h);
    var loaded := Load(names, Save(names, combos));
    AppendedBindings(s, h, loaded, h);
    LoadSave(names, combos);
    assert (combos + loaded)[|combos|..] == loaded && (combos + combos)[|combos|..] == combos;
  }

  lemma {:induction false} ReloadedBindings(s: State, h: nat, combos: seq<Combination>, g: nat)
    requires Known(s) && h < |s.counts|
    ensures CombosOf(Reloaded(s, h, combos).bindings, g) == if g == h then combos else CombosOf(s.bindings, g)
  {
    var r := Removed(s, h);
    AppendedBindings(r, h, combos, g);
    if g == h {
      CombosNone(r.bindings, h);
    } else {
      RemovedKeepsOthers(s, h, g);
    }
  }

  /** Saving a hotkey and loading what was saved restores its bindings exactly if they can be stored, and
      never touches those of another hotkey. */
  lemma {:induction false} SaveAndReload(names: seq<string>, s: State, h: nat, g: nat)
    requires GoodNames(names) && Known(s) && h < |s.counts|
    ensures var combos := CombosOf(s.bindings, h);
            var after := Reloaded(s, h, Load(names, Save(names, combos)));
            && (CombosOf(after.bindings, h) == combos <==> forall i :: 0 <= i < |combos| ==> Storable(names, combos[i]))
            && (g != h ==> CombosOf(after.bindings, g) == CombosOf(s.bindings, g))
  {
    var combos := CombosOf(s.bindings, h);
    ReloadedBindings(s, h, Load(names, Save(names, combos)), h);
    ReloadedBindings(s, h, Load(names, Save(names, combos)), g);
    LoadSave(names, combos);
  }
}
