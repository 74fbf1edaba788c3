/** Saving a settings object as a JSON tree and reading it back, and applying one object to another. */
module DataJson {
  import opened Wrappers
  import opened DataTree

  // ----- obs_data_to_json

  function ToJson(d: Data): Json
    decreases d, 1
  {
    JObject(ToMembers(d.items))
  }

  function ToMembers(items: seq<Item>): seq<Member>
    decreases items, 0
  {
    if items == [] then []
    else
      (match items[0].user
       case None => []
       case Some(v) => [Member(items[0].name, ValToJson(v))]) + ToMembers(items[1..])
  }

  function ValToJson(v: Val): Json
    decreases v, 2
  {
    match v
    case Str(s) => JString(s)
    case Int(i) => JInteger(i)
    case Dbl(r) => JReal(r)
    case Bool(b) => if b then JTrue else JFalse
    case Obj(d) => ToJson(d)
    case Arr(ds) => JArray(ToElements(ds))
  }

  function ToElements(ds: seq<Data>): seq<Json>
    decreases ds, 0
  {
    if ds == [] then [] else [ToJson(ds[0])] + ToElements(ds[1..])
  }

  // ----- obs_data_add_json_item and its kin

  /** What a JSON value becomes; null is dropped. */
  function ValOf(j: Json): Option<Val>
    decreases j, 1
  {
    match j
    case JObject(ms) => Some(Obj(Data(AddMembers([], ms))))
    case JArray(es) => Some(Arr(FromElements(es)))
    case JString(s) => Some(Str(s))
    case JInteger(i) => Some(Int(i))
    case JReal(r) => Some(Dbl(r))
    case JTrue => Some(Bool(true))
    case JFalse => Some(Bool(false))
    case JNull => None
  }

  /** Array elements that are not objects are skipped. */
  function FromElements(es: seq<Json>): seq<Data>
    decreases es, 0
  {
    if es == [] then []
    else (if es[0].JObject? then [Data(AddMembers([], es[0].members))] else []) + FromElements(es[1..])
  }

  function AddMember(items: seq<Item>, m: Member): seq<Item>
    decreases m, 2
  {
    match ValOf(m.value)
    case None => items
    case Some(v) => SetUser(items, m.key, v)
  }

  function AddMembers(items: seq<Item>, ms: seq<Member>): seq<Item>
    decreases ms, 0
  {
    if ms == [] then items else AddMembers(AddMember(items, ms[0]), ms[1..])
  }

  /** obs_data_create_from_json on the parsed text. */
  function FromJson(j: Json): Data {
    if j.JObject? then Data(AddMembers([], j.members)) else EMPTY
  }

  // ----- the part that is saved

  function UserPart(d: Data): Data
    decreases d, 1
  {
    Data(UserItems(d.items))
  }

  function UserItems(items: seq<Item>): seq<Item>
    decreases items, 0
  {
    if items == [] then []
    else
      (match items[0].user
       case None => []
       case Some(v) => [Item(items[0].name, Some(UserVal(v)), None, None)]) + UserItems(items[1..])
  }

  function UserVal(v: Val): Val
    decreases v, 2
  {
    match v
    case Obj(d) => Obj(UserPart(d))
    case Arr(ds) => Arr(UserParts(ds))
    case _ => v
  }

  function UserParts(ds: seq<Data>): seq<Data>
    decreases ds, 0
  {
    if ds == [] then [] else [UserPart(ds[0])] + UserParts(ds[1..])
  }

  /** Every list of items in the tree is sorted, as the settings code keeps it. */
  ghost predicate DeepSorted(d: Data)
    decreases d, 1
  {
    Sorted(d.items) && DeepItems(d.items)
  }

  ghost predicate DeepItems(items: seq<Item>)
    decreases items, 0
  {
    items == [] ||
    ((items[0].user.Some? ==> DeepVal(items[0].user.value)) && DeepItems(items[1..]))
  }

  ghost predicate DeepVal(v: Val)
    decreases v, 2
  {
    match v
    case Obj(d) => DeepSorted(d)
    case Arr(ds) => DeepAll(ds)
    case _ => true
  }

  ghost predicate DeepAll(ds: seq<Data>)
    decreases ds, 0
  {
    ds == [] || (DeepSorted(ds[0]) && DeepAll(ds[1..]))
  }

  // ----- the round trip

  /** All of one list come before all of another. */
  ghost predicate AllBefore(a: seq<Item>, b: seq<Item>) {
    forall x, y :: x in a && y in b ==> Before(x.name, y.name)
  }

  /** An item behind all others is placed at the end. */
  lemma {:induction false} PlaceLast(items: seq<Item>, item: Item)
    requires forall x :: x in items ==> Before(x.name, item.name)
    ensures Place(items, item) == items + [item] && Find(items, item.name).None?
  {
    if items != [] {
      BeforeTotal(items[0].name, item.name);
      assert items[0] in items;
      PlaceLast(items[1..], item);
    }
  }

  lemma {:induction false} SetLast(items: seq<Item>, name: string, v: Val)
    requires forall x :: x in items ==> Before(x.name, name)
    ensures SetUser(items, name, v) == items + [Item(name, Some(v), None, None)]
  {
    PlaceLast(items, Item(name, Some(v), None, None));
  }

  lemma AllBeforeStep(done: seq<Item>, items: seq<Item>, item: Item)
    requires items != [] && Sorted(items) && AllBefore(done, items) && item.name == items[0].name
    ensures AllBefore(done, items[1..]) && AllBefore(done + [item], items[1..])
    ensures forall x :: x in done ==> Before(x.name, item.name)
  {
    SortedTail(items);
    assert items[0] in items;
  }

  lemma {:induction false} Unsaved(items: seq<Item>)
    requires items != [] && items[0].user.None?
    ensures ToMembers(items) == ToMembers(items[1..]) && UserItems(items) == UserItems(items[1..])
  {
  }

  lemma {:induction false} AddFirst(items: seq<Item>, m: Member, ms: seq<Member>)
    ensures AddMembers(items, [m] + ms) == AddMembers(AddMember(items, m), ms)
  {
    assert ([m] + ms)[1..] == ms;
  }

  lemma {:induction false} AddSaved(done: seq<Item>, items: seq<Item>)
    requires Sorted(items) && DeepItems(items) && AllBefore(done, items)
    ensures AddMembers(done, ToMembers(items)) == done + UserItems(items)
    decreases items, 0
  {
    if items != [] {
      var first, rest := items[0], items[1..];
      SortedTail(items);
      match first.user {
        case None =>
          AllBeforeStep(done, items, first);
          AddSaved(done, rest);
          Unsaved(items);
        case Some(v) =>
          var saved := Item(first.name, Some(UserVal(v)), None, None);
          ValSaved(v);
          AllBeforeStep(done, items, saved);
          SetLast(done, first.name, UserVal(v));
          AddFirst(done, Member(first.name, ValToJson(v)), ToMembers(rest));
          AddSaved(done + [saved], rest);
      }
    }
  }

  lemma {:induction false} ValSaved(v: Val)
    requires DeepVal(v)
    ensures ValOf(ValToJson(v)) == Some(UserVal(v))
    decreases v, 2
  {
    match v {
      case Obj(d) => DataSaved(d);
      case Arr(ds) => ElementsSaved(ds);
      case _ =>
    }
  }

  lemma {:induction false} DataSaved(d: Data)
    requires DeepSorted(d)
    ensures AddMembers([], ToMembers(d.items)) == UserItems(d.items)
    decreases d, 1
  {
    AddSaved([], d.items);
  }

  lemma {:induction false} ElementsSaved(ds: seq<Data>)
    requires DeepAll(ds)
    ensures FromElements(ToElements(ds)) == UserParts(ds)
    decreases ds, 0
  {
    if ds != [] {
      DataSaved(ds[0]);
      ElementsSaved(ds[1..]);
      assert ToElements(ds)[1..] == ToElements(ds[1..]);
    }
  }

  // ----- obs_data_apply

  function ApplyItems(target: seq<Item>, items: seq<Item>): seq<Item>
    decreases items, 0
  {
    if items == [] then target else ApplyItems(CopyItem(target, items[0]), items[1..])
  }

  /** copy_item: only user values are copied, objects and arrays deeply. */
  function CopyItem(target: seq<Item>, item: Item): seq<Item>
    decreases item, 3
  {
    match item.user
    case None => target
    case Some(v) => SetUser(target, item.name, CopyVal(v))
  }

  function CopyVal(v: Val): Val
    decreases v, 2
  {
    match v
    case Obj(d) => Obj(Data(ApplyItems([], d.items)))
    case Arr(ds) => Arr(CopyAll(ds))
    case _ => v
  }

  function CopyAll(ds: seq<Data>): seq<Data>
    decreases ds, 0
  {
    if ds == [] then [] else [Data(ApplyItems([], ds[0].items))] + CopyAll(ds[1..])
  }

  function WithUser(item: Option<Item>, name: string, v: Option<Val>): Option<Item> {
    if v.None? then item
    else if item.None? then Some(Item(name, v, None, None))
    else Some(item.value.(user := v))
  }

  function Apply(target: Data, d: Data): Data {
    Data(ApplyItems(target.items, d.items))
  }

  lemma {:induction false} ApplySaved(done: seq<Item>, items: seq<Item>)
    requires Sorted(items) && DeepItems(items) && AllBefore(done, items)
    ensures ApplyItems(done, items) == done + UserItems(items)
    decreases items, 0
  {
    if items != [] {
      var first, rest := items[0], items[1..];
      SortedTail(items);
      match first.user {
        case None =>
          AllBeforeStep(done, items, first);
          ApplySaved(done, rest);
        case Some(v) =>
          var saved := Item(first.name, Some(UserVal(v)), None, None);
          CopyIsUserPart(v);
          AllBeforeStep(done, items, saved);
          SetLast(done, first.name, UserVal(v));
          ApplySaved(done + [saved], rest);
      }
    }
  }

  /** A deep copy is the user-valued part, the same that saving and loading yields. */
  lemma {:induction false} CopyIsUserPart(v: Val)
    requires DeepVal(v)
    ensures CopyVal(v) == UserVal(v)
    decreases v, 2
  {
    match v {
      case Obj(d) => ApplySaved([], d.items);
      case Arr(ds) => CopyAllUserParts(ds);
      case _ =>
    }
  }

  lemma {:induction false} CopyAllUserParts(ds: seq<Data>)
    requires DeepAll(ds)
    ensures CopyAll(ds) == UserParts(ds)
    decreases ds, 0
  {
    if ds != [] {
      ApplySaved([], ds[0].items);
      CopyAllUserParts(ds[1..]);
      assert [] + UserItems(ds[0].items) == UserItems(ds[0].items);
    }
  }

  /** The user value a source object gives a name. */
  function SourceVal(items: seq<Item>, name: string): Option<Val> {
    match Find(items, name)
    case None => None
    case Some(item) => if item.user.None? then None else Some(CopyVal(item.user.value))
  }

  /** Applying overwrites exactly the source's user keys and leaves defaults, autoselect values and
      all other keys of the target alone. */
  lemma {:induction false} ApplyFind(target: seq<Item>, items: seq<Item>, name: string)
    requires Sorted(items)
    ensures Find(ApplyItems(target, items), name) == WithUser(Find(target, name), name, SourceVal(items, name))
    decreases items
  {
    if items != [] {
      var first := items[0];
      SortedTail(items);
      if first.user.Some? {
        SetUserFind(target, first.name, CopyVal(first.user.value), name);
        FindNone(target, first.name);
      }
      ApplyFind(CopyItem(target, first), items[1..], name);
      if first.name == name {
        FindNone(items[1..], name);
        BeforeTotal(name, name);
      }
    }
  }

  lemma {:induction false} ApplySorted(target: seq<Item>, items: seq<Item>)
    requires Sorted(target)
    ensures Sorted(ApplyItems(target, items))
    decreases items
  {
    if items != [] {
      if items[0].user.Some? {
        SetUserSorted(target, items[0].name, CopyVal(items[0].user.value));
      }
      ApplySorted(CopyItem(target, items[0]), items[1..]);
    }
  }

  /** Applying twice is applying once. */
  lemma ApplyIdempotent(target: Data, d: Data)
    requires Sorted(target.items) && Sorted(d.items)
    ensures Apply(Apply(target, d), d) == Apply(target, d)
  {
    var once := ApplyItems(target.items, d.items);
    var twice := ApplyItems(once, d.items);
    ApplySorted(target.items, d.items);
    ApplySorted(once, d.items);
    forall n
      ensures Find(twice, n) == Find(once, n)
    {
      ApplyFind(target.items, d.items, n);
      ApplyFind(once, d.items, n);
      FindNone(target.items, n);
    }
    SortedUnique(twice, once);
  }

  // ----- what the user part is

  /** It answers for exactly the names that have a user value, with the user part of that value. */
  lemma {:induction false} UserItemsFind(items: seq<Item>, name: string)
    requires Sorted(items)
    ensures Find(UserItems(items), name) ==
            match Find(items, name)
            case None => None
            case Some(x) => if x.user.None? then None else Some(Item(name, Some(UserVal(x.user.value)), None, None))
  {
    if items != [] {
      var first := items[0];
      SortedTail(items);
      UserItemsFind(items[1..], name);
      FindNone(items[1..], first.name);
      BeforeTotal(first.name, first.name);
      assert Find(items[1..], first.name).None?;
      if first.user.None? {
        Unsaved(items);
      } else {
        var saved := Item(first.name, Some(UserVal(first.user.value)), None, None);
        assert UserItems(items) == [saved] + UserItems(items[1..]);
        assert UserItems(items)[1..] == UserItems(items[1..]);
      }
    }
  }

  lemma {:induction false} UserPartsAt(ds: seq<Data>, i: nat)
    requires i < |ds|
    ensures |UserParts(ds)| == |ds| && UserParts(ds)[i] == UserPart(ds[i])
  {
    if i > 0 {
      UserPartsAt(ds[1..], i - 1);
    } else if |ds| > 1 {
      UserPartsAt(ds[1..], 0);
    }
  }
}
