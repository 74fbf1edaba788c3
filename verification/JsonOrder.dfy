/** JSON objects have no order: a tree is read back the same whatever order its objects, at any depth, list
    their members in. The library that holds the trees keeps the members in a hash table, so the order in
    which they are read is not the one in which they were written. */
module JsonOrder {
  import opened Wrappers
  import opened DataTree
  import opened DataJson

  ghost predicate DistinctKeys(ms: seq<Member>) {
    forall i, j :: 0 <= i < j < |ms| ==> ms[i].key != ms[j].key
  }

  /** The user value a member list gives a name. */
  function ValFor(ms: seq<Member>, name: string): Option<Val> {
    if ms == [] then None
    else if ms[0].key == name then ValOf(ms[0].value)
    else ValFor(ms[1..], name)
  }

  // ----- trees that differ in the order of members only

  /** The same key with a value that is the same up to order. */
  ghost predicate Matches(m: Member, ns: seq<Member>)
    decreases m, 0
  {
    exists j :: 0 <= j < |ns| && ns[j].key == m.key && Same(m.value, ns[j].value)
  }

  ghost predicate Same(a: Json, b: Json)
    decreases a, 1
  {
    match (a, b)
    case (JObject(ms), JObject(ns)) =>
      && |ms| == |ns| && DistinctKeys(ms) && DistinctKeys(ns)
      && forall i :: 0 <= i < |ms| ==> Matches(ms[i], ns)
    case (JArray(es), JArray(fs)) =>
      && |es| == |fs|
      && forall i :: 0 <= i < |es| ==> Same(es[i], fs[i])
    case _ => a == b
  }

  // ----- reading an object, member by member

  lemma {:induction false} ValForAbsent(ms: seq<Member>, name: string)
    requires forall i :: 0 <= i < |ms| ==> ms[i].key != name
    ensures ValFor(ms, name).None?
  {
    if ms != [] {
      ValForAbsent(ms[1..], name);
    }
  }

  lemma {:induction false} AddMembersFind(items: seq<Item>, ms: seq<Member>, name: string)
    requires DistinctKeys(ms)
    ensures Find(AddMembers(items, ms), name) == WithUser(Find(items, name), name, ValFor(ms, name))
    decreases ms
  {
    if ms != [] {
      var v := ValOf(ms[0].value);
      if v.Some? {
        SetUserFind(items, ms[0].key, v.value, name);
        FindNone(items, ms[0].key);
      }
      AddMembersFind(AddMember(items, ms[0]), ms[1..], name);
      if ms[0].key == name {
        ValForAbsent(ms[1..], name);
      }
    }
  }

  lemma {:induction false} AddMembersSorted(items: seq<Item>, ms: seq<Member>)
    requires Sorted(items)
    ensures Sorted(AddMembers(items, ms))
    decreases ms
  {
    if ms != [] {
      if ValOf(ms[0].value).Some? {
        SetUserSorted(items, ms[0].key, ValOf(ms[0].value).value);
      }
      AddMembersSorted(AddMember(items, ms[0]), ms[1..]);
    }
  }

  lemma {:induction false} ValForMember(ms: seq<Member>, m: Member)
    requires DistinctKeys(ms) && m in ms
    ensures ValFor(ms, m.key) == ValOf(m.value)
  {
    if ms[0] != m {
      assert m in ms[1..];
      var i :| 0 <= i < |ms[1..]| && ms[1..][i] == m;
      assert ms[i + 1] == m;
      ValForMember(ms[1..], m);
    }
  }

  // ----- every key of one object is a key of the other

  function Keys(ms: seq<Member>): set<string> {
    set i | 0 <= i < |ms| :: ms[i].key
  }

  lemma {:induction false} KeysCount(ms: seq<Member>)
    requires DistinctKeys(ms)
    ensures |Keys(ms)| == |ms|
  {
    if ms != [] {
      var n := |ms| - 1;
      KeysCount(ms[..n]);
      assert Keys(ms) == Keys(ms[..n]) + {ms[n].key};
    }
  }

  lemma {:induction false} SameKeys(ms: seq<Member>, ns: seq<Member>)
    requires |ms| == |ns| && DistinctKeys(ms) && DistinctKeys(ns)
    requires forall i :: 0 <= i < |ms| ==> Matches(ms[i], ns)
    ensures Keys(ms) == Keys(ns)
  {
    KeysCount(ms);
    KeysCount(ns);
    forall i | 0 <= i < |ms|
      ensures ms[i].key in Keys(ns)
    {
      assert Matches(ms[i], ns);
    }
    assert Keys(ns) == Keys(ms) + (Keys(ns) - Keys(ms));
  }

  // ----- the order does not matter

  lemma {:induction false} SameValFor(ms: seq<Member>, ns: seq<Member>, name: string)
    requires |ms| == |ns| && DistinctKeys(ms) && DistinctKeys(ns)
    requires forall i :: 0 <= i < |ms| ==> Matches(ms[i], ns)
    ensures ValFor(ms, name) == ValFor(ns, name)
    decreases ms, 0
  {
    if i :| 0 <= i < |ms| && ms[i].key == name {
      assert Matches(ms[i], ns);
      var j :| 0 <= j < |ns| && ns[j].key == ms[i].key && Same(ms[i].value, ns[j].value);
      SameVal(ms[i].value, ns[j].value);
      ValForMember(ms, ms[i]);
      ValForMember(ns, ns[j]);
    } else {
      SameKeys(ms, ns);
      assert name !in Keys(ms);
      ValForAbsent(ms, name);
      forall j | 0 <= j < |ns|
        ensures ns[j].key != name
      {
        assert ns[j].key in Keys(ns);
      }
      ValForAbsent(ns, name);
    }
  }

  lemma {:induction false} SameObject(ms: seq<Member>, ns: seq<Member>)
    requires |ms| == |ns| && DistinctKeys(ms) && DistinctKeys(ns)
    requires forall i :: 0 <= i < |ms| ==> Matches(ms[i], ns)
    ensures AddMembers([], ms) == AddMembers([], ns)
    decreases ms, 1
  {
    var a, b := AddMembers([], ms), AddMembers([], ns);
    AddMembersSorted([], ms);
    AddMembersSorted([], ns);
    forall n
      ensures Find(a, n) == Find(b, n)
    {
      AddMembersFind([], ms, n);
      AddMembersFind([], ns, n);
      SameValFor(ms, ns, n);
    }
    SortedUnique(a, b);
  }

  lemma {:induction false} SameElements(es: seq<Json>, fs: seq<Json>)
    requires |es| == |fs| && forall i :: 0 <= i < |es| ==> Same(es[i], fs[i])
    ensures FromElements(es) == FromElements(fs)
    decreases es, 0
  {
    if es != [] {
      assert Same(es[0], fs[0]);
      SameVal(es[0], fs[0]);
      SameElements(es[1..], fs[1..]);
    }
  }

  /** Trees that differ in the order of members only, at any depth, give the same value. */
  lemma {:induction false} SameVal(a: Json, b: Json)
    requires Same(a, b)
    ensures ValOf(a) == ValOf(b)
    decreases a, 2
  {
    match (a, b) {
      case (JObject(ms), JObject(ns)) => SameObject(ms, ns);
      case (JArray(es), JArray(fs)) => SameElements(es, fs);
      case _ =>
    }
  }

  // ----- saving and loading

  /** What is saved has no key twice, so it is the same tree as itself, and as each of its reorderings. */
  lemma {:induction false} SavedSame(v: Val)
    requires DeepVal(v)
    ensures Same(ValToJson(v), ValToJson(v))
    decreases v, 2
  {
    match v {
      case Obj(d) => SavedObject(d);
      case Arr(ds) => SavedElements(ds);
      case _ =>
    }
  }

  lemma {:induction false} SavedObject(d: Data)
    requires DeepSorted(d)
    ensures Same(ToJson(d), ToJson(d))
    decreases d, 1
  {
    var ms := ToMembers(d.items);
    SavedMembers(d.items);
    forall i | 0 <= i < |ms|
      ensures Matches(ms[i], ms)
    {
      assert Same(ms[i].value, ms[i].value);
    }
  }

  ghost predicate HasName(items: seq<Item>, name: string) {
    exists x :: x in items && x.name == name
  }

  lemma {:induction false} SavedMembers(items: seq<Item>)
    requires Sorted(items) && DeepItems(items)
    ensures var ms := ToMembers(items);
      && DistinctKeys(ms)
      && (forall i :: 0 <= i < |ms| ==> Same(ms[i].value, ms[i].value))
      && (forall i :: 0 <= i < |ms| ==> HasName(items, ms[i].key))
    decreases items, 0
  {
    if items != [] {
      SortedTail(items);
      SavedMembers(items[1..]);
      if items[0].user.None? {
        Unsaved(items);
      } else {
        SavedSame(items[0].user.value);
        FirstDistinct(items, Member(items[0].name, ValToJson(items[0].user.value)), ToMembers(items[1..]));
      }
    }
  }

  lemma FirstDistinct(items: seq<Item>, m: Member, ms: seq<Member>)
    requires items != [] && Sorted(items) && m.key == items[0].name && DistinctKeys(ms)
    requires forall i :: 0 <= i < |ms| ==> HasName(items[1..], ms[i].key)
    ensures DistinctKeys([m] + ms)
  {
    SortedTail(items);
    forall i | 0 <= i < |ms|
      ensures ms[i].key != m.key
    {
      assert HasName(items[1..], ms[i].key);
      var x :| x in items[1..] && x.name == ms[i].key;
      BeforeTotal(m.key, x.name);
    }
  }

  lemma {:induction false} SavedElements(ds: seq<Data>)
    requires DeepAll(ds)
    ensures forall i :: 0 <= i < |ToElements(ds)| ==> Same(ToElements(ds)[i], ToElements(ds)[i])
    decreases ds, 0
  {
    if ds != [] {
      SavedObject(ds[0]);
      SavedElements(ds[1..]);
    }
  }

  /** Saving and loading gives back exactly the user values, at every depth, in whatever order the members
      of the saved objects are read. */
  lemma {:induction false} SaveLoad(d: Data, j: Json)
    requires DeepSorted(d) && Same(ToJson(d), j)
    ensures FromJson(j) == UserPart(d)
  {
    DataSaved(d);
    SameVal(ToJson(d), j);
  }

  /** The same for an array of saved objects. */
  lemma {:induction false} SaveLoadArray(ds: seq<Data>, j: Json)
    requires DeepAll(ds) && Same(JArray(ToElements(ds)), j)
    ensures ValOf(j) == Some(Arr(UserParts(ds)))
  {
    ElementsSaved(ds);
    SameVal(JArray(ToElements(ds)), j);
  }
}
