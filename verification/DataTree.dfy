/** Settings objects as values: named items in strcmp order, with their mapping to and from JSON
    trees and the application of one object to another. */
module DataTree {
  import opened Wrappers

  datatype Data = Data(items: seq<Item>)
  datatype Item = Item(name: string, user: Option<Val>, default: Option<Val>, autoselect: Option<Val>)
  datatype Val =
    | Str(s: string)
    | Int(i: int)
    | Dbl(r: real)
    | Bool(b: bool)
    | Obj(obj: Data)
    | Arr(objects: seq<Data>)

  datatype Json =
    | JObject(members: seq<Member>)
    | JArray(elements: seq<Json>)
    | JString(s: string)
    | JInteger(i: int)
    | JReal(r: real)
    | JTrue
    | JFalse
    | JNull
  datatype Member = Member(key: string, value: Json)

  const EMPTY := Data([])

  // ----- the order of names

  /** strcmp(a, b) < 0 */
  predicate Before(a: string, b: string) {
    b != "" && (a == "" || a[0] < b[0] || (a[0] == b[0] && Before(a[1..], b[1..])))
  }

  lemma {:induction false} BeforeTotal(a: string, b: string)
    ensures a == b || Before(a, b) || Before(b, a)
    ensures !(Before(a, b) && Before(b, a)) && !Before(a, a)
  {
    if a != "" {
      BeforeTotal(a[1..], a[1..]);
    }
    if a != "" && b != "" {
      BeforeTotal(a[1..], b[1..]);
      assert a == [a[0]] + a[1..] && b == [b[0]] + b[1..];
    }
  }

  lemma {:induction false} BeforeTransitive(a: string, b: string, c: string)
    requires Before(a, b) && Before(b, c)
    ensures Before(a, c)
  {
    if a != "" && a[0] == b[0] && b[0] == c[0] {
      BeforeTransitive(a[1..], b[1..], c[1..]);
    }
  }

  ghost predicate Sorted(items: seq<Item>) {
    forall i, j :: 0 <= i < j < |items| ==> Before(items[i].name, items[j].name)
  }

  // ----- lookup and insertion

  function Find(items: seq<Item>, name: string): Option<Item> {
    if items == [] then None
    else if items[0].name == name then Some(items[0])
    else Find(items[1..], name)
  }

  /** Put an item at its place, in front of the first item whose name is not smaller. */
  function Place(items: seq<Item>, item: Item): seq<Item> {
    if items == [] || Before(item.name, items[0].name) then [item] + items
    else [items[0]] + Place(items[1..], item)
  }

  function Replace(items: seq<Item>, item: Item): seq<Item> {
    if items == [] then []
    else if items[0].name == item.name then [item] + items[1..]
    else [items[0]] + Replace(items[1..], item)
  }

  /** set_item: set the user value of a name, creating the item if need be. */
  function SetUser(items: seq<Item>, name: string, v: Val): seq<Item> {
    match Find(items, name)
    case None => Place(items, Item(name, Some(v), None, None))
    case Some(item) => Replace(items, item.(user := Some(v)))
  }

  lemma {:induction false} FindNone(items: seq<Item>, name: string)
    ensures Find(items, name).None? <==> forall i :: 0 <= i < |items| ==> items[i].name != name
    ensures Find(items, name).Some? ==> Find(items, name).value in items && Find(items, name).value.name == name
  {
    if items != [] && items[0].name != name {
      FindNone(items[1..], name);
      if Find(items, name).None? {
        forall i | 0 <= i < |items|
          ensures items[i].name != name
        {
          assert i > 0 ==> items[i] == items[1..][i - 1];
        }
      }
    }
  }

  lemma {:induction false} FindAt(items: seq<Item>, i: nat)
    requires Sorted(items) && i < |items|
    ensures Find(items, items[i].name) == Some(items[i])
  {
    if i > 0 {
      BeforeTotal(items[0].name, items[i].name);
      FindAt(items[1..], i - 1);
    }
  }

  lemma {:induction false} PlaceFind(items: seq<Item>, item: Item, name: string)
    requires Find(items, item.name).None?
    ensures Find(Place(items, item), name) == if name == item.name then Some(item) else Find(items, name)
  {
    if items == [] || Before(item.name, items[0].name) {
      assert ([item] + items)[1..] == items;
    } else {
      PlaceFind(items[1..], item, name);
      assert Place(items, item)[1..] == Place(items[1..], item);
    }
  }

  lemma {:induction false} ReplaceFind(items: seq<Item>, item: Item, name: string)
    requires Find(items, item.name).Some?
    ensures Find(Replace(items, item), name) == if name == item.name then Some(item) else Find(items, name)
  {
    if items[0].name == item.name {
      assert ([item] + items[1..])[1..] == items[1..];
    } else {
      ReplaceFind(items[1..], item, name);
      assert Replace(items, item)[1..] == Replace(items[1..], item);
    }
  }

  /** Setting a user value changes that value and nothing else. */
  lemma {:induction false} SetUserFind(items: seq<Item>, name: string, v: Val, other: string)
    ensures Find(SetUser(items, name, v), other) ==
      if other != name then Find(items, other)
      else if Find(items, name).Some? then Some(Find(items, name).value.(user := Some(v)))
      else Some(Item(name, Some(v), None, None))
  {
    FindNone(items, name);
    if Find(items, name).None? {
      PlaceFind(items, Item(name, Some(v), None, None), other);
    } else {
      ReplaceFind(items, Find(items, name).value.(user := Some(v)), other);
    }
  }

  lemma {:induction false} PlaceMembers(items: seq<Item>, item: Item)
    ensures forall x :: x in Place(items, item) <==> x in items || x == item
  {
    if !(items == [] || Before(item.name, items[0].name)) {
      PlaceMembers(items[1..], item);
    }
  }

  lemma SortedCons(item: Item, rest: seq<Item>)
    requires Sorted(rest) && forall x :: x in rest ==> Before(item.name, x.name)
    ensures Sorted([item] + rest)
  {
  }

  lemma SortedTail(items: seq<Item>)
    requires Sorted(items) && items != []
    ensures Sorted(items[1..]) && forall x :: x in items[1..] ==> Before(items[0].name, x.name)
  {
    forall i, j | 0 <= i < j < |items[1..]|
      ensures Before(items[1..][i].name, items[1..][j].name)
    {
      assert items[1..][i] == items[i + 1] && items[1..][j] == items[j + 1];
    }
  }

  lemma {:induction false} PlaceSorted(items: seq<Item>, item: Item)
    requires Sorted(items) && Find(items, item.name).None?
    ensures Sorted(Place(items, item))
  {
    if items == [] {
    } else if Before(item.name, items[0].name) {
      SortedTail(items);
      forall x | x in items
        ensures Before(item.name, x.name)
      {
        if x != items[0] {
          assert x in items[1..];
          BeforeTransitive(item.name, items[0].name, x.name);
        }
      }
      SortedCons(item, items);
    } else {
      SortedTail(items);
      PlaceSorted(items[1..], item);
      PlaceMembers(items[1..], item);
      BeforeTotal(items[0].name, item.name);
      SortedCons(items[0], Place(items[1..], item));
    }
  }

  lemma {:induction false} ReplaceNames(items: seq<Item>, item: Item)
    ensures |Replace(items, item)| == |items|
    ensures forall i :: 0 <= i < |items| ==> Replace(items, item)[i].name == items[i].name
  {
    if items != [] && items[0].name != item.name {
      ReplaceNames(items[1..], item);
      forall i | 0 <= i < |items|
        ensures Replace(items, item)[i].name == items[i].name
      {
        assert i > 0 ==> items[i] == items[1..][i - 1];
      }
    }
  }

  /** The list stays strictly sorted by name. */
  lemma SetUserSorted(items: seq<Item>, name: string, v: Val)
    requires Sorted(items)
    ensures Sorted(SetUser(items, name, v))
  {
    FindNone(items, name);
    if Find(items, name).None? {
      PlaceSorted(items, Item(name, Some(v), None, None));
    } else {
      ReplaceNames(items, Find(items, name).value.(user := Some(v)));
    }
  }

  /** A sorted list is determined by what it answers. */
  lemma {:induction false} SortedUnique(a: seq<Item>, b: seq<Item>)
    requires Sorted(a) && Sorted(b)
    requires forall n :: Find(a, n) == Find(b, n)
    ensures a == b
  {
    assert a != [] ==> Find(a, a[0].name).Some?;
    assert b != [] ==> Find(b, b[0].name).Some?;
    if a != [] && b != [] {
      SameHead(a, b);
      SortedTail(a);
      SortedTail(b);
      forall n
        ensures Find(a[1..], n) == Find(b[1..], n)
      {
        assert Find(a, n) == Find(b, n);
        FindNone(a[1..], n);
        FindNone(b[1..], n);
        BeforeTotal(n, n);
      }
      SortedUnique(a[1..], b[1..]);
      assert a == [a[0]] + a[1..] && b == [b[0]] + b[1..];
    }
  }

  lemma {:induction false} SameHead(a: seq<Item>, b: seq<Item>)
    requires Sorted(a) && Sorted(b) && a != [] && b != []
    requires forall n :: Find(a, n) == Find(b, n)
    ensures a[0] == b[0]
  {
    assert Find(a, a[0].name) == Some(a[0]) && Find(b, b[0].name) == Some(b[0]);
    FindNone(b, a[0].name);
    FindNone(a, b[0].name);
    SortedTail(a);
    SortedTail(b);
    if a[0].name != b[0].name {
      assert Find(b, a[0].name).value in b[1..] && Find(a, b[0].name).value in a[1..];
      BeforeTotal(a[0].name, b[0].name);
    }
  }
}
