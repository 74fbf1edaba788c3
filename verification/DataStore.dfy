/** The item list of a settings object, searched and extended in place. */
module DataStore {
  import opened Wrappers
  import opened DataTree

  /** Splicing an item in at its place is what `Place` means. */
  lemma {:induction false} PlaceAt(items: seq<Item>, item: Item, k: nat)
    requires k <= |items|
    requires forall i :: 0 <= i < k ==> Before(items[i].name, item.name)
    requires k < |items| ==> Before(item.name, items[k].name)
    ensures Place(items, item) == items[..k] + [item] + items[k..]
  {
    if k > 0 {
      BeforeTotal(items[0].name, item.name);
      PlaceAt(items[1..], item, k - 1);
      assert items[1..][..k - 1] == items[1..k] && items[1..][k - 1..] == items[k..];
      assert items[..k] == [items[0]] + items[1..k];
    }
  }

  lemma {:induction false} ReplaceAt(items: seq<Item>, item: Item, k: nat)
    requires k < |items| && items[k].name == item.name
    requires forall i :: 0 <= i < k ==> items[i].name != item.name
    ensures Replace(items, item) == items[k := item]
    ensures Find(items, item.name) == Some(items[k])
  {
    if k > 0 {
      ReplaceAt(items[1..], item, k - 1);
    }
  }

  class Store {
    var items: seq<Item>

    constructor ()
      ensures items == []
    {
      items := [];
    }

    /** get_item: the position of a name, or the length of the list. */
    method GetItem(name: string) returns (k: nat)
      ensures k <= |items|
      ensures k < |items| ==> items[k].name == name
      ensures forall i :: 0 <= i < k ==> items[i].name != name
    {
      k := 0;
      while k < |items|
        invariant k <= |items|
        invariant forall i :: 0 <= i < k ==> items[i].name != name
      {
        if items[k].name == name {
          return;
        }
        k := k + 1;
      }
    }

    /** The insertion part of set_item_data: two cursors move together until the second one is past
        the name; the new item goes between them, or in front of the first. */
    method InsertItem(item: Item)
      requires Sorted(items) && Find(items, item.name).None?
      modifies this
      ensures items == Place(old(items), item)
    {
      FindNone(items, item.name);
      var prev, next := 0, 1;
      while prev < |items| && next < |items|
        invariant items == old(items)
        invariant next == prev + 1 && prev <= |items|
        invariant prev == |items| ==> prev == 0
        invariant prev > 0 ==> Before(items[prev].name, item.name)
      {
        if Before(item.name, items[next].name) {
          break;
        }
        BeforeTotal(items[next].name, item.name);
        prev, next := next, next + 1;
      }
      if prev < |items| && Before(items[prev].name, item.name) {
        BeforeAll(items, prev, item.name);
        PlaceAt(items, item, next);
        items := items[..next] + [item] + items[next..];
      } else {
        if prev < |items| {
          BeforeTotal(items[prev].name, item.name);
        }
        PlaceAt(items, item, 0);
        items := [item] + items[prev..];
      }
    }

    /** set_item: set the user value of a name. */
    method SetUserValue(name: string, v: Val)
      requires Sorted(items)
      modifies this
      ensures items == SetUser(old(items), name, v) && Sorted(items)
    {
      SetUserSorted(items, name, v);
      var k := GetItem(name);
      FindNone(items, name);
      if k < |items| {
        ReplaceAt(items, items[k].(user := Some(v)), k);
        items := items[k := items[k].(user := Some(v))];
      } else {
        InsertItem(Item(name, Some(v), None, None));
      }
    }
  }

  lemma {:induction false} BeforeAll(items: seq<Item>, k: nat, name: string)
    requires Sorted(items) && k < |items| && Before(items[k].name, name)
    ensures forall i :: 0 <= i <= k ==> Before(items[i].name, name)
  {
    forall i | 0 <= i <= k
      ensures Before(items[i].name, name)
    {
      if i < k {
        BeforeTransitive(items[i].name, items[k].name, name);
      }
    }
  }
}
