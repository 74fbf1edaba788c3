/** A scene's items as the doubly linked list that the scene keeps, relinked in place. */
module SceneList {
  import opened SceneOrder

  class SceneItem {
    var prev: SceneItem?
    var next: SceneItem?
    var parent: Scene?

    constructor ()
      ensures prev == null && next == null && parent == null
    {
      prev, next, parent := null, null, null;
    }
  }

  function At(items: seq<SceneItem>, k: int): SceneItem? {
    if 0 <= k < |items| then items[k] else null
  }

  lemma AtWithout(items: seq<SceneItem>, k: nat, j: int)
    requires k < |items| && -1 <= j
    ensures At(Without(items, k), j) == At(items, if j < k then j else j + 1)
  {
  }

  lemma AtWith(items: seq<SceneItem>, k: nat, item: SceneItem, j: int)
    requires k <= |items| && -1 <= j
    ensures At(With(items, k, item), j) == if j < k then At(items, j) else if j == k then item else At(items, j - 1)
  {
  }

  lemma AtDistinct(items: seq<SceneItem>, i: nat, j: nat)
    requires Distinct(items) && i < |items| && j < |items| && i != j
    ensures items[i] != items[j]
  {
  }

  /** An item other than the two around a gap is neither of them. */
  lemma OthersDistinct(items: seq<SceneItem>, i: nat, k: nat)
    requires Distinct(items) && i < |items| && k <= |items|
    ensures i != k - 1 && k > 0 ==> items[i] != items[k - 1]
    ensures i != k && k < |items| ==> items[i] != items[k]
  {
  }

  lemma WithoutDistinct(items: seq<SceneItem>, k: nat)
    requires Distinct(items) && k < |items|
    ensures Distinct(Without(items, k)) && items[k] !in Without(items, k)
    ensures forall x :: x in Without(items, k) ==> x in items
  {
  }

  lemma WithDistinct(items: seq<SceneItem>, k: nat, item: SceneItem)
    requires Distinct(items) && k <= |items| && item !in items
    ensures Distinct(With(items, k, item))
  {
  }

  class Scene {
    var firstItem: SceneItem?
    ghost var items: seq<SceneItem>

    /** The pointers of item `k` agree with its neighbours, in both directions. */
    ghost predicate Linked(items: seq<SceneItem>, k: nat)
      requires k < |items|
      reads items[k]
    {
      && items[k].prev == At(items, k - 1)
      && items[k].next == At(items, k + 1)
      && items[k].parent == this
    }

    ghost predicate AllLinked(items: seq<SceneItem>)
      reads items
    {
      forall k :: 0 <= k < |items| ==> Linked(items, k)
    }

    ghost predicate Valid()
      reads this, items
    {
      Distinct(items) && firstItem == At(items, 0) && AllLinked(items)
    }

    constructor ()
      ensures Valid() && items == []
    {
      firstItem, items := null, [];
    }

    method Detach(item: SceneItem, ghost k: nat)
      requires Valid() && k < |items| && items[k] == item
      modifies this, items
      ensures items == Without(old(items), k) && Valid()
      ensures item.next == old(item.next) && item.prev == old(item.prev)
    {
      assert Linked(items, k);
      ghost var now := Without(items, k);
      if item.prev != null {
        AtDistinct(items, k - 1, k);
        item.prev.next := item.next;
      } else {
        firstItem := item.next;
      }
      if item.next != null {
        AtDistinct(items, k + 1, k);
        item.next.prev := item.prev;
      }
      item.parent := null;
      forall j | 0 <= j < |now|
        ensures Linked(now, j)
      {
        AtWithout(items, k, j);
        AtWithout(items, k, j - 1);
        AtWithout(items, k, j + 1);
        var i := if j < k then j else j + 1;
        assert old(Linked(items, i));
        if i != k - 1 && k > 0 {
          AtDistinct(items, i, k - 1);
        }
        if i != k + 1 && k + 1 < |items| {
          AtDistinct(items, i, k + 1);
        }
        AtDistinct(items, i, k);
      }
      WithoutDistinct(items, k);
      AtWithout(items, k, 0);
      items := now;
    }

    /** attach_sceneitem: behind `prev`, or in front of everything. */
    method Attach(item: SceneItem, prev: SceneItem?, ghost k: nat)
      requires Valid() && item !in items && k <= |items| && prev == At(items, k - 1)
      requires k == 0 <==> prev == null
      modifies this, items, item
      ensures items == With(old(items), k, item) && Valid()
    {
      ghost var now := With(items, k, item);
      assert k > 0 ==> Linked(items, k - 1);
      item.prev := prev;
      item.parent := this;
      if prev != null {
        item.next := prev.next;
        if prev.next != null {
          prev.next.prev := item;
        }
        prev.next := item;
      } else {
        item.next := firstItem;
        if firstItem != null {
          firstItem.prev := item;
        }
        firstItem := item;
      }
      forall j | 0 <= j < |now|
        ensures Linked(now, j)
      {
        AtWith(items, k, item, j);
        AtWith(items, k, item, j - 1);
        AtWith(items, k, item, j + 1);
        if j != k {
          var i := if j < k then j else j - 1;
          assert old(Linked(items, i));
          OthersDistinct(items, i, k);
        }
      }
      WithDistinct(items, k, item);
      AtWith(items, k, item, 0);
      items := now;
    }

    method SetOrder(item: SceneItem?, movement: Movement, ghost k: nat)
      requires Valid() && (item != null ==> k < |items| && items[k] == item)
      modifies this, items
      ensures Valid()
      ensures if item == null then items == old(items) else Rearranged(old(items), k, movement, items)
    {
      if item == null {
        return;
      }
      MovementRearranges(items, k, movement);
      assert Linked(items, k);
      var next, prev := item.next, item.prev;
      Detach(item, k);
      WithoutDistinct(old(items), k);
      AtWithout(old(items), k, k);
      AtWithout(old(items), k, k - 1);
      var after := Before(next, prev, movement, k);
      Attach(item, after, Target(|old(items)|, k, movement));
    }

    /** The item that the moved one is attached behind, once it is out of the list. */
    method Before(next: SceneItem?, prev: SceneItem?, movement: Movement, ghost k: nat) returns (after: SceneItem?)
      requires Valid() && k <= |items| && next == At(items, k) && prev == At(items, k - 1)
      ensures after == At(items, Target(|items| + 1, k, movement) - 1)
    {
      match movement {
        case MoveDown =>
          if prev != null {
            assert Linked(items, k - 1);
            return prev.prev;
          } else {
            return null;
          }
        case MoveUp =>
          return if next != null then next else prev;
        case MoveTop =>
          if next == null {
            return prev;
          } else {
            after := LastFrom(next, k);
          }
        case MoveBottom =>
          return null;
      }
    }

    method LastFrom(first: SceneItem, ghost p: nat) returns (last: SceneItem)
      requires Valid() && p < |items| && items[p] == first
      ensures last == items[|items| - 1]
    {
      last := first;
      ghost var q := p;
      while last.next != null
        invariant p <= q < |items| && last == items[q]
        decreases |items| - q
      {
        assert Linked(items, q);
        q := q + 1;
        last := last.next;
      }
      assert Linked(items, q);
    }

    /** obs_sceneitem_set_order_position. Without another item there is nothing to step over: only the
        positions up to one are possible then. */
    method SetOrderPosition(item: SceneItem?, position: int, ghost k: nat)
      requires Valid() && (item != null ==> k < |items| && items[k] == item)
      requires item != null && position > 1 ==> |items| > 1
      modifies this, items
      ensures Valid()
      ensures if item == null then items == old(items) else Positioned(old(items), k, position, items)
    {
      if item == null {
        return;
      }
      PositionPlaces(items, k, position);
      Detach(item, k);
      WithoutDistinct(old(items), k);
      if position == 0 {
        Attach(item, null, 0);
      } else {
        var next;
        ghost var q;
        next, q := StepFrom(position);
        Attach(item, next, if next == null then 0 else q + 1);
      }
    }

    method StepFrom(position: int) returns (next: SceneItem?, ghost q: nat)
      requires Valid() && position != 0 && (position > 1 ==> items != [])
      ensures items == [] ==> next == null
      ensures items != [] ==>
                && next == At(items, q)
                && q == if position <= 1 then 0 else if position <= |items| then position - 1 else |items| - 1
    {
      next, q := firstItem, 0;
      var i := position;
      while i > 1
        invariant items != [] ==> q < |items| && next == items[q]
        invariant items == [] ==> next == null && i <= 1
        invariant q == if position <= 1 then 0 else position - i
        invariant position > 1 ==> i >= 1
      {
        assert Linked(items, q);
        if next.next == null {
          break;
        }
        next := next.next;
        q := q + 1;
        i := i - 1;
      }
    }

    /** sceneitems_match: one pass over the list, a search of the array for every item. */
    method SceneitemsMatch(order: seq<SceneItem?>) returns (matches: bool, orderMatches: bool)
      requires Valid()
      ensures matches <==> Permutation(order, items)
      ensures matches ==> (orderMatches <==> order == items)
    {
      orderMatches := true;
      var item := firstItem;
      var count := 0;
      while item != null
        invariant count <= |items| && item == At(items, count)
        invariant forall k :: 0 <= k < count ==> items[k] in order
        invariant orderMatches <==> forall k :: 0 <= k < count ==> FirstAt(order, items[k], k)
        decreases |items| - count
      {
        assert Linked(items, count);
        var i := Search(order, item);
        if i == |order| {
          assert items[count] !in order;
          PermutationLacks(items, order, items[count]);
          return false, orderMatches;
        }
        if count != i {
          orderMatches := false;
        }
        item := item.next;
        count := count + 1;
      }
      matches := count == |order|;
      if matches {
        Pigeonhole(items, order);
        SameOrder(items, order);
      } else if Permutation(order, items) {
        PermutationContains(items, order);
      }
    }

    method ReorderItems(order: seq<SceneItem?>) returns (changed: bool)
      requires Valid()
      modifies this, items
      ensures changed <==> order != [] && Permutation(order, old(items)) && order != old(items)
      ensures Valid() && items == if changed then order else old(items)
    {
      if order == [] {
        return false;
      }
      var matches, orderMatches := SceneitemsMatch(order);
      if !matches || orderMatches {
        return false;
      }
      PermutationContains(items, order);
      Pigeonhole(items, order);
      forall k | 0 <= k < |order|
        ensures order[k] in items
      {
        assert order[k] in order;
      }
      Relink(order);
      return true;
    }

    /** The links of item `k` when the first `n` items of the new order have been linked. */
    ghost predicate LinkedAmong(order: seq<SceneItem>, n: nat, k: nat)
      requires k < n <= |order|
      reads order[k]
    {
      && order[k].prev == At(order, k - 1)
      && order[k].next == (if k + 1 < n then order[k + 1] else null)
      && order[k].parent == this
    }

    method Relink(order: seq<SceneItem>)
      requires Valid() && order != [] && Distinct(order)
      requires forall k :: 0 <= k < |order| ==> order[k] in items
      modifies this, items
      ensures Valid() && items == order
    {
      firstItem := order[0];
      var prev: SceneItem? := null;
      forall k | 0 <= k < |order|
        ensures order[k].parent == this
      {
        var i :| 0 <= i < |items| && items[i] == order[k];
        assert Linked(items, i);
      }
      for i := 0 to |order|
        invariant firstItem == order[0] && items == old(items)
        invariant prev == At(order, i - 1)
        invariant forall k :: i <= k < |order| ==> order[k].parent == this
        invariant forall k :: 0 <= k < i ==> LinkedAmong(order, i, k)
      {
        LinkNext(order, i, prev);
        prev := order[i];
      }
      forall k | 0 <= k < |order|
        ensures Linked(order, k)
      {
        assert LinkedAmong(order, |order|, k);
      }
      items := order;
    }

    /** One round of the relinking loop. */
    method LinkNext(order: seq<SceneItem>, i: nat, prev: SceneItem?)
      requires Distinct(order) && i < |order| && prev == At(order, i - 1)
      requires order[i].parent == this
      requires forall k :: 0 <= k < i ==> LinkedAmong(order, i, k)
      modifies order[..i + 1]
      ensures var n := i + 1; forall k :: 0 <= k < n ==> LinkedAmong(order, n, k)
      ensures forall k :: 0 <= k < |order| ==> order[k].parent == old(order[k].parent)
    {
      assert order[i] in order[..i + 1];
      order[i].prev := prev;
      order[i].next := null;
      if prev != null {
        AtDistinct(order, i - 1, i);
        assert order[i - 1] in order[..i + 1];
        prev.next := order[i];
      }
      var n := i + 1;
      forall k | 0 <= k < n
        ensures LinkedAmong(order, n, k)
      {
        if k < i {
          assert old(LinkedAmong(order, i, k));
          AtDistinct(order, k, i);
          if k < i - 1 {
            AtDistinct(order, k, i - 1);
          }
        }
      }
    }
  }

  lemma PermutationLacks<T>(s: seq<T>, order: seq<T>, x: T)
    requires x in s && x !in order
    ensures !Permutation(order, s)
  {
    assert x in multiset(s) && x !in multiset(order);
  }

  /** Every item is found first at its own place exactly when the array is the list. */
  lemma SameOrder(items: seq<SceneItem>, order: seq<SceneItem?>)
    requires Distinct(order) && |items| == |order|
    ensures (forall k :: 0 <= k < |items| ==> FirstAt(order, items[k], k)) <==> order == items
  {
    if order == items {
      forall k | 0 <= k < |items|
        ensures FirstAt(order, items[k], k)
      {
      }
    }
  }

  ghost predicate FirstAt(order: seq<SceneItem?>, item: SceneItem?, k: nat) {
    k < |order| && order[k] == item && item !in order[..k]
  }

  method Search(order: seq<SceneItem?>, item: SceneItem) returns (i: nat)
    ensures i <= |order| && item !in order[..i]
    ensures i < |order| ==> order[i] == item
    ensures forall k: nat :: FirstAt(order, item, k) <==> k == i < |order|
  {
    i := 0;
    while i < |order|
      invariant i <= |order| && item !in order[..i]
    {
      if order[i] == item {
        break;
      }
      i := i + 1;
    }
  }
}
