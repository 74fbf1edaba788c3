/** The order of the items of a scene: what moving, positioning and reordering mean on a list. */
module SceneOrder {

  function Without<T>(s: seq<T>, k: nat): seq<T>
    requires k < |s|
  {
    s[..k] + s[k + 1..]
  }

  function With<T>(s: seq<T>, k: nat, x: T): seq<T>
    requires k <= |s|
  {
    s[..k] + [x] + s[k..]
  }

  /** The element at `from` taken out and put back at `to`. */
  function Moved<T>(s: seq<T>, from: nat, to: nat): (r: seq<T>)
    requires from < |s| && to < |s|
    ensures |r| == |s|
  {
    With(Without(s, from), to, s[from])
  }

  datatype Movement = MoveUp | MoveDown | MoveTop | MoveBottom

  /** Where a movement takes the item at `k` of `n`; the top is the end of the list. */
  function Target(n: nat, k: nat, m: Movement): nat
    requires k < n
  {
    match m
    case MoveUp => if k + 1 < n then k + 1 else k
    case MoveDown => if k > 0 then k - 1 else k
    case MoveTop => n - 1
    case MoveBottom => 0
  }

  /** Where set_order_position puts an item: a negative position counts as one. */
  function PositionOf(n: nat, position: int): nat
    requires n > 0
  {
    if position == 0 then 0
    else if position <= 1 then if n == 1 then 0 else 1
    else if position <= n - 1 then position else n - 1
  }

  lemma TakenBack<T>(s: seq<T>, k: nat, x: T)
    requires k <= |s|
    ensures Without(With(s, k, x), k) == s
    ensures multiset(With(s, k, x)) == multiset(s) + multiset{x}
  {
    assert s == s[..k] + s[k..];
  }

  lemma PutBack<T>(s: seq<T>, k: nat)
    requires k < |s|
    ensures s == With(Without(s, k), k, s[k])
  {
  }

  /** Moving places the element and keeps the order of all the others. */
  lemma MovedKeepsOthers<T>(s: seq<T>, from: nat, to: nat)
    requires from < |s| && to < |s|
    ensures var r := Moved(s, from, to); r[to] == s[from] && Without(r, to) == Without(s, from)
    ensures multiset(Moved(s, from, to)) == multiset(s)
  {
    var rest := Without(s, from);
    TakenBack(rest, to, s[from]);
    TakenBack(rest, from, s[from]);
    PutBack(s, from);
  }

  /** What a movement makes of a list: up and down swap the item with its neighbour, if there is one; to the
      top and to the bottom put it behind and in front of all the others. */
  predicate Rearranged<T(==)>(s: seq<T>, k: nat, m: Movement, r: seq<T>)
    requires k < |s|
  {
    match m
    case MoveUp => r == if k + 1 < |s| then s[k := s[k + 1]][k + 1 := s[k]] else s
    case MoveDown => r == if k > 0 then s[k := s[k - 1]][k - 1 := s[k]] else s
    case MoveTop => r == Without(s, k) + [s[k]]
    case MoveBottom => r == [s[k]] + Without(s, k)
  }

  /** The movement from place to place does that. */
  lemma MovementRearranges<T>(s: seq<T>, k: nat, m: Movement)
    requires k < |s|
    ensures Rearranged(s, k, m, Moved(s, k, Target(|s|, k, m)))
  {
    PutBack(s, k);
    if k + 1 < |s| {
      StepSwaps(s, k);
    }
    if k > 0 {
      StepSwaps(s, k - 1);
    }
    ToTheEnds(s, k);
  }

  /** A step up or down swaps the item with its neighbour and leaves every other item alone. */
  lemma StepSwaps<T>(s: seq<T>, k: nat)
    requires k + 1 < |s|
    ensures Moved(s, k, k + 1) == s[k := s[k + 1]][k + 1 := s[k]]
    ensures Moved(s, k + 1, k) == s[k := s[k + 1]][k + 1 := s[k]]
  {
  }

  lemma ToTheEnds<T>(s: seq<T>, k: nat)
    requires k < |s|
    ensures Moved(s, k, |s| - 1) == Without(s, k) + [s[k]]
    ensures Moved(s, k, 0) == [s[k]] + Without(s, k)
  {
  }

  /** The item stands at the position asked for, at the end when that is beyond it, and the others are as
      they were. A negative position counts as one. */
  predicate Positioned<T(==)>(s: seq<T>, k: nat, position: int, r: seq<T>)
    requires k < |s|
  {
    var asked := if position < 0 then 1 else position;
    var at := if asked < |s| then asked else |s| - 1;
    |r| == |s| && r[at] == s[k] && Without(r, at) == Without(s, k)
  }

  lemma PositionPlaces<T>(s: seq<T>, k: nat, position: int)
    requires k < |s|
    ensures Positioned(s, k, position, Moved(s, k, PositionOf(|s|, position)))
  {
    MovedKeepsOthers(s, k, PositionOf(|s|, position));
  }

  /** Moving back undoes a move. */
  lemma MoveBack<T>(s: seq<T>, from: nat, to: nat)
    requires from < |s| && to < |s|
    ensures Moved(Moved(s, from, to), to, from) == s
  {
    MovedKeepsOthers(s, from, to);
    PutBack(s, from);
  }

  predicate Distinct<T(==)>(s: seq<T>) {
    forall i, j :: 0 <= i < j < |s| ==> s[i] != s[j]
  }

  /** The same elements, each as often. */
  predicate Permutation<T(==)>(s: seq<T>, t: seq<T>) {
    multiset(s) == multiset(t)
  }

  function Elements<T>(s: seq<T>): set<T> {
    set x | x in s
  }

  /** A list has as many different elements as entries exactly when none occurs twice. */
  lemma {:induction false} CountElements<T>(s: seq<T>)
    ensures |Elements(s)| <= |s|
    ensures |Elements(s)| == |s| <==> Distinct(s)
  {
    if s != [] {
      var last := |s| - 1;
      var init := s[..last];
      CountElements(init);
      assert s == init + [s[last]];
      assert Elements(s) == Elements(init) + {s[last]};
      if s[last] in init {
        assert Elements(s) == Elements(init);
        var i :| 0 <= i < last && init[i] == s[last];
        assert s[i] == s[last];
      } else {
        assert Distinct(s) <==> Distinct(init);
      }
    }
  }

  lemma {:induction false} DistinctCounts<T>(s: seq<T>, x: T)
    requires Distinct(s)
    ensures multiset(s)[x] == if x in s then 1 else 0
  {
    if s != [] {
      var last := |s| - 1;
      assert s == s[..last] + [s[last]];
      DistinctCounts(s[..last], x);
    }
  }

  /** One pass over the list and a comparison of the lengths are enough: a duplicate-free list whose
      elements all occur in an array of the same length is a permutation of that array. */
  lemma Pigeonhole<T>(s: seq<T>, order: seq<T>)
    requires Distinct(s) && |s| == |order|
    requires forall x :: x in s ==> x in order
    ensures Permutation(order, s) && Distinct(order)
  {
    CountElements(s);
    CountElements(order);
    Contained(Elements(s), Elements(order));
    forall x
      ensures multiset(s)[x] == multiset(order)[x]
    {
      DistinctCounts(s, x);
      DistinctCounts(order, x);
      assert x in Elements(s) <==> x in s;
      assert x in Elements(order) <==> x in order;
    }
  }

  lemma Contained<T>(a: set<T>, b: set<T>)
    requires a <= b && |b| <= |a|
    ensures a == b
  {
    assert b == a + (b - a);
    assert |b| == |a| + |b - a|;
  }

  lemma PermutationContains<T>(s: seq<T>, order: seq<T>)
    requires Permutation(order, s)
    ensures |s| == |order|
    ensures forall x :: x in s <==> x in order
  {
    assert |multiset(s)| == |multiset(order)|;
    assert forall x :: x in s <==> x in multiset(s);
    assert forall x :: x in order <==> x in multiset(order);
  }
}
