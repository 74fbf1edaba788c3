/** The hotkey name map as a value: a radix trie whose edges carry whole substrings and whose
    leaves carry key codes. `NameMapObject` updates the same trie in place. */
module NameTrie {
  import opened Wrappers

  datatype Tree = Leaf(val: int) | Node(children: seq<Branch>)
  datatype Branch = Branch(prefix: string, node: Tree)

  datatype Match = Matches | NoMatch | CommonPrefix | PrefixMatches

  /** Length of the longest common prefix. */
  function Common(a: string, b: string): (n: nat)
    ensures n <= |a| && n <= |b|
    ensures a[..n] == b[..n]
    ensures n < |a| && n < |b| ==> a[n] != b[n]
  {
    if a == [] || b == [] || a[0] != b[0] then 0 else 1 + Common(a[1..], b[1..])
  }

  /** compare_prefix */
  function Compare(prefix: string, key: string): Match {
    var i := Common(prefix, key);
    if i != 0 && |prefix| == i then
      if |key| == i then Matches else PrefixMatches
    else if i != 0 then CommonPrefix
    else NoMatch
  }

  /** The first child whose edge shares a first character with the key. */
  function FirstMatch(cs: seq<Branch>, key: string): (i: nat)
    ensures i <= |cs|
    ensures i < |cs| ==> Compare(cs[i].prefix, key) != NoMatch
    ensures forall j :: 0 <= j < i ==> Compare(cs[j].prefix, key) == NoMatch
  {
    if cs == [] || Compare(cs[0].prefix, key) != NoMatch then 0 else 1 + FirstMatch(cs[1..], key)
  }

  /** reduce_edge: split an edge at the end of the common prefix. */
  function Reduce(b: Branch, key: string, v: int): Branch {
    var c := Common(b.prefix, key);
    Branch(b.prefix[..c], Node([Branch(b.prefix[c..], b.node), Branch(key[c..], Leaf(v))]))
  }

  function Insert(t: Tree, key: string, v: int): Tree
    decreases t
  {
    match t
    case Leaf(_) =>
      if key == "" then Leaf(v) else Node([Branch("", t), Branch(key, Leaf(v))])
    case Node(cs) =>
      var i := FirstMatch(cs, key);
      if i == |cs| then Node(cs + [Branch(key, Leaf(v))])
      else if Compare(cs[i].prefix, key) == CommonPrefix then Node(cs[i := Reduce(cs[i], key, v)])
      else Node(cs[i := Branch(cs[i].prefix, Insert(cs[i].node, key[|cs[i].prefix|..], v))])
  }

  /** The first child reached by an empty edge. */
  function FirstEmpty(cs: seq<Branch>): (i: nat)
    ensures i <= |cs|
    ensures i < |cs| ==> cs[i].prefix == ""
    ensures forall j :: 0 <= j < i ==> cs[j].prefix != ""
  {
    if cs == [] || cs[0].prefix == "" then 0 else 1 + FirstEmpty(cs[1..])
  }

  /** What a key that ends at this node stands for. */
  function EndVal(t: Tree): Option<int> {
    match t
    case Leaf(v) => Some(v)
    case Node(cs) =>
      var i := FirstEmpty(cs);
      if i < |cs| && cs[i].node.Leaf? then Some(cs[i].node.val) else None
  }

  function Get(t: Tree, key: string): Option<int>
    decreases t
  {
    if key == "" then EndVal(t)
    else
      match t
      case Leaf(_) => None
      case Node(cs) =>
        var i := FirstMatch(cs, key);
        if i == |cs| || Compare(cs[i].prefix, key) == CommonPrefix then None
        else Get(cs[i].node, key[|cs[i].prefix|..])
  }

  /** obs_hotkey_name_map_lookup, which never finds the empty name. */
  function Lookup(t: Tree, key: string): Option<int> {
    if key == "" then None else Get(t, key)
  }

  // ----- shape

  ghost predicate DistinctFirsts(cs: seq<Branch>) {
    forall i, j :: 0 <= i < j < |cs| && cs[i].prefix != "" && cs[j].prefix != ""
      ==> cs[i].prefix[0] != cs[j].prefix[0]
  }

  /** Siblings differ in their first character, and empty edges lead to leaves. */
  ghost predicate Shaped(t: Tree)
    decreases t
  {
    t.Node? ==>
      && DistinctFirsts(t.children)
      && (forall i :: 0 <= i < |t.children| ==>
            Shaped(t.children[i].node) && (t.children[i].prefix == "" ==> t.children[i].node.Leaf?))
  }

  /** What one child tells about a query: go on to the next one, or follow the first that matches. */
  lemma {:induction false} LookupStep(t: Tree, key: string, i: nat)
    requires t.Node? && Shaped(t) && key != "" && i < |t.children| && i <= FirstMatch(t.children, key)
    ensures var b := t.children[i];
            match Compare(b.prefix, key)
            case NoMatch => i < FirstMatch(t.children, key)
            case CommonPrefix => Get(t, key) == None
            case PrefixMatches => Get(t, key) == Get(b.node, key[|b.prefix|..]) && |b.prefix| < |key|
            case Matches => Get(t, key) == EndVal(b.node)
    ensures Shaped(t.children[i].node)
  {
  }

  lemma CompareFirst(prefix: string, key: string)
    ensures Compare(prefix, key) != NoMatch <==> prefix != "" && key != "" && prefix[0] == key[0]
  {
  }

  lemma ReduceShaped(b: Branch, key: string, v: int)
    requires Shaped(b.node) && Compare(b.prefix, key) == CommonPrefix
    ensures Shaped(Reduce(b, key, v).node)
    ensures Reduce(b, key, v).prefix != "" && Reduce(b, key, v).prefix[0] == b.prefix[0]
  {
    var c := Common(b.prefix, key);
    assert b.prefix[..c][0] == b.prefix[0];
  }

  /** Replacing a child by one with the same first character keeps the siblings apart. */
  lemma ReplaceChild(cs: seq<Branch>, i: nat, b: Branch)
    requires i < |cs| && DistinctFirsts(cs)
    requires cs[i].prefix != "" && b.prefix != "" && b.prefix[0] == cs[i].prefix[0]
    ensures DistinctFirsts(cs[i := b])
  {
  }

  lemma {:induction false} AppendChild(cs: seq<Branch>, b: Branch)
    requires DistinctFirsts(cs) && FirstMatch(cs, b.prefix) == |cs|
    ensures DistinctFirsts(cs + [b])
  {
    forall j | 0 <= j < |cs| && cs[j].prefix != "" && b.prefix != ""
      ensures cs[j].prefix[0] != b.prefix[0]
    {
      CompareFirst(cs[j].prefix, b.prefix);
    }
  }

  lemma {:induction false} InsertShaped(t: Tree, key: string, v: int)
    requires Shaped(t)
    ensures Shaped(Insert(t, key, v))
    decreases t
  {
    if t.Node? {
      var cs, i := t.children, FirstMatch(t.children, key);
      if i == |cs| {
        AppendChild(cs, Branch(key, Leaf(v)));
      } else if Compare(cs[i].prefix, key) == CommonPrefix {
        ReduceShaped(cs[i], key, v);
        CompareFirst(cs[i].prefix, key);
        ReplaceChild(cs, i, Reduce(cs[i], key, v));
      } else {
        var b := Branch(cs[i].prefix, Insert(cs[i].node, key[|cs[i].prefix|..], v));
        InsertShaped(cs[i].node, key[|cs[i].prefix|..], v);
        CompareFirst(cs[i].prefix, key);
        ReplaceChild(cs, i, b);
      }
    }
  }

  // ----- lookup after insertion

  /** The key ends at an interior node that already has an empty edge, so a second insertion adds
      another empty edge behind the first one and changes no answer. */
  ghost predicate Shadowed(t: Tree, key: string)
    decreases t
  {
    t.Node? &&
    if key == "" then EndVal(t).Some?
    else
      var i := FirstMatch(t.children, key);
      && i < |t.children|
      && Compare(t.children[i].prefix, key) in {Matches, PrefixMatches}
      && Shadowed(t.children[i].node, key[|t.children[i].prefix|..])
  }

  lemma {:induction false} CommonPrefixOf(a: string, b: string, n: nat)
    requires n <= |a| && n <= |b| && a[..n] == b[..n]
    ensures n <= Common(a, b)
  {
    if n > 0 {
      assert a[0] == a[..n][0] == b[..n][0] == b[0];
      assert a[1..][..n - 1] == a[..n][1..] && b[1..][..n - 1] == b[..n][1..];
      CommonPrefixOf(a[1..], b[1..], n - 1);
    }
  }

  lemma {:induction false} CommonShift(a: string, b: string, c: nat)
    requires c <= Common(a, b)
    ensures Common(a[c..], b[c..]) == Common(a, b) - c
  {
    if c == 0 {
      assert a[0..] == a && b[0..] == b;
    } else {
      CommonShift(a[1..], b[1..], c - 1);
      assert a[1..][c - 1..] == a[c..] && b[1..][c - 1..] == b[c..];
    }
  }

  lemma {:induction false} CommonTake(a: string, b: string, c: nat)
    requires c <= |a|
    ensures Common(a[..c], b) == if c <= Common(a, b) then c else Common(a, b)
  {
    var n := Common(a, b);
    if c <= n {
      assert a[..c] == a[..n][..c] == b[..n][..c] == b[..c];
      CommonPrefixOf(a[..c], b, c);
    } else {
      assert a[..c][..n] == a[..n];
      CommonPrefixOf(a[..c], b, n);
    }
  }

  lemma {:induction false} CommonWhole(a: string, b: string)
    ensures Common(a, b) == |a| == |b| <==> a == b
  {
    assert a[..|a|] == a && b[..|b|] == b;
    if a == b {
      CommonPrefixOf(a, b, |a|);
    }
  }

  /** At most one sibling can match a key. */
  lemma {:induction false} OnlyMatch(cs: seq<Branch>, key: string, i: nat)
    requires DistinctFirsts(cs) && i < |cs| && Compare(cs[i].prefix, key) != NoMatch
    ensures FirstMatch(cs, key) == i
  {
    var j := FirstMatch(cs, key);
    CompareFirst(cs[i].prefix, key);
    CompareFirst(cs[j].prefix, key);
  }

  lemma {:induction false} FirstMatchIs(cs: seq<Branch>, key: string, i: nat)
    requires i <= |cs| && (i < |cs| ==> Compare(cs[i].prefix, key) != NoMatch)
    requires forall j :: 0 <= j < i ==> Compare(cs[j].prefix, key) == NoMatch
    ensures FirstMatch(cs, key) == i
  {
    if i > 0 {
      FirstMatchIs(cs[1..], key, i - 1);
    }
  }

  lemma {:induction false} FirstEmptyIs(cs: seq<Branch>, i: nat)
    requires i <= |cs| && (i < |cs| ==> cs[i].prefix == "")
    requires forall j :: 0 <= j < i ==> cs[j].prefix != ""
    ensures FirstEmpty(cs) == i
  {
    if i > 0 {
      FirstEmptyIs(cs[1..], i - 1);
    }
  }

  /** Replacing a non-empty edge by one with the same first character moves neither search. */
  lemma ReplaceSearch(cs: seq<Branch>, i: nat, b: Branch, key: string)
    requires i < |cs|
    requires cs[i].prefix != "" && b.prefix != "" && b.prefix[0] == cs[i].prefix[0]
    ensures FirstMatch(cs[i := b], key) == FirstMatch(cs, key)
    ensures FirstEmpty(cs[i := b]) == FirstEmpty(cs)
  {
    CompareFirst(cs[i].prefix, key);
    CompareFirst(b.prefix, key);
    FirstMatchIs(cs[i := b], key, FirstMatch(cs, key));
    FirstEmptyIs(cs[i := b], FirstEmpty(cs));
  }

  /** A single edge to a fresh leaf answers exactly its own key. */
  lemma LeafEdge(key: string, v: int, q: string)
    requires q != ""
    ensures (Compare(key, q) in {Matches, PrefixMatches} && Get(Leaf(v), q[|key|..]) == Some(v)) <==> key == q
    ensures Compare(key, q) in {Matches, PrefixMatches} && key != q ==> Get(Leaf(v), q[|key|..]) == None
  {
    CommonWhole(key, q);
    CompareFirst(key, q);
  }

  lemma {:induction false} GetSplitLeaf(t: Tree, key: string, v: int, q: string)
    requires t.Leaf? && key != ""
    ensures Get(Insert(t, key, v), q) == if q == key then Some(v) else Get(t, q)
  {
    var cs := [Branch("", t), Branch(key, Leaf(v))];
    if q != "" {
      LeafEdge(key, v, q);
      assert cs[1..] == [cs[1]] && cs[1..][1..] == [];
    }
  }

  lemma {:induction false} FirstMatchAppend(cs: seq<Branch>, b: Branch, q: string)
    ensures FirstMatch(cs + [b], q) ==
      if FirstMatch(cs, q) < |cs| then FirstMatch(cs, q)
      else if Compare(b.prefix, q) == NoMatch then |cs| + 1 else |cs|
  {
    FirstMatchIs(cs + [b], q,
      if FirstMatch(cs, q) < |cs| then FirstMatch(cs, q)
      else if Compare(b.prefix, q) == NoMatch then |cs| + 1 else |cs|);
  }

  lemma {:induction false} FirstEmptyAppend(cs: seq<Branch>, b: Branch)
    ensures FirstEmpty(cs + [b]) ==
      if FirstEmpty(cs) < |cs| then FirstEmpty(cs) else if b.prefix == "" then |cs| else |cs| + 1
  {
    FirstEmptyIs(cs + [b],
      if FirstEmpty(cs) < |cs| then FirstEmpty(cs) else if b.prefix == "" then |cs| else |cs| + 1);
  }

  lemma {:induction false} GetAppend(t: Tree, key: string, v: int, q: string)
    requires t.Node? && Shaped(t) && FirstMatch(t.children, key) == |t.children|
    ensures Get(Insert(t, key, v), q) ==
      if q == key && !Shadowed(t, key) then Some(v) else Get(t, q)
  {
    var cs, b := t.children, Branch(key, Leaf(v));
    if q == "" {
      FirstEmptyAppend(cs, b);
    } else {
      FirstMatchAppend(cs, b, q);
      LeafEdge(key, v, q);
      CompareFirst(key, q);
    }
  }

  /** Two edges below a split point: the rest of the old edge and the rest of the new key. */
  lemma {:induction false} GetPair(tail: string, t: Tree, key: string, v: int, q: string)
    requires tail != "" && Common(tail, key) == 0
    ensures Get(Node([Branch(tail, t), Branch(key, Leaf(v))]), q) ==
      if q == key then Some(v)
      else if Common(tail, q) == |tail| then Get(t, q[|tail|..])
      else None
  {
    var cs := [Branch(tail, t), Branch(key, Leaf(v))];
    assert cs[1..] == [cs[1]] && cs[1..][1..] == [];
    if q != "" {
      LeafEdge(key, v, q);
    }
  }

  lemma {:induction false} SplitKeys(prefix: string, key: string, q: string)
    requires Common(prefix, key) <= Common(prefix, q)
    ensures var c := Common(prefix, key); q == key <==> q[c..] == key[c..]
  {
    var c, n := Common(prefix, key), Common(prefix, q);
    assert q == q[..c] + q[c..] && key == key[..c] + key[c..];
    assert q[..c] == q[..n][..c] == prefix[..n][..c] == prefix[..c];
  }

  lemma {:induction false} GetSplitEdge(b: Branch, key: string, v: int, q: string)
    requires Compare(b.prefix, key) == CommonPrefix
    requires Common(b.prefix, key) <= Common(b.prefix, q)
    ensures Get(Reduce(b, key, v).node, q[Common(b.prefix, key)..]) ==
      if q == key then Some(v)
      else if Common(b.prefix, q) == |b.prefix| then Get(b.node, q[|b.prefix|..])
      else None
  {
    var c := Common(b.prefix, key);
    CommonShift(b.prefix, q, c);
    CommonShift(b.prefix, key, c);
    SplitKeys(b.prefix, key, q);
    GetPair(b.prefix[c..], b.node, key[c..], v, q[c..]);
    if Common(b.prefix, q) == |b.prefix| {
      assert q[c..][|b.prefix[c..]|..] == q[|b.prefix|..];
    }
  }

  lemma {:induction false} GetReduced(t: Tree, key: string, v: int, q: string)
    requires t.Node? && Shaped(t) && key != "" && FirstMatch(t.children, key) < |t.children|
    requires Compare(t.children[FirstMatch(t.children, key)].prefix, key) == CommonPrefix
    ensures Get(Insert(t, key, v), q) == if q == key then Some(v) else Get(t, q)
  {
    var cs, i := t.children, FirstMatch(t.children, key);
    var b, c := cs[i], Common(cs[i].prefix, key);
    var r := Reduce(b, key, v);
    ReduceShaped(b, key, v);
    ReplaceSearch(cs, i, r, q);
    if q != "" && FirstMatch(cs, q) == i {
      CommonTake(b.prefix, q, c);
      if c <= Common(b.prefix, q) {
        GetSplitEdge(b, key, v, q);
      }
    }
  }

  lemma {:induction false} SameRest(prefix: string, key: string, q: string)
    requires Common(prefix, key) == |prefix| == Common(prefix, q)
    ensures q == key <==> q[|prefix|..] == key[|prefix|..]
  {
    SplitKeys(prefix, key, q);
  }

  /** Inserting a name changes the answer for that name only, and for it gives the new value
      unless the name is shadowed. */
  lemma {:induction false} GetInsert(t: Tree, key: string, v: int, q: string)
    requires Shaped(t)
    ensures Get(Insert(t, key, v), q) ==
      if q == key && !Shadowed(t, key) then Some(v) else Get(t, q)
    decreases t
  {
    if t.Leaf? {
      if key != "" {
        GetSplitLeaf(t, key, v, q);
      }
    } else {
      var cs, i := t.children, FirstMatch(t.children, key);
      if i == |cs| {
        GetAppend(t, key, v, q);
      } else if Compare(cs[i].prefix, key) == CommonPrefix {
        GetReduced(t, key, v, q);
      } else {
        var p := cs[i].prefix;
        var b := Branch(p, Insert(cs[i].node, key[|p|..], v));
        ReplaceSearch(cs, i, b, q);
        if q != "" && FirstMatch(cs, q) == i && Compare(p, q) != CommonPrefix {
          SameRest(p, key, q);
          GetInsert(cs[i].node, key[|p|..], v, q[|p|..]);
        }
      }
    }
  }
}
