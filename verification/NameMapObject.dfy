/** The hotkey name map as the program keeps it: nodes and edges on the heap, split and reconnected
    in place, with leaves drawn from a pool allocated up front. */
module NameMapObject {
  import opened Wrappers
  import opened Keys
  import opened NameTrie
  import opened NameTable

  class MapEdge {
    var prefix: string
    var node: MapNode

    constructor (prefix: string, node: MapNode)
      ensures this.prefix == prefix && this.node == node
    {
      this.prefix, this.node := prefix, node;
    }

    ghost function Footprint(): set<object>
      reads this, node
    {
      {this} + node.Repr
    }
  }

  class MapNode {
    var isLeaf: bool
    var val: int
    var children: seq<MapEdge>
    ghost var tree: Tree            // the value this node stands for
    ghost var Repr: set<object>     // this node and everything below it

    constructor ()
      ensures !isLeaf && children == [] && tree == Node([]) && Repr == {this}
    {
      isLeaf, val, children := false, 0, [];
      tree, Repr := Node([]), {this};
    }

    /** A new interior node whose only child is the given edge. */
    constructor Above(e: MapEdge)
      requires e.node.Valid() && e !in e.node.Repr
      ensures Valid() && !isLeaf
      ensures tree == Node([Branch(e.prefix, e.node.tree)])
      ensures Repr == {this} + e.Footprint()
    {
      isLeaf, val, children := false, 0, [e];
      tree, Repr := Node([Branch(e.prefix, e.node.tree)]), {this} + e.Footprint();
      new;
      assert Owns(e);
    }

    ghost predicate Owns(e: MapEdge)
      reads this, Repr
      decreases Repr, 0
    {
      && e in Repr && e.node in Repr && e.node.Repr <= Repr
      && this !in e.node.Repr && e !in e.node.Repr
      && e.node.Valid()
    }

    /** da_push_back_new on the children, for an edge that leads to a separate subtree. */
    method Push(e: MapEdge)
      requires Valid() && !isLeaf && e.node.Valid() && e !in e.node.Repr
      requires e !in Repr && e.node.Repr !! Repr
      modifies this
      ensures Valid() && !isLeaf && Repr == old(Repr) + e.Footprint()
      ensures tree == Node(old(tree).children + [Branch(e.prefix, e.node.tree)])
    {
      children := children + [e];
      tree := Node(tree.children + [Branch(e.prefix, e.node.tree)]);
      Repr := Repr + e.Footprint();
      forall i | 0 <= i < |old(children)|
        ensures Owns(children[i])
        ensures children[i].Footprint() !! e.Footprint()
      {
        assert old(Owns(children[i]));
      }
      assert Owns(e);
    }

    /** Valid but for child i, which has changed beneath this node. */
    ghost predicate ValidExcept(i: nat)
      reads this, Repr
      decreases Repr, 1
    {
      && this in Repr && !isLeaf && i < |children|
      && tree.Node? && |tree.children| == |children|
      && (forall j :: 0 <= j < |children| && j != i ==>
            (&& Owns(children[j])
             && tree.children[j] == Branch(children[j].prefix, children[j].node.tree)))
      && (forall j, k :: 0 <= j < k < |children| && j != i && k != i ==>
            children[j].Footprint() !! children[k].Footprint())
    }

    /** A change below child i leaves the other children as they were. */
    twostate lemma OthersKept(i: nat)
      requires old(Valid()) && !old(isLeaf) && i < |old(children)|
      requires unchanged(old(Repr) - old(children[i].Footprint()))
      ensures ValidExcept(i) && children == old(children) && tree == old(tree) && Repr == old(Repr)
      ensures forall j :: 0 <= j < |children| && j != i ==>
        children[j].Footprint() == old(children[j].Footprint())
    {
      assert old(Owns(children[i]));
      forall j | 0 <= j < |children| && j != i
        ensures Owns(children[j]) && children[j].Footprint() == old(children[j].Footprint())
        ensures tree.children[j] == Branch(children[j].prefix, children[j].node.tree)
      {
        assert old(Owns(children[j]));
        assert old(children[j].Footprint() !! children[i].Footprint());
      }
    }

    /** Take over what child i has become. */
    ghost method Adopt(i: nat)
      requires ValidExcept(i)
      requires children[i].node.Valid() && children[i] !in children[i].node.Repr
      requires this !in children[i].Footprint()
      requires forall j :: 0 <= j < |children| && j != i ==> children[j].Footprint() !! children[i].Footprint()
      modifies this`tree, this`Repr
      ensures Valid() && Repr == old(Repr) + children[i].Footprint()
      ensures tree == Node(old(tree).children[i := Branch(children[i].prefix, children[i].node.tree)])
    {
      tree := Node(tree.children[i := Branch(children[i].prefix, children[i].node.tree)]);
      Repr := Repr + children[i].Footprint();
      forall j | 0 <= j < |children|
        ensures Owns(children[j])
      {
        if j != i {
          assert old(Owns(children[j]));
        }
      }
    }

    ghost predicate Valid()
      reads this, Repr
      decreases Repr, 1
      ensures Valid() ==> this in Repr
    {
      && this in Repr
      && (if isLeaf then children == [] && tree == Leaf(val)
          else
            && tree.Node? && |tree.children| == |children|
            && (forall i :: 0 <= i < |children| ==>
                  (&& Owns(children[i])
                   && tree.children[i] == Branch(children[i].prefix, children[i].node.tree)))
            && (forall i, j :: 0 <= i < j < |children| ==>
                  children[i].Footprint() !! children[j].Footprint()))
    }
  }

  class NameMap {
    const root: MapNode
    var leaves: seq<MapNode>
    var nextLeaf: nat

    /** Allocates the root and a pool of numLeaves blank leaves. */
    constructor (numLeaves: nat)
      ensures PoolReady() && nextLeaf == 0 && |leaves| == numLeaves
      ensures root.Valid() && root.tree == Node([])
      ensures fresh(root) && fresh(root.Repr) && fresh(leaves)
    {
      root := new MapNode();
      leaves, nextLeaf := [], 0;
      new;
      for i := 0 to numLeaves
        invariant root.Valid() && root.tree == Node([]) && root.Repr == {root} && fresh(root)
        invariant nextLeaf == 0 && |leaves| == i && PoolReady() && fresh(leaves)
      {
        var leaf := new MapNode();
        leaves := leaves + [leaf];
      }
    }

    /** The unused leaves are distinct, blank and not part of the trie. */
    ghost predicate PoolReady()
      reads this, root, leaves
    {
      && nextLeaf <= |leaves| && this !in root.Repr
      && (forall i, j :: 0 <= i < j < |leaves| ==> leaves[i] != leaves[j])
      && (forall i :: nextLeaf <= i < |leaves| ==> leaves[i].children == [] && leaves[i] !in root.Repr)
    }

    /** The next leaf of the pool is there and still blank. */
    ghost predicate HasLeaf()
      reads this, leaves
    {
      nextLeaf < |leaves| && leaves[nextLeaf].children == []
    }

    method NewLeaf(v: int) returns (leaf: MapNode)
      requires HasLeaf()
      modifies this`nextLeaf, leaves[nextLeaf]
      ensures nextLeaf == old(nextLeaf) + 1 && leaf == leaves[old(nextLeaf)]
      ensures leaf.Valid() && leaf.Repr == {leaf} && leaf.tree == Leaf(v)
    {
      leaf := leaves[nextLeaf];
      nextLeaf := nextLeaf + 1;
      leaf.isLeaf, leaf.val := true, v;
      leaf.tree, leaf.Repr := Leaf(v), {leaf};
    }

    method AddLeaf(node: MapNode, key: string, v: int)
      requires node.Valid() && !node.isLeaf
      requires HasLeaf() && leaves[nextLeaf] !in node.Repr && this !in node.Repr
      modifies node, this`nextLeaf, leaves[nextLeaf]
      ensures nextLeaf == old(nextLeaf) + 1
      ensures node.Valid() && !node.isLeaf
      ensures node.tree == Node(old(node.tree).children + [Branch(key, Leaf(v))])
      ensures fresh(node.Repr - old(node.Repr) - {leaves[old(nextLeaf)]})
    {
      var leaf := NewLeaf(v);
      var e := new MapEdge(key, leaf);
      node.Push(e);
    }

    /** The loop at the head of reduce_edge: it relies on the terminating zero of one string
        differing from the other string's character. */
    static method CommonLength(prefix: string, key: string) returns (common: nat)
      requires Common(prefix, key) < |prefix|
      requires NUL !in prefix && NUL !in key
      ensures common == Common(prefix, key)
    {
      common := 0;
      while At(prefix, common) == At(key, common)
        invariant common <= Common(prefix, key)
        decreases |prefix| - common
      {
        CommonAt(prefix, key, common);
        common := common + 1;
      }
      CommonAt(prefix, key, common);
    }

    /** reduce_edge: split the edge where it leaves the key. */
    method ReduceEdge(e: MapEdge, key: string, v: int)
      requires e.node.Valid() && e !in e.node.Repr && this !in e.node.Repr
      requires HasLeaf() && leaves[nextLeaf] !in e.node.Repr
      requires Common(e.prefix, key) < |e.prefix|
      requires NUL !in e.prefix && NUL !in key
      modifies e, this`nextLeaf, leaves[nextLeaf]
      ensures nextLeaf == old(nextLeaf) + 1
      ensures e.node.Valid() && e !in e.node.Repr
      ensures Branch(e.prefix, e.node.tree) == Reduce(old(Branch(e.prefix, e.node.tree)), key, v)
      ensures fresh(e.node.Repr - old(e.node.Repr) - {leaves[old(nextLeaf)]})
    {
      var common := CommonLength(e.prefix, key);
      SplitEdge(e, common, key[common..], v);
    }

    method SplitEdge(e: MapEdge, common: nat, rest: string, v: int)
      requires e.node.Valid() && e !in e.node.Repr && this !in e.node.Repr && common <= |e.prefix|
      requires HasLeaf() && leaves[nextLeaf] !in e.node.Repr
      modifies e, this`nextLeaf, leaves[nextLeaf]
      ensures nextLeaf == old(nextLeaf) + 1
      ensures e.node.Valid() && e !in e.node.Repr && e.prefix == old(e.prefix)[..common]
      ensures e.node.tree == Node([Branch(old(e.prefix)[common..], old(e.node.tree)), Branch(rest, Leaf(v))])
      ensures fresh(e.node.Repr - old(e.node.Repr) - {leaves[old(nextLeaf)]})
    {
      var tail := new MapEdge(e.prefix[common..], e.node);
      var newNode := new MapNode.Above(tail);
      AddLeaf(newNode, rest, v);
      e.node := newNode;
      e.prefix := e.prefix[..common];
    }

    /** The first branch of insert: a key runs past a leaf, which moves below an empty edge. */
    method SplitLeaf(edge: MapEdge, key: string, v: int)
      requires edge.node.Valid() && edge.node.isLeaf && edge !in edge.node.Repr && this !in edge.node.Repr
      requires HasLeaf() && leaves[nextLeaf] !in edge.node.Repr
      modifies edge, this`nextLeaf, leaves[nextLeaf]
      ensures nextLeaf == old(nextLeaf) + 1
      ensures edge.node.Valid() && edge !in edge.node.Repr && edge.prefix == old(edge.prefix)
      ensures edge.node.tree == Node([Branch("", old(edge.node.tree)), Branch(key, Leaf(v))])
      ensures fresh(edge.node.Repr - old(edge.node.Repr) - {leaves[old(nextLeaf)]})
    {
      var inner := new MapEdge("", edge.node);
      var newNode := new MapNode.Above(inner);
      AddLeaf(newNode, key, v);
      edge.node := newNode;
    }

    /** The loop over the children: the first one whose edge can take the key. */
    method FindChild(node: MapNode, key: string) returns (i: nat, m: Match)
      requires node.Valid() && !node.isLeaf
      ensures i == FirstMatch(node.tree.children, key)
      ensures i < |node.children| ==> m == Compare(node.children[i].prefix, key)
    {
      i, m := 0, NoMatch;
      while i < |node.children|
        invariant i <= FirstMatch(node.tree.children, key)
      {
        m := ComparePrefix(node.children[i], key);
        if m != NoMatch {
          return;
        }
        i := i + 1;
      }
    }

    /** insert; the root is the only node reached without an edge. */
    method Insert(edge: MapEdge?, node: MapNode, key: string, v: int)
      requires node.Valid() && this !in node.Repr
      requires edge != null ==> edge.node == node && edge !in node.Repr
      requires node.isLeaf && key != "" ==> edge != null
      requires HasLeaf() && leaves[nextLeaf] !in node.Repr
      requires ZeroFree(node.tree) && NUL !in key
      modifies if edge != null then {edge} else {}, node.Repr, this`nextLeaf, leaves[nextLeaf]
      ensures nextLeaf == old(nextLeaf) + (if EndsAtLeaf(old(node.tree), key) then 0 else 1)
      ensures var top := if edge != null then edge.node else node;
        && top.Valid() && top.tree == NameTrie.Insert(old(node.tree), key, v)
        && fresh(top.Repr - old(node.Repr) - {leaves[old(nextLeaf)]})
        && (EndsAtLeaf(old(node.tree), key) ==> HasLeaf() && leaves[nextLeaf] !in top.Repr)
      ensures edge != null ==> edge !in edge.node.Repr && edge.prefix == old(edge.prefix)
      decreases node.tree, 1
    {
      if node.isLeaf && key != "" {
        SplitLeaf(edge, key, v);
        return;
      }
      if node.isLeaf && key == "" {
        node.val := v;
        node.tree := Leaf(v);
        return;
      }
      var i, m := FindChild(node, key);
      if i == |node.children| {
        AddLeaf(node, key, v);
        return;
      }
      InsertBelow(node, i, m, key, v);
    }

    /** The last part of insert: the key continues in child i. */
    method InsertBelow(node: MapNode, i: nat, m: Match, key: string, v: int)
      requires node.Valid() && !node.isLeaf && this !in node.Repr
      requires i == FirstMatch(node.tree.children, key) < |node.children|
      requires m == Compare(node.children[i].prefix, key)
      requires HasLeaf() && leaves[nextLeaf] !in node.Repr
      requires ZeroFree(node.tree) && NUL !in key
      modifies node.Repr, this`nextLeaf, leaves[nextLeaf]
      ensures nextLeaf == old(nextLeaf) + (if EndsAtLeaf(old(node.tree), key) then 0 else 1)
      ensures node.Valid() && node.tree == NameTrie.Insert(old(node.tree), key, v)
      ensures fresh(node.Repr - old(node.Repr) - {leaves[old(nextLeaf)]})
      ensures EndsAtLeaf(old(node.tree), key) ==> HasLeaf() && leaves[nextLeaf] !in node.Repr
      decreases node.tree, 0
    {
      var e := node.children[i];
      assert node.Owns(e) && node.tree.children[i] == Branch(e.prefix, e.node.tree);
      InsertIntoEdge(e, m, key, v);
      node.OthersKept(i);
      node.Adopt(i);
    }

    method InsertIntoEdge(e: MapEdge, m: Match, key: string, v: int)
      requires e.node.Valid() && e !in e.node.Repr && this !in e.node.Repr
      requires HasLeaf() && leaves[nextLeaf] !in e.node.Repr
      requires m == Compare(e.prefix, key) && m != NoMatch
      requires NUL !in e.prefix && ZeroFree(e.node.tree) && NUL !in key
      modifies e, e.node.Repr, this`nextLeaf, leaves[nextLeaf]
      ensures e.node.Valid() && e !in e.node.Repr
      ensures Branch(e.prefix, e.node.tree) == old(InsertBranch(Branch(e.prefix, e.node.tree), key, v))
      ensures nextLeaf == old(nextLeaf) + (if old(BranchEndsAtLeaf(Branch(e.prefix, e.node.tree), key)) then 0 else 1)
      ensures fresh(e.node.Repr - old(e.node.Repr) - {leaves[old(nextLeaf)]})
      ensures old(BranchEndsAtLeaf(Branch(e.prefix, e.node.tree), key)) ==>
        HasLeaf() && leaves[nextLeaf] !in e.node.Repr
      decreases e.node.tree, 2
    {
      if m == CommonPrefix {
        ReduceEdge(e, key, v);
      } else {
        Insert(e, e.node, key[|e.prefix|..], v);
      }
    }

    /** compare_prefix */
    method ComparePrefix(e: MapEdge, key: string) returns (m: Match)
      ensures m == Compare(e.prefix, key)
    {
      var i := 0;
      while i < |key| && i < |e.prefix|
        invariant i <= Common(e.prefix, key)
      {
        CommonAt(e.prefix, key, i);
        if e.prefix[i] != key[i] {
          break;
        }
        i := i + 1;
      }
      if i != 0 && |e.prefix| == i {
        return if |key| == i then Matches else PrefixMatches;
      }
      if i != 0 {
        return CommonPrefix;
      }
      return NoMatch;
    }

    ghost predicate Valid()
      reads this, root, leaves, root.Repr
    {
      root.Valid() && !root.isLeaf && PoolReady() && ZeroFree(root.tree) && Shaped(root.tree)
    }

    /** obs_hotkey_name_map_insert */
    method InsertName(key: string, v: int)
      requires Valid() && nextLeaf < |leaves|
      requires NUL !in key && |key| < 256
      modifies this`nextLeaf, root, root.Repr, leaves
      ensures Valid() && root.tree == NameTrie.Insert(old(root.tree), key, v)
      ensures old(nextLeaf) <= nextLeaf <= old(nextLeaf) + 1
      ensures fresh(root.Repr - old(root.Repr) - set l | l in leaves)
    {
      InsertShaped(root.tree, key, v);
      InsertZeroFree(root.tree, key, v);
      Insert(null, root, key, v);
    }

    /** obs_hotkey_name_map_lookup */
    method Lookup(key: string) returns (r: Option<int>)
      requires Valid()
      ensures r == NameTrie.Lookup(root.tree, key)
    {
      var n, k, i := root, key, 0;
      while i < |n.children|
        invariant n.Valid() && Shaped(n.tree)
        invariant if key == "" then k == "" && n == root
                  else k != "" && NameTrie.Lookup(root.tree, key) == Get(n.tree, k)
        invariant n.tree.Node? ==> i <= FirstMatch(n.tree.children, k)
        decreases n.tree, |n.children| - i
      {
        var e := n.children[i];
        assert n.Owns(e) && n.tree.children[i] == Branch(e.prefix, e.node.tree);
        if key != "" {
          LookupStep(n.tree, k, i);
        }
        var m := ComparePrefix(e, k);
        match m {
          case NoMatch =>
            i := i + 1;
          case CommonPrefix =>
            return None;
          case PrefixMatches =>
            k, n, i := k[|e.prefix|..], e.node, 0;
          case Matches =>
            r := ValueAt(e.node);
            return;
        }
      }
      return None;
    }

    /** The name ends at this node: its own value, or that behind its first empty edge. */
    method ValueAt(n: MapNode) returns (r: Option<int>)
      requires n.Valid() && Shaped(n.tree)
      ensures r == EndVal(n.tree)
    {
      if n.isLeaf {
        return Some(n.val);
      }
      for j := 0 to |n.children|
        invariant j <= FirstEmpty(n.tree.children)
      {
        var e := n.children[j];
        assert n.Owns(e) && n.tree.children[j] == Branch(e.prefix, e.node.tree);
        if |e.prefix| == 0 {
          assert j == FirstEmpty(n.tree.children) && e.node.Valid() && e.node.tree.Leaf?;
          return Some(e.node.val);
        }
      }
      return None;
    }
  }

  /** init_name_map: allocate one leaf per name, then insert the names in order. */
  method InitNameMap(es: seq<Entry>) returns (m: NameMap)
    requires forall i :: 0 <= i < |es| ==> NUL !in es[i].0 && |es[i].0| < 256
    ensures fresh(m) && m.Valid() && m.root.tree == Build(es)
  {
    m := new NameMap(|es|);
    assert es[..0] == [];
    for i := 0 to |es|
      invariant fresh(m) && fresh(m.root) && fresh(m.root.Repr) && fresh(m.leaves)
      invariant m.Valid() && m.root.tree == Build(es[..i])
      invariant m.nextLeaf <= i && |m.leaves| == |es|
    {
      m.InsertName(es[i].0, es[i].1);
      assert es[..i + 1][..i] == es[..i];
    }
    assert es[..|es|] == es;
  }

  /** obs_key_from_name through the map; the result is that of the strcmp chain for every argument. */
  method KeyFromName(es: seq<Entry>, name: string) returns (key: int)
    requires forall i :: 0 <= i < |es| ==> NUL !in es[i].0 && |es[i].0| < 256
    requires Distinct(es) && Named(es)
    ensures key == match Scan(es, name) case Some(v) => v case None => KEY_NONE
  {
    var m := InitNameMap(es);
    var r := m.Lookup(name);
    LookupIsScan(es, name);
    return match r case Some(v) => v case None => KEY_NONE;
  }

  /** What inserting does to the one child the key continues in. */
  ghost function InsertBranch(b: Branch, key: string, v: int): Branch
    requires Compare(b.prefix, key) != NoMatch
  {
    if Compare(b.prefix, key) == CommonPrefix then Reduce(b, key, v)
    else Branch(b.prefix, NameTrie.Insert(b.node, key[|b.prefix|..], v))
  }

  ghost predicate BranchEndsAtLeaf(b: Branch, key: string)
    requires Compare(b.prefix, key) != NoMatch
  {
    Compare(b.prefix, key) != CommonPrefix && EndsAtLeaf(b.node, key[|b.prefix|..])
  }

  /** No edge below holds the terminating zero. */
  ghost predicate ZeroFree(t: Tree)
    decreases t
  {
    t.Node? ==> forall i :: 0 <= i < |t.children| ==> NUL !in t.children[i].prefix && ZeroFree(t.children[i].node)
  }

  lemma {:induction false} InsertZeroFree(t: Tree, key: string, v: int)
    requires ZeroFree(t) && NUL !in key
    ensures ZeroFree(NameTrie.Insert(t, key, v))
    decreases t
  {
    if t.Node? {
      var cs, i := t.children, FirstMatch(t.children, key);
      if i < |cs| && Compare(cs[i].prefix, key) == CommonPrefix {
        assert ZeroFree(Reduce(cs[i], key, v).node);
      } else if i < |cs| {
        InsertZeroFree(cs[i].node, key[|cs[i].prefix|..], v);
      }
    }
  }

  const NUL: char := '\0'

  /** A character of a C string, or its terminating zero. */
  function At(s: string, i: nat): char {
    if i < |s| then s[i] else NUL
  }

  lemma {:induction false} CommonAt(a: string, b: string, i: nat)
    requires i <= Common(a, b)
    ensures i < |a| && i < |b| ==> (a[i] == b[i] <==> i < Common(a, b))
  {
    var n := Common(a, b);
    if i < n {
      assert a[i] == a[..n][i] == b[..n][i] == b[i];
    }
  }
}
