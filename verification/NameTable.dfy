/** The map built from a table of key names: it answers exactly as a linear scan with strcmp, takes
    at most one leaf of the pool per name, and treats a repeated name in a way a caller can predict. */
module NameTable {
  import opened Wrappers
  import opened NameTrie

  type Entry = (string, int)

  /** init_name_map: insert the table's names in order. */
  function Build(es: seq<Entry>): Tree {
    if es == [] then Node([])
    else var n := |es| - 1; Insert(Build(es[..n]), es[n].0, es[n].1)
  }

  /** obs_key_from_name_fallback: the first entry whose name equals the argument. */
  function Scan(es: seq<Entry>, name: string): Option<int> {
    if es == [] then None
    else if es[0].0 == name then Some(es[0].1)
    else Scan(es[1..], name)
  }

  ghost predicate Distinct(es: seq<Entry>) {
    forall i, j :: 0 <= i < j < |es| ==> es[i].0 != es[j].0
  }

  ghost predicate Named(es: seq<Entry>) {
    forall i :: 0 <= i < |es| ==> es[i].0 != ""
  }

  lemma {:induction false} ScanSnoc(es: seq<Entry>, e: Entry, name: string)
    ensures Scan(es + [e], name) ==
      if Scan(es, name).Some? then Scan(es, name) else if e.0 == name then Some(e.1) else None
  {
    if es == [] {
      assert [e][1..] == [];
      assert es + [e] == [e];
    } else {
      assert (es + [e])[1..] == es[1..] + [e];
      ScanSnoc(es[1..], e, name);
    }
  }

  lemma {:induction false} ScanAbsent(es: seq<Entry>, name: string)
    requires forall i :: 0 <= i < |es| ==> es[i].0 != name
    ensures Scan(es, name) == None
  {
    if es != [] {
      ScanAbsent(es[1..], name);
    }
  }

  lemma {:induction false} BuildShaped(es: seq<Entry>)
    ensures Shaped(Build(es)) && Build(es).Node?
  {
    if es != [] {
      var n := |es| - 1;
      BuildShaped(es[..n]);
      InsertShaped(Build(es[..n]), es[n].0, es[n].1);
    }
  }

  lemma {:induction false} ShadowedIsPresent(t: Tree, key: string)
    requires Shaped(t) && Shadowed(t, key)
    ensures Get(t, key).Some?
    decreases t
  {
    if key != "" {
      var i := FirstMatch(t.children, key);
      ShadowedIsPresent(t.children[i].node, key[|t.children[i].prefix|..]);
    }
  }

  /** For a table of distinct names the trie answers every query as the strcmp chain does. */
  lemma {:induction false} LookupIsScan(es: seq<Entry>, name: string)
    requires Distinct(es) && Named(es)
    ensures Lookup(Build(es), name) == Scan(es, name)
  {
    if name == "" {
      ScanAbsent(es, name);
    } else if es != [] {
      var n := |es| - 1;
      var past, e := es[..n], es[n];
      LookupIsScan(past, name);
      ScanSnoc(past, e, name);
      assert es == past + [e];
      BuildShaped(past);
      GetInsert(Build(past), e.0, e.1, name);
      if name == e.0 {
        ScanAbsent(past, name);
        if Shadowed(Build(past), name) {
          ShadowedIsPresent(Build(past), name);
        }
      }
    }
  }

  // ----- repeated names

  /** Every interior node below the root has a non-empty edge. */
  ghost predicate Branchy(t: Tree)
    decreases t
  {
    t.Node? ==> (exists i :: 0 <= i < |t.children| && t.children[i].prefix != "") && ChildrenBranchy(t)
  }

  ghost predicate ChildrenBranchy(t: Tree)
    requires t.Node?
    decreases t, 0
  {
    forall i :: 0 <= i < |t.children| ==> Branchy(t.children[i].node)
  }

  lemma ReduceBranchy(b: Branch, key: string, v: int)
    requires Branchy(b.node) && Compare(b.prefix, key) == CommonPrefix
    ensures Branchy(Reduce(b, key, v).node)
  {
    var cs := Reduce(b, key, v).node.children;
    assert cs[0].prefix != "";
  }

  lemma {:induction false} InsertBranchy(t: Tree, key: string, v: int)
    ensures Branchy(t) ==> Branchy(Insert(t, key, v))
    ensures t.Node? && ChildrenBranchy(t) ==> ChildrenBranchy(Insert(t, key, v))
    decreases t
  {
    if t.Leaf? {
      if key != "" {
        assert Insert(t, key, v).children[1].prefix != "";
      }
    } else {
      var cs, i := t.children, FirstMatch(t.children, key);
      var ds := Insert(t, key, v).children;
      if ChildrenBranchy(t) {
        forall j | 0 <= j < |ds|
          ensures Branchy(ds[j].node)
        {
          if j == i < |cs| {
            if Compare(cs[i].prefix, key) == CommonPrefix {
              ReduceBranchy(cs[i], key, v);
            } else {
              InsertBranchy(cs[i].node, key[|cs[i].prefix|..], v);
            }
          }
        }
      }
      if j :| 0 <= j < |cs| && cs[j].prefix != "" {
        assert ds[j].prefix != "";
      }
    }
  }

  lemma {:induction false} BuildBranchy(es: seq<Entry>)
    ensures Build(es).Node? && ChildrenBranchy(Build(es))
  {
    if es != [] {
      var n := |es| - 1;
      BuildBranchy(es[..n]);
      InsertBranchy(Build(es[..n]), es[n].0, es[n].1);
    }
  }

  lemma {:induction false} GetThrough(t: Tree, i: nat, rest: string)
    requires t.Node? && Shaped(t) && i < |t.children| && t.children[i].prefix != ""
    ensures Get(t, t.children[i].prefix + rest) == Get(t.children[i].node, rest)
  {
    var p := t.children[i].prefix;
    assert (p + rest)[..|p|] == p[..|p|];
    CommonPrefixOf(p, p + rest, |p|);
    OnlyMatch(t.children, p + rest, i);
    assert (p + rest)[|p|..] == rest;
  }

  lemma {:induction false} Inhabited(t: Tree) returns (q: string)
    requires Shaped(t) && Branchy(t)
    ensures Get(t, q).Some? && (t.Node? ==> q != "")
    decreases t
  {
    if t.Leaf? {
      q := "";
    } else {
      var i :| 0 <= i < |t.children| && t.children[i].prefix != "";
      var rest := Inhabited(t.children[i].node);
      GetThrough(t, i, rest);
      q := t.children[i].prefix + rest;
    }
  }

  /** Some longer stored name begins with this one. */
  ghost predicate Extended(t: Tree, key: string) {
    exists e :: e != "" && Get(t, key + e).Some?
  }

  lemma {:induction false} ExtendedBelow(t: Tree, key: string, i: nat)
    requires t.Node? && Shaped(t) && i < |t.children| && t.children[i].prefix != ""
    requires |t.children[i].prefix| <= |key| && t.children[i].prefix == key[..|t.children[i].prefix|]
    ensures Extended(t, key) <==> Extended(t.children[i].node, key[|t.children[i].prefix|..])
  {
    var p := t.children[i].prefix;
    var rest := key[|p|..];
    forall e
      ensures Get(t, key + e) == Get(t.children[i].node, rest + e)
    {
      GetThrough(t, i, rest + e);
      assert key + e == p + (rest + e);
    }
  }

  lemma {:induction false} ShadowedIffExtended(t: Tree, key: string)
    requires Shaped(t) && (t.Node? ==> ChildrenBranchy(t)) && (key == "" ==> Branchy(t))
    ensures Shadowed(t, key) <==> Get(t, key).Some? && Extended(t, key)
    decreases t
  {
    if key == "" {
      if t.Node? {
        var q := Inhabited(t);
        assert "" + q == q;
      } else {
        assert forall e :: "" + e == e;
      }
    } else if t.Node? {
      var i := FirstMatch(t.children, key);
      if i < |t.children| && Compare(t.children[i].prefix, key) != CommonPrefix {
        var p := t.children[i].prefix;
        assert p == p[..|p|] == key[..|p|];
        ExtendedBelow(t, key, i);
        ShadowedIffExtended(t.children[i].node, key[|p|..]);
      }
    }
  }

  /** Inserting any name, new or repeated, into a built map: every other name keeps its answer, and
      the name itself gets the new value unless it was present and a longer stored name begins
      with it, in which case the old value stays. */
  lemma {:induction false} InsertAnswers(es: seq<Entry>, key: string, v: int, name: string)
    requires key != "" && name != ""
    ensures Lookup(Build(es + [(key, v)]), name) ==
      if name == key && !(Lookup(Build(es), key).Some? && Extended(Build(es), key))
      then Some(v) else Lookup(Build(es), name)
  {
    var t := Build(es);
    assert (es + [(key, v)])[..|es|] == es;
    BuildShaped(es);
    BuildBranchy(es);
    GetInsert(t, key, v, name);
    ShadowedIffExtended(t, key);
  }

  /** A repeated name behind a longer one keeps its first value; on its own it takes the second. */
  lemma RepeatedNames(v: int, longer: int, w: int)
    ensures Lookup(Build([("ab", v), ("abc", longer)] + [("ab", w)]), "ab") == Some(v)
    ensures Lookup(Build([("ab", v)] + [("ab", w)]), "ab") == Some(w)
  {
    LongerExtends([("ab", v), ("abc", longer)], "ab", "c");
    InsertAnswers([("ab", v), ("abc", longer)], "ab", w, "ab");
    AloneNotExtended("ab", v);
    InsertAnswers([("ab", v)], "ab", w, "ab");
  }

  lemma {:induction false} LongerExtends(es: seq<Entry>, key: string, e: string)
    requires |es| == 2 && es[0].0 == key && es[1].0 == key + e && key != "" && e != ""
    ensures Lookup(Build(es), key) == Some(es[0].1) && Extended(Build(es), key)
  {
    LookupIsScan(es, key);
    LookupIsScan(es, key + e);
    assert Get(Build(es), key + e).Some?;
  }

  lemma AloneNotExtended(key: string, v: int)
    requires key != ""
    ensures !Extended(Build([(key, v)]), key)
  {
    var es: seq<Entry> := [(key, v)];
    forall e: string | e != ""
      ensures Get(Build(es), key + e) == None
    {
      LookupIsScan(es, key + e);
      assert es[1..] == [];
    }
  }

  // ----- the pool of leaves

  function Leaves(t: Tree): nat
    decreases t, 1
  {
    match t
    case Leaf(_) => 1
    case Node(cs) => LeavesOf(t, |cs|)
  }

  /** Leaves below the first n children. */
  function LeavesOf(t: Tree, n: nat): nat
    requires t.Node? && n <= |t.children|
    decreases t, 0, n
  {
    if n == 0 then 0 else LeavesOf(t, n - 1) + Leaves(t.children[n - 1].node)
  }

  lemma {:induction false} LeavesReplaced(t: Tree, i: nat, b: Branch, n: nat)
    requires t.Node? && i < |t.children| && n <= |t.children|
    ensures LeavesOf(Node(t.children[i := b]), n) + (if i < n then Leaves(t.children[i].node) else 0)
      == LeavesOf(t, n) + (if i < n then Leaves(b.node) else 0)
    decreases n
  {
    if n > 0 {
      LeavesReplaced(t, i, b, n - 1);
    }
  }

  lemma {:induction false} LeavesPrefix(t: Tree, b: Branch, n: nat)
    requires t.Node? && n <= |t.children|
    ensures LeavesOf(Node(t.children + [b]), n) == LeavesOf(t, n)
    decreases n
  {
    if n > 0 {
      LeavesPrefix(t, b, n - 1);
    }
  }

  /** The key ends exactly at a leaf, whose value is then overwritten in place. */
  predicate EndsAtLeaf(t: Tree, key: string)
    decreases t
  {
    match t
    case Leaf(_) => key == ""
    case Node(cs) =>
      var i := FirstMatch(cs, key);
      i < |cs| && Compare(cs[i].prefix, key) != CommonPrefix && EndsAtLeaf(cs[i].node, key[|cs[i].prefix|..])
  }

  /** An insertion takes one leaf from the pool, or none when it overwrites a leaf. */
  lemma {:induction false} InsertTakesOneLeaf(t: Tree, key: string, v: int)
    ensures Leaves(Insert(t, key, v)) == Leaves(t) + (if EndsAtLeaf(t, key) then 0 else 1)
    decreases t
  {
    if t.Leaf? {
      if key != "" {
        var r := Insert(t, key, v);
        assert LeavesOf(r, 2) == LeavesOf(r, 1) + 1 && LeavesOf(r, 1) == LeavesOf(r, 0) + 1;
      }
    } else {
      var cs, i := t.children, FirstMatch(t.children, key);
      if i == |cs| {
        var r := Insert(t, key, v);
        LeavesPrefix(t, Branch(key, Leaf(v)), |cs|);
        assert LeavesOf(r, |cs| + 1) == LeavesOf(r, |cs|) + 1;
      } else if Compare(cs[i].prefix, key) == CommonPrefix {
        var b := Reduce(cs[i], key, v);
        LeavesReplaced(t, i, b, |cs|);
        assert LeavesOf(b.node, 2) == LeavesOf(b.node, 1) + 1;
        assert LeavesOf(b.node, 1) == LeavesOf(b.node, 0) + Leaves(cs[i].node);
      } else {
        var rest := key[|cs[i].prefix|..];
        InsertTakesOneLeaf(cs[i].node, rest, v);
        LeavesReplaced(t, i, Branch(cs[i].prefix, Insert(cs[i].node, rest, v)), |cs|);
      }
    }
  }

  /** The pool has one leaf per name, so next_leaf never passes num_leaves. */
  lemma {:induction false} PoolSuffices(es: seq<Entry>)
    ensures Leaves(Build(es)) <= |es|
  {
    if es != [] {
      var n := |es| - 1;
      PoolSuffices(es[..n]);
      InsertTakesOneLeaf(Build(es[..n]), es[n].0, es[n].1);
    }
  }
}
