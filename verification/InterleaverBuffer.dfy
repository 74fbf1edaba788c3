/** Facts about the sorted packet buffer: what insertion, resorting and discarding a prefix
    do to the order of the whole buffer and to the subsequence of each stream. */
module InterleaverBuffer {
  import opened Sequences
  import opened Interleaver

  /** The packets of one stream, in buffer order. */
  function Of(b: seq<Packet>, st: Stream): seq<Packet> {
    if b == [] then []
    else
      var n := |b| - 1;
      if b[n].stream == st then Of(b[..n], st) + [b[n]] else Of(b[..n], st)
  }

  lemma {:induction false} OfConcat(a: seq<Packet>, b: seq<Packet>, st: Stream)
    ensures Of(a + b, st) == Of(a, st) + Of(b, st)
  {
    if b == [] {
      assert a + b == a;
    } else {
      var n := |b| - 1;
      OfConcat(a, b[..n], st);
      assert (a + b)[..|a + b| - 1] == a + b[..n];
    }
  }

  lemma {:induction false} OfOne(p: Packet, st: Stream)
    ensures Of([p], st) == if p.stream == st then [p] else []
  {
    assert [p][..0] == [];
    assert Of([p][..0], st) == [];
  }

  lemma {:induction false} OfMember(b: seq<Packet>, st: Stream, x: Packet)
    ensures x in Of(b, st) <==> x in b && x.stream == st
  {
    if b != [] {
      var n := |b| - 1;
      OfMember(b[..n], st, x);
      assert b == b[..n] + [b[n]];
    }
  }

  lemma {:induction false} OfMembers(b: seq<Packet>, st: Stream)
    ensures forall x :: x in Of(b, st) <==> x in b && x.stream == st
  {
    forall x {
      OfMember(b, st, x);
    }
  }

  lemma {:induction false} OfNone(b: seq<Packet>, st: Stream)
    requires forall x :: x in b ==> x.stream != st
    ensures Of(b, st) == []
  {
    if b != [] {
      var n := |b| - 1;
      assert b[n] in b && forall x :: x in b[..n] ==> x in b;
      OfNone(b[..n], st);
    }
  }

  lemma {:induction false} OfEmpty(b: seq<Packet>, st: Stream)
    ensures Of(b, st) == [] <==> FirstIdx(b, st) < 0
  {
    var i := FirstIdx(b, st);
    FirstIdxLeast(b, st);
    if i >= 0 {
      OfMember(b, st, b[i]);
    } else {
      OfNone(b, st);
    }
  }

  lemma {:induction false} OfFirst(b: seq<Packet>, st: Stream)
    requires FirstIdx(b, st) >= 0
    ensures Of(b, st) != [] && Of(b, st)[0] == b[FirstIdx(b, st)]
  {
    var i := FirstIdx(b, st);
    FirstIdxLeast(b, st);
    assert b == b[..i] + ([b[i]] + b[i + 1..]);
    OfConcat(b[..i], [b[i]] + b[i + 1..], st);
    OfConcat([b[i]], b[i + 1..], st);
    OfOne(b[i], st);
    OfNone(b[..i], st);
  }

  lemma {:induction false} OfTail(b: seq<Packet>, n: nat, st: Stream)
    requires n <= |b|
    ensures Of(b, st) == Of(b[..n], st) + Of(b[n..], st)
  {
    OfConcat(b[..n], b[n..], st);
    assert b == b[..n] + b[n..];
  }

  lemma InsertMembers(b: seq<Packet>, p: Packet)
    ensures forall x :: x in Insert(b, p) <==> x in b || x == p
  {
    var i := Slot(b, p.dtsUsec);
    assert b == b[..i] + b[i..];
  }

  lemma InsertSorted(b: seq<Packet>, p: Packet)
    requires Sorted(b)
    ensures Sorted(Insert(b, p))
  {
    var i := Slot(b, p.dtsUsec);
    SlotSeparates(b, p.dtsUsec);
    SortedJoin(b[..i], [p], b[i..]);
  }

  lemma SortedJoin(a: seq<Packet>, m: seq<Packet>, c: seq<Packet>)
    requires Sorted(a) && Sorted(c) && |m| == 1
    requires (forall j :: 0 <= j < |a| ==> a[j].dtsUsec <= m[0].dtsUsec)
    requires (forall j :: 0 <= j < |c| ==> m[0].dtsUsec <= c[j].dtsUsec)
    ensures Sorted(a + m + c)
  {
  }

  lemma {:induction false} SlotSeparates(b: seq<Packet>, ts: int)
    requires Sorted(b)
    ensures var i := Slot(b, ts); Sorted(b[..i]) && Sorted(b[i..])
    ensures forall j :: 0 <= j < |b[Slot(b, ts)..]| ==> ts < b[Slot(b, ts)..][j].dtsUsec
  {
    var i := Slot(b, ts);
    forall j | 0 <= j < |b[i..]|
      ensures ts < b[i..][j].dtsUsec
    {
      assert b[i].dtsUsec <= b[i + j].dtsUsec;
    }
  }

  /** A packet no older than its own stream's packets lands behind all of them. */
  lemma {:induction false} InsertOf(b: seq<Packet>, p: Packet, st: Stream)
    requires Sorted(b)
    requires forall x :: x in b && x.stream == p.stream ==> x.dtsUsec <= p.dtsUsec
    ensures Of(Insert(b, p), st) == Of(b, st) + (if p.stream == st then [p] else [])
  {
    var i := Slot(b, p.dtsUsec);
    OfTail(b, i, st);
    OfSplice(b[..i], p, b[i..], st);
    if p.stream == st {
      BeyondSlot(b, p.dtsUsec);
      OfNone(b[i..], st);
      Regroup(Of(b[..i], st), [], []);
      Regroup(Of(b[..i], st), [p], []);
    } else {
      Regroup(Of(b[..i], st), [], Of(b[i..], st));
      Regroup(Of(b, st), [], []);
    }
  }

  lemma {:induction false} OfSplice(a: seq<Packet>, p: Packet, c: seq<Packet>, st: Stream)
    ensures Of(a + [p] + c, st) == Of(a, st) + (if p.stream == st then [p] else []) + Of(c, st)
  {
    OfConcat(a + [p], c, st);
    assert (a + [p])[..|a|] == a;
  }

  lemma {:induction false} BeyondSlot(b: seq<Packet>, ts: int)
    requires Sorted(b)
    ensures forall x :: x in b[Slot(b, ts)..] ==> x in b && ts < x.dtsUsec
  {
    SlotSeparates(b, ts);
  }

  /** Every stream on its own is in dts order. */
  ghost predicate StreamOrdered(b: seq<Packet>) {
    forall st :: Sorted(Of(b, st))
  }

  lemma SortedPrefix(a: seq<Packet>, c: seq<Packet>)
    requires Sorted(a + c)
    ensures Sorted(a)
  {
    forall i, j | 0 <= i < j < |a|
      ensures a[i].dtsUsec <= a[j].dtsUsec
    {
      assert (a + c)[i] == a[i] && (a + c)[j] == a[j];
    }
  }

  /** Resorting yields a sorted permutation that keeps the order of every stream. */
  lemma {:induction false} ResortKeeps(b: seq<Packet>)
    requires StreamOrdered(b)
    ensures Sorted(Resort(b))
    ensures multiset(Resort(b)) == multiset(b)
    ensures forall st :: Of(Resort(b), st) == Of(b, st)
  {
    if b != [] {
      var n := |b| - 1;
      var p, r := b[n], Resort(b[..n]);
      assert b == b[..n] + [p];
      forall st
        ensures Sorted(Of(b[..n], st))
      {
        assert Sorted(Of(b, st));
        OfTail(b, n, st);
        SortedPrefix(Of(b[..n], st), Of(b[n..], st));
      }
      ResortKeeps(b[..n]);
      InsertSorted(r, p);
      forall x | x in r && x.stream == p.stream
        ensures x.dtsUsec <= p.dtsUsec
      {
        var own := Of(b, p.stream);
        assert own == Of(b[..n], p.stream) + [p];
        OfMember(r, p.stream, x);
        var i :| 0 <= i < |Of(b[..n], p.stream)| && Of(b[..n], p.stream)[i] == x;
        assert own[i] == x && own[|own| - 1] == p;
      }
      forall st
        ensures Of(Resort(b), st) == Of(b, st)
      {
        InsertOf(r, p, st);
      }
      InsertMultiset(r, p);
    }
  }

  lemma {:induction false} ResortMembers(b: seq<Packet>)
    ensures forall x :: x in Resort(b) <==> x in b
  {
    if b != [] {
      var n := |b| - 1;
      ResortMembers(b[..n]);
      InsertMembers(Resort(b[..n]), b[n]);
      assert b == b[..n] + [b[n]];
    }
  }

  lemma InsertMultiset(b: seq<Packet>, p: Packet)
    ensures multiset(Insert(b, p)) == multiset(b) + multiset{p}
  {
    var i := Slot(b, p.dtsUsec);
    assert b == b[..i] + b[i..];
  }
}
