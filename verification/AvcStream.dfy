/** Rewriting an H.264 byte stream (Annex B start codes) as length-prefixed NAL units. */
module AvcStream {
  import opened Wrappers
  import opened Sequences
  import opened Octets
  import opened AvcStartCode

  const NAL_SLICE: byte := 1
  const NAL_SLICE_IDR: byte := 5
  const NAL_SPS: byte := 7
  const NAL_PPS: byte := 8

  // ----- splitting, on the data from the current position on

  /** obs_avc_find_startcode: one step back when the start code has a fourth, leading zero. */
  function Start(d: Bytes): (r: nat)
    ensures r <= |d|
  {
    var out := Code(d);
    if 0 < out < |d| && d[out - 1] == 0 then out - 1 else out
  }

  /** Past the first non-zero byte, or the end. */
  function Skip(d: Bytes): (r: nat)
    ensures r <= |d|
    ensures d != [] ==> r > 0
  {
    if d == [] then 0 else if d[0] != 0 then 1 else 1 + Skip(d[1..])
  }

  /** The NAL units the scanning loops visit when they stand before `d`. */
  function Units(d: Bytes): seq<Bytes>
    decreases |d|
  {
    var s := Skip(d);
    if s == |d| then []
    else
      var rest := d[s..];
      var e := Start(rest);
      [rest[..e]] + Units(rest[e..])
  }

  function Nals(d: Bytes): seq<Bytes> {
    Units(d[Start(d)..])
  }

  function NalType(n: Bytes): byte {
    if n == [] then 0 else n[0] % 32
  }

  predicate IsSlice(n: Bytes) {
    NalType(n) == NAL_SLICE_IDR || NalType(n) == NAL_SLICE
  }

  // ----- framing and length prefixes

  /** The start code in front of a framed list. */
  function Lead(long: bool): Bytes {
    if long then [0, 0, 0, 1] else [0, 0, 1]
  }

  function Frame(nals: seq<Bytes>, long: seq<bool>): Bytes
    requires |long| == |nals|
  {
    if nals == [] then []
    else Lead(long[0]) + nals[0] + Frame(nals[1..], long[1..])
  }

  /** No start code inside and no trailing zero (section 7.4.1 of ITU-T H.264). */
  ghost predicate Clean(n: Bytes) {
    && (forall i: nat :: i + 2 < |n| ==> !CodeAt(n, i))
    && (n != [] ==> n[|n| - 1] != 0)
  }

  ghost predicate Framable(nals: seq<Bytes>) {
    && (forall i :: 0 <= i < |nals| ==> Clean(nals[i]))
    && (nals != [] ==> nals[|nals| - 1] != [])
  }

  /** The low k bytes of a value, most significant first, as s_wb16 and s_wb32 write them. */
  function BigEndian(x: nat, k: nat): (b: Bytes)
    ensures |b| == k
    decreases k
  {
    if k == 0 then [] else BigEndian(x / 256, k - 1) + [(x % 256) as byte]
  }

  function FromBigEndian(b: Bytes): nat {
    if b == [] then 0 else FromBigEndian(b[..|b| - 1]) * 256 + b[|b| - 1] as int
  }

  function Pow256(k: nat): nat {
    if k == 0 then 1 else Pow256(k - 1) * 256
  }

  lemma {:induction false} BigEndianRoundTrip(x: nat, k: nat)
    requires x < Pow256(k)
    ensures FromBigEndian(BigEndian(x, k)) == x
    decreases k
  {
    if k > 0 {
      BigEndianRoundTrip(x / 256, k - 1);
      assert BigEndian(x, k)[..k - 1] == BigEndian(x / 256, k - 1);
    }
  }

  const TWO32 := 0x1_0000_0000

  function Prefixed(n: Bytes): Bytes {
    BigEndian(|n|, 4) + n
  }

  function Emit(nals: seq<Bytes>): Bytes {
    if nals == [] then [] else Prefixed(nals[0]) + Emit(nals[1..])
  }

  /** A reader of the length-prefixed form. */
  function ReadBack(b: Bytes): Option<seq<Bytes>>
    decreases |b|
  {
    if b == [] then Some([])
    else if |b| < 4 then None
    else
      var n := FromBigEndian(b[..4]);
      if |b| < 4 + n then None
      else
        match ReadBack(b[4 + n..])
        case None => None
        case Some(rest) => Some([b[4..4 + n]] + rest)
  }

  lemma {:induction false} LengthRoundTrip(n: nat)
    requires n < TWO32
    ensures FromBigEndian(BigEndian(n, 4)) == n
  {
    assert Pow256(4) == 256 * 256 * 256 * 256 by {
      assert Pow256(1) == 256 && Pow256(2) == 256 * 256 && Pow256(3) == 256 * 256 * 256;
    }
    BigEndianRoundTrip(n, 4);
  }

  lemma {:induction false} ReadBackWith(head: Bytes, n: Bytes, tail: Bytes)
    requires |head| == 4 && FromBigEndian(head) == |n| && ReadBack(tail).Some?
    ensures ReadBack(head + n + tail) == Some([n] + ReadBack(tail).value)
  {
    ThreeParts(head, n, tail);
  }

  lemma {:induction false} ReadBackOne(n: Bytes, tail: Bytes)
    requires |n| < TWO32 && ReadBack(tail).Some?
    ensures ReadBack(Prefixed(n) + tail) == Some([n] + ReadBack(tail).value)
  {
    LengthRoundTrip(|n|);
    ReadBackWith(BigEndian(|n|, 4), n, tail);
  }

  lemma ThreeParts(head: Bytes, n: Bytes, tail: Bytes)
    ensures var b := head + n + tail;
      b[..|head|] == head && b[|head|..|head| + |n|] == n && b[|head| + |n|..] == tail
  {
  }

  /** The lengths delimit the units again, whatever bytes they hold. */
  lemma {:induction false} ReadBackEmit(nals: seq<Bytes>)
    requires forall i :: 0 <= i < |nals| ==> |nals[i]| < TWO32
    ensures ReadBack(Emit(nals)) == Some(nals)
  {
    if nals != [] {
      ReadBackEmit(nals[1..]);
      ReadBackOne(nals[0], Emit(nals[1..]));
      HeadAndTail(nals);
    }
  }

  // ----- the framed stream splits into its units

  lemma {:induction false} SkipLead(long: bool, rest: Bytes)
    ensures Skip(Lead(long) + rest) == |Lead(long)|
  {
    var d := Lead(long) + rest;
    assert d[1..][0] == 0 && d[1..][1..] == d[2..];
    if long {
      assert d[2..][0] == 0 && d[2..][1..] == d[3..] && d[3..][0] == 1;
    } else {
      assert d[2..][0] == 1 && Skip(d[2..]) == 1;
    }
    assert Skip(d[1..]) == 1 + Skip(d[2..]);
  }

  lemma {:induction false} UnitsOne(long: bool, n: Bytes, tail: Bytes)
    requires n + tail != [] && Start(n + tail) == |n|
    ensures Units(Lead(long) + (n + tail)) == [n] + Units(tail)
  {
    var d := Lead(long) + (n + tail);
    SkipLead(long, n + tail);
    assert d[|Lead(long)|..] == n + tail;
    assert (n + tail)[..|n|] == n && (n + tail)[|n|..] == tail;
  }

  /** Between a clean unit and the next start code, or the end, there is no earlier start code. */
  lemma {:induction false} CodeAfterUnit(n: Bytes, long: bool, rest: Bytes)
    requires Clean(n) && rest != []
    ensures Code(n + Lead(long) + rest) == |n| + (if long then 1 else 0)
  {
    var d := n + Lead(long) + rest;
    var q := |n| + (if long then 1 else 0);
    assert forall i :: 0 <= i < |n| ==> d[i] == n[i];
    assert forall i :: 0 <= i < |Lead(long)| ==> d[|n| + i] == Lead(long)[i];
    forall i: nat | i < q
      ensures !CodeAt(d, i)
    {
      if i + 2 < |n| {
        assert !CodeAt(n, i);
      }
    }
    CodeIs(d, q);
  }

  lemma StartAfterUnit(n: Bytes, long: bool, rest: Bytes)
    requires Clean(n) && rest != []
    ensures Start(n + Lead(long) + rest) == |n|
  {
    CodeAfterUnit(n, long, rest);
    var d := n + Lead(long) + rest;
    assert forall i :: 0 <= i < |n| ==> d[i] == n[i];
    assert d[|n|] == 0;
  }

  lemma StartAtEnd(n: Bytes)
    requires Clean(n)
    ensures Start(n) == |n|
  {
    CodeIs(n, |n|);
  }

  lemma FrameNonEmpty(nals: seq<Bytes>, long: seq<bool>)
    requires |long| == |nals| && Framable(nals) && nals != []
    ensures nals[0] + Frame(nals[1..], long[1..]) != []
  {
  }

  lemma {:induction false} UnitsHead(nals: seq<Bytes>, long: seq<bool>)
    requires |long| == |nals| && Framable(nals) && nals != []
    ensures Units(Frame(nals, long)) == [nals[0]] + Units(Frame(nals[1..], long[1..]))
  {
    FrameHead(nals, long);
    FramableTail(nals);
    StartBeforeFrame(nals[0], nals[1..], long[1..]);
    UnitsOne(long[0], nals[0], Frame(nals[1..], long[1..]));
  }

  /** A framed list of clean units splits into exactly those units. */
  lemma {:induction false} UnitsOfFrame(nals: seq<Bytes>, long: seq<bool>)
    requires |long| == |nals| && Framable(nals)
    ensures Units(Frame(nals, long)) == nals
  {
    if nals != [] {
      FramableTail(nals);
      UnitsOfFrame(nals[1..], long[1..]);
      UnitsHead(nals, long);
      HeadAndTail(nals);
    }
  }

  lemma FramableTail(nals: seq<Bytes>)
    requires Framable(nals) && nals != []
    ensures Framable(nals[1..]) && Clean(nals[0])
    ensures nals[1..] == [] ==> nals[0] != []
  {
  }

  lemma {:induction false} FrameHead(nals: seq<Bytes>, long: seq<bool>)
    requires |long| == |nals| && nals != []
    ensures Frame(nals, long) == Lead(long[0]) + (nals[0] + Frame(nals[1..], long[1..]))
  {
  }

  /** A clean unit in front of a framed list ends where the list starts. */
  lemma {:induction false} StartBeforeFrame(n: Bytes, nals: seq<Bytes>, long: seq<bool>)
    requires |long| == |nals| && Framable(nals) && Clean(n)
    ensures Start(n + Frame(nals, long)) == |n|
  {
    if nals == [] {
      StartAtEnd(n);
      assert n + Frame(nals, long) == n;
    } else {
      var rest := nals[0] + Frame(nals[1..], long[1..]);
      FrameNonEmpty(nals, long);
      FrameHead(nals, long);
      StartAfterUnit(n, long[0], rest);
      Regroup(n, Lead(long[0]), rest);
    }
  }

  lemma {:induction false} NalsOfFrame(nals: seq<Bytes>, long: seq<bool>)
    requires |long| == |nals| && Framable(nals)
    ensures Nals(Frame(nals, long)) == nals
  {
    var d := Frame(nals, long);
    StartBeforeFrame([], nals, long);
    assert [] + d == d && d[0..] == d;
    UnitsOfFrame(nals, long);
  }

  /** For any list of clean NAL units, the last one non-empty, framed with any mix of three- and
      four-byte start codes, the rewriting emits exactly the length-prefixed list, and reading the
      lengths back recovers the units. */
  lemma {:induction false} StreamRoundTrip(nals: seq<Bytes>, long: seq<bool>)
    requires |long| == |nals| && Framable(nals)
    requires forall i :: 0 <= i < |nals| ==> |nals[i]| < TWO32
    ensures Nals(Frame(nals, long)) == nals
    ensures ReadBack(Emit(Nals(Frame(nals, long)))) == Some(nals)
  {
    NalsOfFrame(nals, long);
    ReadBackEmit(nals);
  }
}
