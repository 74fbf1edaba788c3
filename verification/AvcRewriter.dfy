/** The packet rewriter and the header builder: loops over a byte buffer that append to a serializer,
    proved against the splitting functions of `AvcStream`. */
module AvcRewriter {
  import opened Wrappers
  import opened Sequences
  import opened Octets
  import opened AvcStartCode
  import opened AvcStream

  const PRIORITY_DISPOSABLE: byte := 0
  const PRIORITY_LOW: byte := 1
  const PRIORITY_HIGHEST: byte := 3

  /** The byte array behind an array-output serializer. */
  class Serializer {
    var bytes: Bytes

    constructor ()
      ensures bytes == []
    {
      bytes := [];
    }

    method Write(data: Bytes)
      modifies this
      ensures bytes == old(bytes) + data
    {
      bytes := bytes + data;
    }

    method Wb32(x: nat)
      modifies this
      ensures bytes == old(bytes) + BigEndian(x, 4)
    {
      Write(BigEndian(x, 4));
    }
  }

  // ----- what the flags report

  function Slices(nals: seq<Bytes>): seq<Bytes> {
    if nals == [] then []
    else
      var n := nals[|nals| - 1];
      Slices(nals[..|nals| - 1]) + (if IsSlice(n) then [n] else [])
  }

  /** The keyframe flag and priority after the rewriting loop: those of the last slice, if any. */
  function FlagAfter(nals: seq<Bytes>, init: bool): bool {
    var s := Slices(nals);
    if s == [] then init else NalType(s[|s| - 1]) == NAL_SLICE_IDR
  }

  function PriorityAfter(nals: seq<Bytes>, init: byte): byte {
    var s := Slices(nals);
    if s == [] || s[|s| - 1] == [] then init else s[|s| - 1][0] / 32
  }

  /** obs_avc_keyframe looks at the first slice. */
  function FirstIsIdr(nals: seq<Bytes>): bool {
    var s := Slices(nals);
    s != [] && NalType(s[0]) == NAL_SLICE_IDR
  }

  lemma {:induction false} SlicesConcat(a: seq<Bytes>, b: seq<Bytes>)
    ensures Slices(a + b) == Slices(a) + Slices(b)
  {
    if b == [] {
      assert a + b == a;
    } else {
      SlicesConcat(a, b[..|b| - 1]);
      assert (a + b)[..|a + b| - 1] == a + b[..|b| - 1];
    }
  }

  lemma {:induction false} SlicesAre(nals: seq<Bytes>)
    ensures forall s :: s in Slices(nals) ==> IsSlice(s)
  {
    if nals != [] {
      SlicesAre(nals[..|nals| - 1]);
    }
  }

  /** The two keyframe tests agree exactly when the first and the last slice have the same type, or,
      without any slice, when the packet did not come in flagged. */
  lemma {:induction false} KeyframeTestsAgree(nals: seq<Bytes>, init: bool)
    ensures FirstIsIdr(nals) == FlagAfter(nals, init) <==>
      var s := Slices(nals);
      if s == [] then !init else NalType(s[0]) == NalType(s[|s| - 1])
  {
    SlicesAre(nals);
    var s := Slices(nals);
    if s != [] {
      assert s[0] in s && s[|s| - 1] in s;
    }
  }

  // ----- the loops

  method FindStartcode(d: Bytes, base: nat, p: nat) returns (out: nat)
    requires p <= |d|
    ensures out == p + Start(d[p..])
  {
    out := FindStartcodeInternal(d, base, p);
    StartAt(d, p, out);
    if p < out && out < |d| && d[out - 1] == 0 {
      out := out - 1;
    }
  }

  lemma StartAt(d: Bytes, p: nat, r: nat)
    requires p <= r <= |d|
    requires r < |d| ==> r + 3 < |d| && CodeAt(d, r)
    requires forall i: nat :: p <= i < r && i + 3 < |d| ==> !CodeAt(d, i)
    ensures Code(d[p..]) == r - p
  {
    var e := d[p..];
    forall i: nat | i < r - p && i + 3 < |e|
      ensures !CodeAt(e, i)
    {
      assert !CodeAt(d, p + i);
    }
    CodeIs(e, r - p);
  }

  /** The inner loop that steps over zeros and the byte behind them. */
  method SkipZeros(d: Bytes, p: nat) returns (q: nat)
    requires p <= |d|
    ensures q == p + Skip(d[p..])
  {
    q := p;
    while q < |d|
      invariant p <= q <= |d|
      invariant p + Skip(d[p..]) == q + Skip(d[q..])
    {
      assert d[q..][1..] == d[q + 1..];
      q := q + 1;
      if d[q - 1] != 0 {
        return;
      }
    }
  }

  lemma {:induction false} UnitsStep(d: Bytes, rest: Bytes, unit: Bytes, after: Bytes)
    requires Skip(d) < |d| && rest == d[Skip(d)..]
    requires unit == rest[..Start(rest)] && after == rest[Start(rest)..]
    ensures Units(d) == [unit] + Units(after)
  {
  }

  lemma {:induction false} EmitSnoc(nals: seq<Bytes>, n: Bytes)
    ensures Emit(nals + [n]) == Emit(nals) + Prefixed(n)
  {
    if nals == [] {
      assert [n][1..] == [] && [] + [n] == [n];
      assert Emit([n]) == Prefixed(n) + Emit([]);
      assert Prefixed(n) + [] == Prefixed(n);
    } else {
      EmitSnoc(nals[1..], n);
      assert (nals + [n])[1..] == nals[1..] + [n];
      Regroup(Prefixed(nals[0]), Emit(nals[1..]), Prefixed(n));
    }
  }

  lemma {:induction false} SlicesSnoc(nals: seq<Bytes>, n: Bytes)
    ensures Slices(nals + [n]) == Slices(nals) + (if IsSlice(n) then [n] else [])
  {
    assert (nals + [n])[..|nals|] == nals;
  }

  /** The loops read the type from the byte at the unit's start, even when the unit is empty and
      that byte is the first zero of the next start code. */
  lemma UnitType(d: Bytes, p: nat, e: nat)
    requires p < |d| && e == p + Start(d[p..])
    ensures NalType(d[p..e]) == d[p] % 32
    ensures IsSlice(d[p..e]) ==> p < e
  {
    if e == p {
      assert CodeAt(d[p..], 0) || (Code(d[p..]) == 1 && d[p..][0] == 0);
    }
  }

  lemma UnitTaken(data: Bytes, p: nat, nalStart: nat, nalEnd: nat)
    requires p <= nalStart <= nalEnd <= |data|
    ensures data[nalStart..] == data[p..][nalStart - p..]
    ensures data[nalStart..nalEnd] == data[nalStart..][..nalEnd - nalStart]
    ensures data[nalEnd..] == data[nalStart..][nalEnd - nalStart..]
  {
    SliceOfTail(data, p, nalStart - p);
    SliceOfTail(data, nalStart, nalEnd - nalStart);
  }

  /** One turn of the scanning loops: the next unit, or none when the data is used up. */
  method NextUnit(data: Bytes, base: nat, p: nat) returns (more: bool, nalStart: nat, nalEnd: nat)
    requires p <= |data|
    ensures !more ==> Units(data[p..]) == []
    ensures more ==> p < nalStart <= nalEnd <= |data| && nalStart < |data|
    ensures more ==> Units(data[p..]) == [data[nalStart..nalEnd]] + Units(data[nalEnd..])
    ensures more ==> NalType(data[nalStart..nalEnd]) == data[nalStart] % 32
    ensures more && IsSlice(data[nalStart..nalEnd]) ==> nalStart < nalEnd
  {
    nalStart := SkipZeros(data, p);
    nalEnd := nalStart;
    more := nalStart < |data|;
    if more {
      nalEnd := FindStartcode(data, base, nalStart);
      UnitTaken(data, p, nalStart, nalEnd);
      UnitsStep(data[p..], data[nalStart..], data[nalStart..nalEnd], data[nalEnd..]);
      UnitType(data, nalStart, nalEnd);
    }
  }

  lemma {:induction false} UnitWritten(done: seq<Bytes>, n: Bytes, out: Bytes)
    ensures out + Emit(done) + BigEndian(|n|, 4) + n == out + Emit(done + [n])
  {
    EmitSnoc(done, n);
    Regroup(out + Emit(done), BigEndian(|n|, 4), n);
    Regroup(out, Emit(done), Prefixed(n));
  }

  lemma NalsBegin(data: Bytes, p: nat)
    requires p == 0 + Start(data[0..])
    ensures p <= |data| && Nals(data) == Units(data[p..])
  {
    SliceOfTail(data, 0, 0);
  }

  lemma UnitMoves(all: seq<Bytes>, done: seq<Bytes>, unit: Bytes, before: seq<Bytes>, after: seq<Bytes>)
    requires all == done + before && before == [unit] + after
    ensures all == (done + [unit]) + after
  {
    Regroup(done, [unit], after);
  }

  /** The body of the rewriting loop for one unit. */
  method WriteUnit(s: Serializer, data: Bytes, nalStart: nat, nalEnd: nat, keyframe: bool, priority: byte)
    returns (isKeyframe: bool, newPriority: byte)
    requires nalStart <= nalEnd <= |data| && nalStart < |data|
    requires NalType(data[nalStart..nalEnd]) == data[nalStart] % 32
    requires IsSlice(data[nalStart..nalEnd]) ==> nalStart < nalEnd
    modifies s
    ensures var unit := data[nalStart..nalEnd];
      && s.bytes == old(s.bytes) + BigEndian(|unit|, 4) + unit
      && isKeyframe == (if IsSlice(unit) then NalType(unit) == NAL_SLICE_IDR else keyframe)
      && newPriority == (if IsSlice(unit) then unit[0] / 32 else priority)
  {
    isKeyframe, newPriority := keyframe, priority;
    var type_ := data[nalStart] % 32;
    if type_ == NAL_SLICE_IDR || type_ == NAL_SLICE {
      isKeyframe := type_ == NAL_SLICE_IDR;
      newPriority := data[nalStart] / 32;
    }
    s.Wb32(nalEnd - nalStart);
    s.Write(data[nalStart..nalEnd]);
  }

  lemma FlagsSnoc(nals: seq<Bytes>, n: Bytes, keyframe: bool, priority: byte)
    ensures FlagAfter(nals + [n], keyframe) ==
      if IsSlice(n) then NalType(n) == NAL_SLICE_IDR else FlagAfter(nals, keyframe)
    ensures PriorityAfter(nals + [n], priority) ==
      if !IsSlice(n) then PriorityAfter(nals, priority) else if n == [] then priority else n[0] / 32
  {
    SlicesSnoc(nals, n);
  }

  /** serialize_avc_data */
  method SerializeAvcData(s: Serializer, data: Bytes, base: nat, keyframe: bool, priority: byte)
    returns (isKeyframe: bool, newPriority: byte)
    modifies s
    ensures s.bytes == old(s.bytes) + Emit(Nals(data))
    ensures isKeyframe == FlagAfter(Nals(data), keyframe)
    ensures newPriority == PriorityAfter(Nals(data), priority)
  {
    isKeyframe, newPriority := keyframe, priority;
    var p := FindStartcode(data, base, 0);
    NalsBegin(data, p);
    ghost var all, done: seq<Bytes> := Nals(data), [];
    Regroup(all, [], []);
    while true
      invariant p <= |data|
      invariant all == done + Units(data[p..])
      invariant s.bytes == old(s.bytes) + Emit(done)
      invariant isKeyframe == FlagAfter(done, keyframe) && newPriority == PriorityAfter(done, priority)
      decreases |data| - p
    {
      var more, nalStart, nalEnd := NextUnit(data, base, p);
      if !more {
        break;
      }
      ghost var unit := data[nalStart..nalEnd];
      isKeyframe, newPriority := WriteUnit(s, data, nalStart, nalEnd, isKeyframe, newPriority);
      UnitMoves(all, done, unit, Units(data[p..]), Units(data[nalEnd..]));
      UnitWritten(done, unit, old(s.bytes));
      FlagsSnoc(done, unit, keyframe, priority);
      done := done + [unit];
      p := nalEnd;
    }
    Regroup(done, [], []);
  }

  lemma {:induction false} FirstSlice(done: seq<Bytes>, unit: Bytes, rest: seq<Bytes>)
    requires Slices(done) == [] && IsSlice(unit)
    ensures FirstIsIdr(done + [unit] + rest) == (NalType(unit) == NAL_SLICE_IDR)
  {
    SlicesSnoc(done, unit);
    SlicesConcat(done + [unit], rest);
  }

  /** obs_avc_keyframe */
  method AvcKeyframe(data: Bytes, base: nat) returns (keyframe: bool)
    ensures keyframe == FirstIsIdr(Nals(data))
  {
    var p := FindStartcode(data, base, 0);
    NalsBegin(data, p);
    ghost var all, done: seq<Bytes> := Nals(data), [];
    Regroup(all, [], []);
    while true
      invariant p <= |data|
      invariant all == done + Units(data[p..]) && Slices(done) == []
      decreases |data| - p
    {
      var more, nalStart, nalEnd := NextUnit(data, base, p);
      if !more {
        break;
      }
      ghost var unit := data[nalStart..nalEnd];
      UnitMoves(all, done, unit, Units(data[p..]), Units(data[nalEnd..]));
      SlicesSnoc(done, unit);
      var type_ := data[nalStart] % 32;
      if type_ == NAL_SLICE_IDR || type_ == NAL_SLICE {
        FirstSlice(done, unit, Units(data[nalEnd..]));
        return type_ == NAL_SLICE_IDR;
      }
      done := done + [unit];
      p := nalEnd;
    }
    Regroup(done, [], []);
    return false;
  }

  function DropPriority(priority: byte): byte {
    if priority == PRIORITY_DISPOSABLE then PRIORITY_DISPOSABLE
    else if priority == PRIORITY_LOW then PRIORITY_LOW
    else PRIORITY_HIGHEST
  }

  /** obs_parse_avc_packet: for a framed list of clean units the new packet data is their
      length-prefixed form, from which the units can be read back. */
  method ParseAvcPacket(data: Bytes, base: nat, keyframe: bool, priority: byte)
    returns (newData: Bytes, isKeyframe: bool, newPriority: byte, dropPriority: byte)
    ensures newData == Emit(Nals(data))
    ensures isKeyframe == FlagAfter(Nals(data), keyframe)
    ensures newPriority == PriorityAfter(Nals(data), priority) && dropPriority == DropPriority(newPriority)
    ensures forall nals, long :: |long| == |nals| && Framable(nals) && data == Frame(nals, long) ==>
      newData == Emit(nals)
  {
    var s := new Serializer();
    isKeyframe, newPriority := SerializeAvcData(s, data, base, keyframe, priority);
    newData, dropPriority := s.bytes, DropPriority(newPriority);
    assert [] + Emit(Nals(data)) == Emit(Nals(data));
    forall nals, long | |long| == |nals| && Framable(nals) && data == Frame(nals, long)
      ensures newData == Emit(nals)
    {
      NalsOfFrame(nals, long);
    }
  }

  // ----- the decoder configuration record

  /** The last unit of a type, if any. */
  function LastOf(nals: seq<Bytes>, t: byte): Option<Bytes> {
    if nals == [] then None
    else
      var n := nals[|nals| - 1];
      if NalType(n) == t then Some(n) else LastOf(nals[..|nals| - 1], t)
  }

  lemma {:induction false} LastOfSnoc(nals: seq<Bytes>, n: Bytes, t: byte)
    ensures LastOf(nals + [n], t) == if NalType(n) == t then Some(n) else LastOf(nals, t)
  {
    assert (nals + [n])[..|nals|] == nals;
  }

  /** get_sps_pps */
  method GetSpsPps(data: Bytes, base: nat) returns (sps: Option<Bytes>, pps: Option<Bytes>)
    ensures sps == LastOf(Nals(data), NAL_SPS) && pps == LastOf(Nals(data), NAL_PPS)
  {
    sps, pps := None, None;
    var p := FindStartcode(data, base, 0);
    NalsBegin(data, p);
    ghost var all, done: seq<Bytes> := Nals(data), [];
    Regroup(all, [], []);
    while true
      invariant p <= |data|
      invariant all == done + Units(data[p..])
      invariant sps == LastOf(done, NAL_SPS) && pps == LastOf(done, NAL_PPS)
      decreases |data| - p
    {
      var more, nalStart, nalEnd := NextUnit(data, base, p);
      if !more {
        break;
      }
      var type_ := data[nalStart] % 32;
      var unit := data[nalStart..nalEnd];
      if type_ == NAL_SPS {
        sps := Some(unit);
      } else if type_ == NAL_PPS {
        pps := Some(unit);
      }
      UnitMoves(all, done, unit, Units(data[p..]), Units(data[nalEnd..]));
      LastOfSnoc(done, unit, NAL_SPS);
      LastOfSnoc(done, unit, NAL_PPS);
      done := done + [unit];
      p := nalEnd;
    }
    Regroup(done, [], []);
  }

  predicate HasStartCode(d: Bytes)
    requires |d| > 6
  {
    d[0] == 0 && d[1] == 0 && (d[2] == 1 || (d[2] == 0 && d[3] == 1))
  }

  function Record(sps: Bytes, pps: Bytes): Bytes
    requires |sps| >= 4
  {
    [1] + sps[1..4] + [0xff, 0xe1] + BigEndian(|sps|, 2) + sps + [1] + BigEndian(|pps|, 2) + pps
  }

  /** What obs_parse_avc_header returns: nothing, the data itself, or a configuration record. */
  function Header(d: Bytes): Bytes {
    if |d| <= 6 then []
    else if !HasStartCode(d) then d
    else
      match (LastOf(Nals(d), NAL_SPS), LastOf(Nals(d), NAL_PPS))
      case (Some(sps), Some(pps)) => if |sps| < 4 then [] else Record(sps, pps)
      case _ => []
  }

  method ParseAvcHeader(data: Bytes, base: nat) returns (header: Bytes)
    ensures header == Header(data)
  {
    if |data| <= 6 {
      return [];
    }
    if !HasStartCode(data) {
      return data;
    }
    var sps, pps := GetSpsPps(data, base);
    if sps.None? || pps.None? || |sps.value| < 4 {
      return [];
    }
    return Record(sps.value, pps.value);
  }

  /** A reader of the record: the two parameter sets by their 16-bit lengths. */
  function ReadRecord(r: Bytes): Option<(Bytes, Bytes)> {
    if |r| < 8 then None
    else
      var n := FromBigEndian(r[6..8]);
      if |r| < 8 + n + 3 then None
      else
        var m := FromBigEndian(r[8 + n + 1..8 + n + 3]);
        if |r| != 8 + n + 3 + m then None
        else Some((r[8..8 + n], r[8 + n + 3..]))
  }

  /** The version, the profile and level of the parameter set, and the two fixed bytes. */
  lemma RecordBegins(sps: Bytes, pps: Bytes)
    requires |sps| >= 4
    ensures |Record(sps, pps)| >= 6
    ensures Record(sps, pps)[..6] == [1, sps[1], sps[2], sps[3], 0xff, 0xe1]
  {
    var r := Record(sps, pps);
    assert r[0] == 1 && r[4] == 0xff && r[5] == 0xe1;
    assert r[1] == sps[1..4][0] && r[2] == sps[1..4][1] && r[3] == sps[1..4][2];
  }

  lemma RecordRoundTrip(sps: Bytes, pps: Bytes)
    requires 4 <= |sps| < 0x1_0000 && |pps| < 0x1_0000
    ensures ReadRecord(Record(sps, pps)) == Some((sps, pps))
  {
    var head := [1] + sps[1..4] + [0xff, 0xe1] + BigEndian(|sps|, 2);
    var mid := [1] + BigEndian(|pps|, 2);
    var r := Record(sps, pps);
    assert Pow256(2) == 0x1_0000 by {
      assert Pow256(1) == 0x100;
    }
    BigEndianRoundTrip(|sps|, 2);
    BigEndianRoundTrip(|pps|, 2);
    assert r == head + sps + (mid + pps);
    ThreeParts(head, sps, mid + pps);
    assert r[6..8] == head[6..8] == BigEndian(|sps|, 2);
    assert r[8 + |sps|..] == mid + pps;
    assert r[8 + |sps| + 1..8 + |sps| + 3] == mid[1..3] == BigEndian(|pps|, 2);
    assert r[8 + |sps| + 3..] == pps;
  }

  // ----- what the flags and the header say about the units

  /** The search ends at the end of the data when no start code has a byte behind it; otherwise at the first
      one, or one byte earlier when that byte is a zero. */
  lemma StartIs(d: Bytes, i: nat)
    requires i <= |d| && (i < |d| ==> i + 3 < |d| && CodeAt(d, i))
    requires forall j: nat :: j < i && j + 3 < |d| ==> !CodeAt(d, j)
    ensures Start(d) == if i < |d| && i > 0 && d[i - 1] == 0 then i - 1 else i
  {
    CodeIs(d, i);
  }

  lemma {:induction false} LastOfIs(nals: seq<Bytes>, t: byte, k: nat)
    requires k < |nals| && NalType(nals[k]) == t
    requires forall j :: k < j < |nals| ==> NalType(nals[j]) != t
    ensures LastOf(nals, t) == Some(nals[k])
  {
    if k < |nals| - 1 {
      LastOfIs(nals[..|nals| - 1], t, k);
    }
  }

  lemma {:induction false} LastOfNone(nals: seq<Bytes>, t: byte)
    requires forall j :: 0 <= j < |nals| ==> NalType(nals[j]) != t
    ensures LastOf(nals, t) == None
  {
    if nals != [] {
      LastOfNone(nals[..|nals| - 1], t);
    }
  }

  /** The last slice decides: a type of five is an IDR slice, and the priority is in the upper three bits. */
  lemma {:induction false} LastSliceDecides(nals: seq<Bytes>, k: nat, keyframe: bool, priority: byte)
    requires k < |nals| && nals[k] != [] && (nals[k][0] % 32 == 1 || nals[k][0] % 32 == 5)
    requires forall j :: k < j < |nals| ==> nals[j] == [] || (nals[j][0] % 32 != 1 && nals[j][0] % 32 != 5)
    ensures FlagAfter(nals, keyframe) == (nals[k][0] % 32 == 5)
    ensures PriorityAfter(nals, priority) == nals[k][0] / 32
  {
    var n := |nals| - 1;
    SplitLast(nals);
    FlagsSnoc(nals[..n], nals[n], keyframe, priority);
    if k < n {
      LastSliceDecides(nals[..n], k, keyframe, priority);
    }
  }

  /** The drop priority is the least of the three that is not below the packet's own, if there is one. */
  lemma DropPriorityRounds(priority: byte)
    ensures DropPriority(priority) in {PRIORITY_DISPOSABLE, PRIORITY_LOW, PRIORITY_HIGHEST}
    ensures priority <= PRIORITY_HIGHEST ==> priority <= DropPriority(priority)
    ensures priority <= PRIORITY_LOW ==> DropPriority(priority) <= PRIORITY_LOW
    ensures priority == PRIORITY_DISPOSABLE ==> DropPriority(priority) == PRIORITY_DISPOSABLE
  {
  }

  lemma {:induction false} FrameBegins(nals: seq<Bytes>, long: seq<bool>)
    requires |long| == |nals| && nals != [] && |Frame(nals, long)| > 6
    ensures HasStartCode(Frame(nals, long))
  {
    var rest := nals[0] + Frame(nals[1..], long[1..]);
    Regroup(Lead(long[0]), nals[0], Frame(nals[1..], long[1..]));
    assert Frame(nals, long) == Lead(long[0]) + rest;
  }

  /** From a framed list of clean units the header is the record of the last parameter sets, from which they
      can be read back, and nothing when one of them is missing. */
  lemma {:induction false} HeaderOfFrame(nals: seq<Bytes>, long: seq<bool>)
    requires |long| == |nals| && nals != [] && Framable(nals) && |Frame(nals, long)| > 6
    ensures var header := Header(Frame(nals, long));
            match (LastOf(nals, NAL_SPS), LastOf(nals, NAL_PPS))
            case (Some(sps), Some(pps)) =>
              && (|sps| < 4 ==> header == [])
              && (4 <= |sps| < 0x1_0000 && |pps| < 0x1_0000 ==> ReadRecord(header) == Some((sps, pps)))
            case _ => header == []
  {
    FrameBegins(nals, long);
    NalsOfFrame(nals, long);
    match (LastOf(nals, NAL_SPS), LastOf(nals, NAL_PPS)) {
      case (Some(sps), Some(pps)) =>
        if 4 <= |sps| < 0x1_0000 && |pps| < 0x1_0000 {
          RecordRoundTrip(sps, pps);
        }
      case _ =>
    }
  }

  lemma StartCodeInFront(d: Bytes)
    requires |d| > 6
    ensures HasStartCode(d) <==> d[..3] == [0, 0, 1] || d[..4] == [0, 0, 0, 1]
  {
  }

  /** Data that does not begin with a start code is its own header. */
  lemma HeaderCopies(d: Bytes)
    requires |d| > 6 && d[..3] != [0, 0, 1] && d[..4] != [0, 0, 0, 1]
    ensures Header(d) == d
  {
    StartCodeInFront(d);
  }
}
