/** What every run of the interleaver keeps, for any number of audio tracks: each stream is
    partitioned, in order, into freed, popped and buffered packets, and is rebased exactly once. */
module InterleaverRuns {
  import opened Sequences
  import opened CDivision
  import opened Interleaver
  import opened InterleaverBuffer

  // ----- the input of a run

  /** Two packets of one encoder: same time base, dts not decreasing, and a dtsUsec that is the
      rounded dts plus a constant (the encoder's start time). */
  ghost predicate Follows(p: Packet, q: Packet) {
    p.stream == q.stream ==>
      p.den == q.den && p.dts <= q.dts && p.dtsUsec - p.Usec() == q.dtsUsec - q.Usec()
  }

  predicate Known(tracks: nat, st: Stream) {
    st.Video? || st.track < tracks
  }

  ghost predicate WellTimed(tracks: nat, ins: seq<Packet>) {
    && (forall i :: 0 <= i < |ins| ==> ins[i].dtsUsec >= 0 && Known(tracks, ins[i].stream))
    && (forall i, j :: 0 <= i < j < |ins| ==> Follows(ins[i], ins[j]))
  }

  ghost predicate Ordered(b: seq<Packet>) {
    forall i, j :: 0 <= i < j < |b| ==> Follows(b[i], b[j])
  }

  lemma {:induction false} OfOrdered(ins: seq<Packet>, st: Stream)
    requires Ordered(ins)
    ensures Ordered(Of(ins, st))
    ensures forall x :: x in Of(ins, st) ==> x.stream == st
  {
    OfMembers(ins, st);
    if ins != [] {
      var n := |ins| - 1;
      OfOrdered(ins[..n], st);
      OfMembers(ins[..n], st);
      var b := Of(ins[..n], st);
      forall i | 0 <= i < |b|
        ensures Follows(b[i], ins[n])
      {
        assert b[i] in ins[..n];
      }
    }
  }

  lemma UsecOrder(a: int, b: int, den: pos)
    requires a <= b
    ensures Quot(a * MICROSECOND_DEN, den) <= Quot(b * MICROSECOND_DEN, den)
  {
    QuotMonotone(a * MICROSECOND_DEN, b * MICROSECOND_DEN, den);
  }

  lemma FollowsOrder(p: Packet, q: Packet, offset: int)
    requires p.stream == q.stream && Follows(p, q)
    ensures p.dtsUsec <= q.dtsUsec
    ensures p.Rebased(offset).dtsUsec <= q.Rebased(offset).dtsUsec
  {
    UsecOrder(p.dts, q.dts, p.den);
    UsecOrder(p.dts - offset, q.dts - offset, p.den);
  }

  // ----- the invariant

  /** The packets of a stream still in the output, whether popped or buffered. */
  function Out(s: State, st: Stream): seq<Packet> {
    Of(s.popped, st) + Of(s.buffer, st)
  }

  function Shifted(b: seq<Packet>, offset: int): (r: seq<Packet>)
    ensures |r| == |b|
    ensures forall i :: 0 <= i < |b| ==> r[i] == b[i].Rebased(offset)
  {
    seq(|b|, i requires 0 <= i < |b| => b[i].Rebased(offset))
  }

  /** What remains of a stream's input once its first k packets are freed. */
  function Kept(all: seq<Packet>, k: nat, offset: int, rebased: bool): seq<Packet>
    requires k <= |all|
  {
    if rebased then Shifted(all[k..], offset) else all[k..]
  }

  /** The stream's input is a freed prefix followed by what is popped or buffered, in order;
      once started the latter is rebased by the stream's offset. */
  ghost predicate StreamLineage(ins: seq<Packet>, s: State, st: Stream, rebased: bool) {
    var all, k := Of(ins, st), |Of(s.freed, st)|;
    && k <= |all|
    && Of(s.freed, st) == all[..k]
    && Out(s, st) == Kept(all, k, s.Offset(st), rebased)
  }

  ghost predicate Lineage(ins: seq<Packet>, s: State, rebased: bool) {
    forall st :: StreamLineage(ins, s, st, rebased)
  }

  ghost predicate Waiting(s: State) {
    && s.popped == [] && s.delivered == [] && s.rebases == 0
    && (s.receivedVideo <==> FirstIdx(s.buffer, Video) >= 0)
  }

  ghost predicate Running(tracks: nat, s: State) {
    && s.rebases == 1
    && (forall st | Known(tracks, st) :: Out(s, st) != [] && Out(s, st)[0].dts == 0)
  }

  ghost predicate Logged(s: State) {
    && s.totalFrames == |Of(s.popped, Video)|
    && (forall d :: d in s.delivered ==> d in s.popped)
  }

  ghost predicate Inv(tracks: nat, ins: seq<Packet>, s: State) {
    && |s.audioOffsets| == MAX_AUDIO_MIXES
    && Sorted(s.buffer)
    && Lineage(ins, s, s.Started())
    && (if s.Started() then Running(tracks, s) else Waiting(s))
    && Logged(s)
  }

  // ----- one step at a time

  /** Freeing a prefix of the buffer while nothing has been popped. */
  lemma DiscardKeeps(ins: seq<Packet>, s: State, n: nat)
    requires n <= |s.buffer| && s.popped == [] && Lineage(ins, s, false) && Sorted(s.buffer)
    ensures Lineage(ins, DiscardTo(s, n), false) && Sorted(DiscardTo(s, n).buffer)
  {
    var s' := DiscardTo(s, n);
    forall st
      ensures StreamLineage(ins, s', st, false)
    {
      assert StreamLineage(ins, s, st, false);
      OfTail(s.buffer, n, st);
      OfConcat(s.freed, s.buffer[..n], st);
      var all, k, m := Of(ins, st), |Of(s.freed, st)|, |Of(s.buffer[..n], st)|;
      assert all[k..][..m] == Of(s.buffer[..n], st);
      assert all[..k + m] == all[..k] + all[k..][..m];
    }
  }

  lemma {:induction false} InputGrows(ins: seq<Packet>, p: Packet, st: Stream)
    ensures Of(ins + [p], st) == Of(ins, st) + (if p.stream == st then [p] else [])
  {
    assert (ins + [p])[..|ins|] == ins;
  }

  lemma RejectOwnStream(ins: seq<Packet>, s: State, s': State, p: Packet)
    requires StreamLineage(ins, s, p.stream, false) && Out(s, p.stream) == []
    requires s'.buffer == s.buffer && s'.popped == s.popped && s'.freed == s.freed + [p]
    ensures StreamLineage(ins + [p], s', p.stream, false)
  {
    var st := p.stream;
    InputGrows(ins, p, st);
    InputGrows(s.freed, p, st);
    AllFreed(Of(ins, st), Of(s.freed, st), p);
  }

  lemma RejectOtherStream(ins: seq<Packet>, s: State, s': State, p: Packet, st: Stream)
    requires StreamLineage(ins, s, st, false) && p.stream != st
    requires s'.buffer == s.buffer && s'.popped == s.popped && s'.freed == s.freed + [p]
    ensures StreamLineage(ins + [p], s', st, false)
  {
    InputGrows(ins, p, st);
    InputGrows(s.freed, p, st);
    Regroup(Of(ins, st), [], []);
    Regroup(Of(s.freed, st), [], []);
    assert Of(ins + [p], st) == Of(ins, st) && Of(s'.freed, st) == Of(s.freed, st);
  }

  lemma AllFreed(all: seq<Packet>, freed: seq<Packet>, p: Packet)
    requires |freed| <= |all| && freed == all[..|freed|] && all[|freed|..] == []
    ensures freed + [p] == (all + [p])[..|freed| + 1] && (all + [p])[|freed| + 1..] == []
  {
    assert |all| == |freed| by {
      assert |all[|freed|..]| == 0;
    }
  }

  lemma NoVideoBelow(s: State, n: nat)
    requires n <= |s.buffer| && FirstIdx(s.buffer, Video) < 0
    ensures Of(DiscardTo(s, n).buffer, Video) == [] && FirstIdx(DiscardTo(s, n).buffer, Video) < 0
    ensures forall x :: x in s.buffer ==> x.stream.Audio?
  {
    FirstIdxLeast(s.buffer, Video);
    OfNone(s.buffer[n..], Video);
    OfEmpty(s.buffer[n..], Video);
  }

  lemma RejectInv(tracks: nat, ins: seq<Packet>, s: State, p: Packet)
    requires Inv(tracks, ins, s) && Rejects(s, p)
    ensures Inv(tracks, ins + [p], Reject(s, p))
    ensures forall x :: x in s.buffer ==> x.stream.Audio?
  {
    var n := CountBelow(s.buffer, p.dtsUsec);
    var s1 := DiscardTo(s, n);
    DiscardKeeps(ins, s, n);
    NoVideoBelow(s, n);
    assert Out(s1, Video) == Of(s1.buffer, Video);
    forall st
      ensures StreamLineage(ins + [p], Reject(s, p), st, false)
    {
      assert StreamLineage(ins, s1, st, false);
      if p.stream == st {
        RejectOwnStream(ins, s1, Reject(s, p), p);
      } else {
        RejectOtherStream(ins, s1, Reject(s, p), p, st);
      }
    }
  }

  /** A packet that is not older than its stream's input may be inserted. */
  lemma OwnStreamOlder(ins: seq<Packet>, s: State, p: Packet, rebased: bool)
    requires Lineage(ins, s, rebased)
    requires Ordered(ins + [p])
    ensures forall x :: x in s.buffer && x.stream == p.stream ==>
      x.dtsUsec <= (if rebased then p.Rebased(s.Offset(p.stream)) else p).dtsUsec
  {
    var st := p.stream;
    assert StreamLineage(ins, s, st, rebased);
    var all, k := Of(ins, st), |Of(s.freed, st)|;
    OfOrdered(ins + [p], st);
    InputGrows(ins, p, st);
    forall x | x in s.buffer && x.stream == st
      ensures x.dtsUsec <= (if rebased then p.Rebased(s.Offset(st)) else p).dtsUsec
    {
      OfMember(s.buffer, st, x);
      assert x in Out(s, st);
      var i :| 0 <= i < |Out(s, st)| && Out(s, st)[i] == x;
      assert all[k + i] == all[k..][i];
      assert Of(ins + [p], st)[k + i] == all[k + i] && Of(ins + [p], st)[|all|] == p;
      FollowsOrder(all[k + i], p, s.Offset(st));
    }
  }

  /** The packet as it enters the buffer. */
  function Entering(s: State, p: Packet): Packet {
    if s.Started() then p.Rebased(s.Offset(p.stream)) else p
  }

  lemma KeptGrows(all: seq<Packet>, k: nat, offset: int, rebased: bool, p: Packet)
    requires k <= |all|
    ensures Kept(all + [p], k, offset, rebased) ==
      Kept(all, k, offset, rebased) + [if rebased then p.Rebased(offset) else p]
    ensures (all + [p])[..k] == all[..k]
  {
    assert (all + [p])[k..] == all[k..] + [p];
  }

  lemma AcceptStream(ins: seq<Packet>, s: State, s': State, p: Packet, st: Stream)
    requires StreamLineage(ins, s, st, s.Started()) && Sorted(s.buffer)
    requires s'.popped == s.popped && s'.freed == s.freed && s'.Offset(st) == s.Offset(st)
    requires s'.buffer == Insert(s.buffer, Entering(s, p))
    requires forall x :: x in s.buffer && x.stream == p.stream ==> x.dtsUsec <= Entering(s, p).dtsUsec
    ensures StreamLineage(ins + [p], s', st, s.Started())
    ensures Out(s', st) == Out(s, st) + (if p.stream == st then [Entering(s, p)] else [])
  {
    InsertOf(s.buffer, Entering(s, p), st);
    InputGrows(ins, p, st);
    KeptGrows(Of(ins, st), |Of(s.freed, st)|, s.Offset(st), s.Started(), p);
    Regroup(Of(s.popped, st), Of(s.buffer, st), [Entering(s, p)]);
    Regroup(Of(s.popped, st), Of(s.buffer, st), []);
    Regroup(Of(s.buffer, st), [], []);
    Regroup(Out(s, st), [], []);
    Regroup(Of(ins, st), [], []);
  }

  lemma AcceptKeeps(ins: seq<Packet>, s: State, p: Packet)
    requires Lineage(ins, s, s.Started()) && Sorted(s.buffer) && Ordered(ins + [p])
    ensures Lineage(ins + [p], Accept(s, p), s.Started())
    ensures Sorted(Accept(s, p).buffer)
    ensures forall st :: Out(Accept(s, p), st) == Out(s, st) + (if p.stream == st then [Entering(s, p)] else [])
  {
    OwnStreamOlder(ins, s, p, s.Started());
    InsertSorted(s.buffer, Entering(s, p));
    AcceptShape(s, p);
    AcceptLineage(ins, s, Accept(s, p), p);
  }

  lemma AcceptLineage(ins: seq<Packet>, s: State, s': State, p: Packet)
    requires Lineage(ins, s, s.Started()) && Sorted(s.buffer)
    requires s'.popped == s.popped && s'.freed == s.freed
    requires s'.videoOffset == s.videoOffset && s'.audioOffsets == s.audioOffsets
    requires s'.buffer == Insert(s.buffer, Entering(s, p))
    requires forall x :: x in s.buffer && x.stream == p.stream ==> x.dtsUsec <= Entering(s, p).dtsUsec
    ensures Lineage(ins + [p], s', s.Started())
    ensures forall st :: Out(s', st) == Out(s, st) + (if p.stream == st then [Entering(s, p)] else [])
  {
    forall st
      ensures StreamLineage(ins + [p], s', st, s.Started())
      ensures Out(s', st) == Out(s, st) + (if p.stream == st then [Entering(s, p)] else [])
    {
      assert StreamLineage(ins, s, st, s.Started());
      AcceptStream(ins, s, s', p, st);
    }
  }

  /** Sending moves the head of the buffer to the end of the popped list. */
  lemma SendStream(s: State, s': State, st: Stream)
    requires s.buffer != [] && s'.buffer == s.buffer[1..] && s'.popped == s.popped + [s.buffer[0]]
    ensures Out(s', st) == Out(s, st)
  {
    var p := s.buffer[0];
    InputGrows(s.popped, p, st);
    OfTail(s.buffer, 1, st);
    assert s.buffer[..1] == [p];
    OfOne(p, st);
    Regroup(Of(s.popped, st), Of([p], st), Of(s.buffer[1..], st));
  }

  lemma SendKeeps(ins: seq<Packet>, s: State, stopped: bool)
    requires s.buffer != [] && Lineage(ins, s, true) && Sorted(s.buffer) && Logged(s)
    ensures var s' := Send(s, stopped);
      && Lineage(ins, s', true) && Sorted(s'.buffer) && Logged(s')
      && (forall st :: Out(s', st) == Out(s, st))
  {
    var s' := Send(s, stopped);
    if s.Opposing(s.buffer[0].stream) > s.buffer[0].dtsUsec {
      forall st
        ensures Out(s', st) == Out(s, st) && StreamLineage(ins, s', st, true)
      {
        SendStream(s, s', st);
        assert StreamLineage(ins, s, st, true);
      }
      InputGrows(s.popped, s.buffer[0], Video);
    }
  }

  lemma {:induction false} RebaseOf(b: seq<Packet>, s: State, st: Stream)
    ensures Of(RebaseAll(b, s), st) == Shifted(Of(b, st), s.Offset(st))
  {
    if b != [] {
      var n := |b| - 1;
      RebaseOf(b[..n], s, st);
      assert RebaseAll(b, s)[..n] == RebaseAll(b[..n], s);
    }
  }

  lemma {:induction false} OrderedAt(ins: seq<Packet>, st: Stream, i: nat, j: nat)
    requires Ordered(ins) && i < j < |Of(ins, st)|
    ensures Follows(Of(ins, st)[i], Of(ins, st)[j])
    ensures Of(ins, st)[i].stream == Of(ins, st)[j].stream == st
  {
    OfOrdered(ins, st);
    assert Of(ins, st)[i] in Of(ins, st) && Of(ins, st)[j] in Of(ins, st);
  }

  /** Per stream, what is rebased is still in dts order, so resorting cannot reorder a stream. */
  lemma RebasedStreamSorted(ins: seq<Packet>, s: State, st: Stream)
    requires Ordered(ins) && StreamLineage(ins, s, st, true)
    ensures Sorted(Out(s, st))
  {
    var all, k, out := Of(ins, st), |Of(s.freed, st)|, Out(s, st);
    forall i, j | 0 <= i < j < |out|
      ensures out[i].dtsUsec <= out[j].dtsUsec
    {
      OrderedAt(ins, st, k + i, k + j);
      FollowsOrder(all[k + i], all[k + j], s.Offset(st));
    }
  }

  lemma RebasedOrdered(ins: seq<Packet>, s: State)
    requires Ordered(ins) && Lineage(ins, s, true) && s.popped == []
    ensures StreamOrdered(s.buffer)
  {
    forall st
      ensures Sorted(Of(s.buffer, st))
    {
      assert StreamLineage(ins, s, st, true);
      RebasedStreamSorted(ins, s, st);
      assert Out(s, st) == Of(s.buffer, st);
    }
  }

  /** The state a successful initialization leaves, before the highest timestamps are considered. */
  ghost predicate RebasedFrom(s: State, s': State) {
    && |s'.audioOffsets| == |s.audioOffsets|
    && s'.buffer == RebaseAll(s.buffer, s')
    && s'.rebases == s.rebases + 1
    && s'.Started() == s.Started()
    && s'.popped == s.popped && s'.freed == s.freed && s'.delivered == s.delivered
    && s'.totalFrames == s.totalFrames
  }

  /** Every track's offset is the dts of its first packet. */
  lemma InitializeOffsets(tracks: nat, s: State)
    requires 1 <= tracks <= |s.audioOffsets| && Initialize(tracks, s).1
    ensures forall st | Known(tracks, st) :: Initialize(tracks, s).0.Offset(st) == FirstDts(s.buffer, st)
  {
  }

  lemma RebaseAllSame(b: seq<Packet>, s: State, t: State)
    requires s.videoOffset == t.videoOffset && s.audioOffsets == t.audioOffsets
    ensures RebaseAll(b, s) == RebaseAll(b, t)
  {
  }

  lemma InitializeShape(tracks: nat, s: State)
    requires 1 <= tracks && Initialize(tracks, s).1
    ensures RebasedFrom(s, Initialize(tracks, s).0)
    ensures FirstIdx(s.buffer, Video) >= 0 && AllTracks(tracks, s.buffer)
    ensures tracks <= |s.audioOffsets| ==> forall st | Known(tracks, st) ::
      Initialize(tracks, s).0.Offset(st) == FirstDts(s.buffer, st)
  {
    var s' := Initialize(tracks, s).0;
    RebaseAllSame(s.buffer, s'.(buffer := s.buffer, rebases := s.rebases), s');
    if tracks <= |s.audioOffsets| {
      InitializeOffsets(tracks, s);
    }
  }

  lemma {:induction false} InitializeStream(ins: seq<Packet>, s: State, s': State, st: Stream)
    requires RebasedFrom(s, s') && s.popped == [] && StreamLineage(ins, s, st, false)
    ensures StreamLineage(ins, s', st, true)
    ensures Out(s', st) == Shifted(Of(s.buffer, st), s'.Offset(st))
  {
    RebaseOf(s.buffer, s', st);
    assert Out(s, st) == Of(s.buffer, st);
    assert Out(s', st) == Of(s'.buffer, st);
  }

  /** A successful initialization rebases every stream by its own first dts. */
  lemma InitializeKeeps(tracks: nat, ins: seq<Packet>, s: State)
    requires 1 <= tracks <= |s.audioOffsets|
    requires s.popped == [] && Lineage(ins, s, false)
    requires Initialize(tracks, s).1
    ensures var s' := Initialize(tracks, s).0;
      && RebasedFrom(s, s') && Lineage(ins, s', true)
      && (forall st | Known(tracks, st) :: Out(s', st) != [] && Out(s', st)[0].dts == 0)
  {
    var s' := Initialize(tracks, s).0;
    InitializeShape(tracks, s);
    forall st
      ensures StreamLineage(ins, s', st, true)
      ensures Known(tracks, st) ==> Out(s', st) != [] && Out(s', st)[0].dts == 0
    {
      assert StreamLineage(ins, s, st, false);
      InitializeStream(ins, s, s', st);
      if Known(tracks, st) {
        OfFirst(s.buffer, st);
      }
    }
  }

  /** The start-up attempt: it either leaves the output waiting with a flag cleared, or starts it. */
  lemma StartInv(tracks: nat, ins: seq<Packet>, s: State, stopped: bool)
    requires 1 <= tracks <= MAX_AUDIO_MIXES == |s.audioOffsets|
    requires Sorted(s.buffer) && Ordered(ins) && Lineage(ins, s, false)
    requires Waiting(s) && Logged(s) && s.Started()
    ensures Inv(tracks, ins, Start(tracks, s, stopped))
  {
    var (s1, pruned) := Prune(tracks, s);
    if pruned {
      DiscardKeeps(ins, s, PruneIdx(tracks, s.buffer));
      if Initialize(tracks, s1).1 {
        InitializeSucceeds(tracks, ins, s1, stopped);
      } else {
        InitializeFails(tracks, ins, s1);
      }
    } else {
      LineageIgnoresFlags(ins, s, s1);
    }
  }

  lemma InitializeFails(tracks: nat, ins: seq<Packet>, s: State)
    requires 1 <= tracks <= MAX_AUDIO_MIXES == |s.audioOffsets|
    requires Sorted(s.buffer) && Lineage(ins, s, false) && s.receivedVideo
    requires s.popped == [] && s.delivered == [] && s.rebases == 0 && Logged(s)
    requires !Initialize(tracks, s).1
    ensures Inv(tracks, ins, Initialize(tracks, s).0)
  {
    LineageIgnoresFlags(ins, s, Initialize(tracks, s).0);
  }

  lemma InitializeSucceeds(tracks: nat, ins: seq<Packet>, s: State, stopped: bool)
    requires 1 <= tracks <= MAX_AUDIO_MIXES == |s.audioOffsets|
    requires Ordered(ins) && Lineage(ins, s, false) && s.Started()
    requires s.popped == [] && s.delivered == [] && s.rebases == 0 && Logged(s)
    requires Initialize(tracks, s).1
    ensures var s' := Initialize(tracks, s).0;
      && Resort(s'.buffer) != []
      && Inv(tracks, ins, Send(s'.(buffer := Resort(s'.buffer)), stopped))
  {
    var s' := Initialize(tracks, s).0;
    InitializeKeeps(tracks, ins, s);
    RebasedOrdered(ins, s');
    ResortKeeps(s'.buffer);
    ResortState(tracks, ins, s');
    SendKeeps(ins, s'.(buffer := Resort(s'.buffer)), stopped);
  }

  lemma LineageIgnoresFlags(ins: seq<Packet>, s: State, s': State)
    requires Lineage(ins, s, false)
    requires s'.popped == s.popped && s'.freed == s.freed && s'.buffer == s.buffer
    ensures Lineage(ins, s', false)
  {
    forall st
      ensures StreamLineage(ins, s', st, false)
    {
      assert StreamLineage(ins, s, st, false);
    }
  }

  lemma ResortState(tracks: nat, ins: seq<Packet>, s: State)
    requires Lineage(ins, s, true) && s.buffer != []
    requires forall st | Known(tracks, st) :: Out(s, st) != [] && Out(s, st)[0].dts == 0
    requires StreamOrdered(s.buffer)
    ensures var s' := s.(buffer := Resort(s.buffer));
      && Lineage(ins, s', true) && s'.buffer != []
      && (forall st | Known(tracks, st) :: Out(s', st) != [] && Out(s', st)[0].dts == 0)
  {
    var s' := s.(buffer := Resort(s.buffer));
    ResortKeeps(s.buffer);
    assert |multiset(s'.buffer)| == |multiset(s.buffer)|;
    forall st
      ensures StreamLineage(ins, s', st, true) && Out(s', st) == Out(s, st)
    {
      assert StreamLineage(ins, s, st, true);
    }
  }

  lemma AcceptShape(s: State, p: Packet)
    ensures var s' := Accept(s, p);
      && s'.buffer == Insert(s.buffer, Entering(s, p))
      && s'.popped == s.popped && s'.delivered == s.delivered && s'.freed == s.freed
      && s'.rebases == s.rebases && s'.totalFrames == s.totalFrames
      && s'.audioOffsets == s.audioOffsets && s'.videoOffset == s.videoOffset
      && s'.receivedVideo == (s.receivedVideo || p.stream.Video?)
      && s'.receivedAudio == (s.receivedAudio || p.stream.Audio?)
      && s'.Highest(p.stream) ==
           (if s.Highest(p.stream) < Entering(s, p).dtsUsec then Entering(s, p).dtsUsec else s.Highest(p.stream))
      && s'.Opposing(p.stream) == s.Opposing(p.stream)
  {
  }

  lemma AcceptWaiting(s: State, p: Packet)
    requires Waiting(s) && !s.Started()
    ensures Waiting(Accept(s, p))
  {
    AcceptShape(s, p);
    InsertMembers(s.buffer, p);
    var b := Insert(s.buffer, p);
    FirstIdxLeast(s.buffer, Video);
    FirstIdxLeast(b, Video);
    if FirstIdx(s.buffer, Video) >= 0 {
      assert s.buffer[FirstIdx(s.buffer, Video)] in b;
    } else if p.stream == Video {
      assert p in b;
    } else {
      assert forall x :: x in b ==> x.stream != Video;
    }
  }

  lemma StepInv(tracks: nat, ins: seq<Packet>, s: State, p: Packet, stopped: bool)
    requires 1 <= tracks <= MAX_AUDIO_MIXES
    requires Ordered(ins + [p]) && Inv(tracks, ins, s)
    ensures Inv(tracks, ins + [p], Step(tracks, s, p, stopped))
  {
    if Rejects(s, p) {
      RejectInv(tracks, ins, s, p);
    } else {
      var s1 := Accept(s, p);
      AcceptShape(s, p);
      AcceptKeeps(ins, s, p);
      if s.Started() {
        SendKeeps(ins + [p], s1, stopped);
      } else {
        AcceptWaiting(s, p);
        if s1.Started() {
          StartInv(tracks, ins + [p], s1, stopped);
        }
      }
    }
  }

  // ----- theorems about whole runs

  /** Every state of every run satisfies the invariant. */
  lemma {:induction false} RunInv(tracks: nat, ins: seq<Packet>, stops: seq<bool>)
    requires 1 <= tracks <= MAX_AUDIO_MIXES && |stops| == |ins|
    requires Ordered(ins)
    ensures Inv(tracks, ins, Run(tracks, ins, stops))
  {
    if ins == [] {
      FreshInv(tracks);
    } else {
      var n := |ins| - 1;
      OrderedPrefix(ins, n);
      RunInv(tracks, ins[..n], stops[..n]);
      RunInvStep(tracks, ins, stops);
    }
  }

  lemma {:induction false} RunInvStep(tracks: nat, ins: seq<Packet>, stops: seq<bool>)
    requires 1 <= tracks <= MAX_AUDIO_MIXES && |stops| == |ins| > 0
    requires Ordered(ins)
    requires Inv(tracks, ins[..|ins| - 1], Run(tracks, ins[..|ins| - 1], stops[..|ins| - 1]))
    ensures Inv(tracks, ins, Run(tracks, ins, stops))
  {
    var n := |ins| - 1;
    var s := Run(tracks, ins[..n], stops[..n]);
    SplitLast(ins);
    SplitLast(stops);
    RunUnfold(tracks, ins[..n], ins[n], stops[..n], stops[n]);
    StepInv(tracks, ins[..n], s, ins[n], stops[n]);
  }

  lemma {:induction false} RunUnfold(tracks: nat, past: seq<Packet>, p: Packet, stops: seq<bool>, stopped: bool)
    requires 1 <= tracks && |stops| == |past|
    ensures Run(tracks, past + [p], stops + [stopped]) == Step(tracks, Run(tracks, past, stops), p, stopped)
  {
    assert (past + [p])[..|past|] == past && (stops + [stopped])[..|past|] == stops;
  }

  lemma FreshInv(tracks: nat)
    ensures Inv(tracks, [], FRESH)
  {
    forall st
      ensures StreamLineage([], FRESH, st, false)
    {
      assert Of([], st) == [];
    }
  }

  lemma OrderedPrefix(ins: seq<Packet>, n: nat)
    requires Ordered(ins) && n <= |ins|
    ensures Ordered(ins[..n])
  {
    forall i, j | 0 <= i < j < n
      ensures Follows(ins[..n][i], ins[..n][j])
    {
      assert Follows(ins[i], ins[j]);
    }
  }

  /** Lossless and in order: of the stream a prefix was freed, and exactly the rest is popped or
      buffered, in arrival order. Offsets were taken once if both flags hold and never otherwise;
      the offset is the first kept dts, so the track starts at dts 0. */
  ghost predicate LosslessStream(tracks: nat, ins: seq<Packet>, s: State, st: Stream) {
    var all, k := Of(ins, st), |Of(s.freed, st)|;
    && k <= |all| && Of(s.freed, st) == all[..k]
    && (if !s.Started() then
          s.rebases == 0 && s.popped == [] && Of(s.buffer, st) == all[k..]
        else
          && s.rebases == 1
          && Of(s.popped, st) + Of(s.buffer, st) == Shifted(all[k..], s.Offset(st))
          && (Known(tracks, st) ==> k < |all| && s.Offset(st) == all[k].dts))
  }

  lemma InvLossless(tracks: nat, ins: seq<Packet>, s: State, st: Stream)
    requires Inv(tracks, ins, s)
    ensures LosslessStream(tracks, ins, s, st)
  {
    assert StreamLineage(ins, s, st, s.Started());
    if !s.Started() {
      assert Out(s, st) == Of(s.buffer, st);
    } else if Known(tracks, st) {
      assert Out(s, st)[0] == Of(ins, st)[|Of(s.freed, st)|].Rebased(s.Offset(st));
    }
  }

  lemma {:induction false} LosslessInOrder(tracks: nat, ins: seq<Packet>, stops: seq<bool>)
    requires 1 <= tracks <= MAX_AUDIO_MIXES && |stops| == |ins|
    requires Ordered(ins)
    ensures forall st :: LosslessStream(tracks, ins, Run(tracks, ins, stops), st)
  {
    RunInv(tracks, ins, stops);
    forall st
      ensures LosslessStream(tracks, ins, Run(tracks, ins, stops), st)
    {
      InvLossless(tracks, ins, Run(tracks, ins, stops), st);
    }
  }

  lemma StartedStep(tracks: nat, s: State, p: Packet, stopped: bool)
    requires 1 <= tracks && s.Started()
    ensures var s' := Step(tracks, s, p, stopped);
      && s'.Started() && s'.freed == s.freed && s'.rebases == s.rebases
      && s'.videoOffset == s.videoOffset && s'.audioOffsets == s.audioOffsets
  {
    AcceptShape(s, p);
  }

  /** Once started, a run stays started, keeps its offsets and frees nothing more. */
  lemma {:induction false} StartedForGood(tracks: nat, ins: seq<Packet>, stops: seq<bool>, k: nat)
    requires 1 <= tracks && |stops| == |ins| && k <= |ins|
    requires Run(tracks, ins[..k], stops[..k]).Started()
    ensures var s, s' := Run(tracks, ins[..k], stops[..k]), Run(tracks, ins, stops);
      && s'.Started() && s'.freed == s.freed && s'.rebases == s.rebases
      && s'.videoOffset == s.videoOffset && s'.audioOffsets == s.audioOffsets
  {
    if k == |ins| {
      TakeAll(ins);
      TakeAll(stops);
    } else {
      var n := |ins| - 1;
      PrefixOfPrefix(ins, k, n);
      PrefixOfPrefix(stops, k, n);
      StartedForGood(tracks, ins[..n], stops[..n], k);
      StartedAfter(tracks, Run(tracks, ins[..n], stops[..n]), ins, stops);
    }
  }

  lemma {:induction false} StartedAfter(tracks: nat, s: State, ins: seq<Packet>, stops: seq<bool>)
    requires 1 <= tracks && |stops| == |ins| > 0
    requires s == Run(tracks, ins[..|ins| - 1], stops[..|ins| - 1]) && s.Started()
    ensures var s' := Run(tracks, ins, stops);
      && s'.Started() && s'.freed == s.freed && s'.rebases == s.rebases
      && s'.videoOffset == s.videoOffset && s'.audioOffsets == s.audioOffsets
  {
    var n := |ins| - 1;
    assert Run(tracks, ins, stops) == Step(tracks, s, ins[n], stops[n]);
    StartedStep(tracks, s, ins[n], stops[n]);
  }

  /** A successful initialization followed by the resort gives a sorted permutation of the rebased
      buffer in which every track keeps its order and starts at its own first dts. */
  lemma StartSortsAndKeepsTracks(tracks: nat, ins: seq<Packet>, s: State)
    requires 1 <= tracks <= |s.audioOffsets|
    requires Ordered(ins) && Lineage(ins, s, false) && s.popped == []
    requires Initialize(tracks, s).1
    ensures var s' := Initialize(tracks, s).0; var b := Resort(s'.buffer);
      && Sorted(b) && multiset(b) == multiset(RebaseAll(s.buffer, s'))
      && (forall st | Known(tracks, st) ::
            Of(s.buffer, st) != [] && Of(b, st) == Shifted(Of(s.buffer, st), Of(s.buffer, st)[0].dts))
  {
    var s' := Initialize(tracks, s).0;
    InitializeKeeps(tracks, ins, s);
    InitializeShape(tracks, s);
    RebasedOrdered(ins, s');
    ResortKeeps(s'.buffer);
    forall st | Known(tracks, st)
      ensures Of(s.buffer, st) != []
      ensures Of(Resort(s'.buffer), st) == Shifted(Of(s.buffer, st), Of(s.buffer, st)[0].dts)
    {
      OfFirst(s.buffer, st);
      RebaseOf(s.buffer, s', st);
    }
  }
}
