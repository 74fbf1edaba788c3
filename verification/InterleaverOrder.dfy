/** With one audio track, what leaves the gate is in non-decreasing dts order over the whole run:
    the comment on send_interleaved that its test "ensures that the timestamps are monotonic". */
module InterleaverOrder {
  import opened Sequences
  import opened CDivision
  import opened Interleaver
  import opened InterleaverBuffer
  import opened InterleaverRuns

  function Last(b: seq<Packet>): Packet
    requires b != []
  {
    b[|b| - 1]
  }

  /** The newest timestamp of a stream still in the output. */
  function Top(s: State, st: Stream): int
    requires Out(s, st) != []
  {
    Last(Out(s, st)).dtsUsec
  }

  /** Before the start, a highest timestamp is that of the newest buffered packet of its kind. */
  ghost predicate HighestWaiting(ins: seq<Packet>, s: State, st: Stream) {
    && (Of(s.buffer, st) != [] ==> s.Highest(st) == Last(Of(s.buffer, st)).dtsUsec)
    && (s.Highest(st) <= 0 || (Of(ins, st) != [] && s.Highest(st) <= Last(Of(ins, st)).dtsUsec))
  }

  /** After it, rebasing may have left it one microsecond too high or too low, and never more. */
  ghost predicate HighestRunning(s: State, st: Stream)
    requires Out(s, st) != []
  {
    && s.Highest(st) - 1 <= Top(s, st) <= s.Highest(st) + 1
    && (forall x :: x in s.popped ==> x.dtsUsec <= Top(s, st))
  }

  ghost predicate PoppedFirst(s: State) {
    && Sorted(s.popped)
    && (forall x, y :: x in s.popped && y in s.buffer ==> x.dtsUsec <= y.dtsUsec)
  }

  ghost predicate DeliveredSorted(s: State) {
    Sorted(s.delivered) && (forall d :: d in s.delivered ==> d in s.popped)
  }

  const THE_AUDIO := Audio(0)

  ghost predicate Inv1(ins: seq<Packet>, s: State) {
    && Inv(1, ins, s)
    && PoppedFirst(s) && DeliveredSorted(s)
    && (if s.Started()
        then HighestRunning(s, Video) && HighestRunning(s, THE_AUDIO)
        else HighestWaiting(ins, s, Video) && HighestWaiting(ins, s, THE_AUDIO))
  }

  lemma KnownBuffered(ins: seq<Packet>, s: State, rebased: bool, x: Packet)
    requires WellTimed(1, ins) && Lineage(ins, s, rebased)
    requires x in s.buffer
    ensures x.stream == Video || x.stream == THE_AUDIO
    ensures x in Out(s, x.stream)
  {
    var st := x.stream;
    assert StreamLineage(ins, s, st, rebased);
    OfMember(s.buffer, st, x);
    var y := Of(ins, st)[|Of(s.freed, st)|];
    OfMember(ins, st, y);
    var i :| 0 <= i < |ins| && ins[i] == y;
    assert Known(1, ins[i].stream);
  }

  // ----- before the start

  lemma {:induction false} NewestOf(ins: seq<Packet>, p: Packet)
    requires Ordered(ins + [p])
    ensures Of(ins, p.stream) != [] ==> Last(Of(ins, p.stream)).dtsUsec <= p.dtsUsec
  {
    var st := p.stream;
    InputGrows(ins, p, st);
    if Of(ins, st) != [] {
      var n := |Of(ins, st)|;
      OrderedAt(ins + [p], st, n - 1, n);
      FollowsOrder(Last(Of(ins, st)), p, 0);
    }
  }

  lemma AcceptHighestWaiting(ins: seq<Packet>, s: State, p: Packet, st: Stream)
    requires !s.Started() && Sorted(s.buffer) && Lineage(ins, s, false)
    requires Ordered(ins + [p]) && p.dtsUsec >= 0
    requires (st.Video? <==> p.stream.Video?) ==> st == p.stream
    requires HighestWaiting(ins, s, st)
    ensures HighestWaiting(ins + [p], Accept(s, p), st)
  {
    AcceptShape(s, p);
    OwnStreamOlder(ins, s, p, false);
    InsertOf(s.buffer, p, st);
    NewestOf(ins, p);
    InputGrows(ins, p, st);
    NewestWaiting(ins, s, Accept(s, p), p, st);
  }

  lemma {:induction false} NewestWaiting(ins: seq<Packet>, s: State, s': State, p: Packet, st: Stream)
    requires HighestWaiting(ins, s, st) && p.dtsUsec >= 0
    requires Of(ins + [p], st) == Of(ins, st) + (if p.stream == st then [p] else [])
    requires Of(s'.buffer, st) == Of(s.buffer, st) + (if p.stream == st then [p] else [])
    requires p.stream != st ==> s'.Highest(st) == s.Highest(st)
    requires p.stream == st ==> s'.Highest(st) == if s.Highest(st) < p.dtsUsec then p.dtsUsec else s.Highest(st)
    requires p.stream == st && Of(ins, st) != [] ==> Last(Of(ins, st)).dtsUsec <= p.dtsUsec
    ensures HighestWaiting(ins + [p], s', st)
  {
    Regroup(Of(ins, st), [], []);
    Regroup(Of(s.buffer, st), [], []);
  }

  lemma DiscardHighestWaiting(ins: seq<Packet>, s: State, n: nat, st: Stream)
    requires n <= |s.buffer| && HighestWaiting(ins, s, st)
    ensures HighestWaiting(ins, DiscardTo(s, n), st)
  {
    OfTail(s.buffer, n, st);
  }

  lemma RejectHighestWaiting(ins: seq<Packet>, s: State, p: Packet, st: Stream)
    requires Ordered(ins + [p]) && HighestWaiting(ins, s, st)
    ensures HighestWaiting(ins + [p], Reject(s, p), st)
  {
    DiscardHighestWaiting(ins, s, CountBelow(s.buffer, p.dtsUsec), st);
    InputGrows(ins, p, st);
    NewestOf(ins, p);
  }

  // ----- the start

  /** Rebasing keeps a highest timestamp within one microsecond of the newest packet it stands for. */
  lemma RebaseWithinOne(first: Packet, last: Packet)
    requires first.stream == last.stream && Follows(first, last)
    ensures -1 <= (last.dtsUsec - first.dtsUsec) - last.Rebased(first.dts).dtsUsec <= 1
    ensures first.dts >= 0 ==> 0 <= (last.dtsUsec - first.dtsUsec) - last.Rebased(first.dts).dtsUsec
  {
    var a, b := first.dts * MICROSECOND_DEN, last.dts * MICROSECOND_DEN;
    assert b - a == (last.dts - first.dts) * MICROSECOND_DEN;
    QuotDifference(a, b, last.den);
  }

  lemma {:induction false} BufferEndsFollow(ins: seq<Packet>, s: State, st: Stream)
    requires Ordered(ins) && StreamLineage(ins, s, st, false) && s.popped == []
    requires Of(s.buffer, st) != []
    ensures Of(s.buffer, st)[0].stream == Last(Of(s.buffer, st)).stream == st
    ensures Follows(Of(s.buffer, st)[0], Last(Of(s.buffer, st)))
  {
    var all, k := Of(ins, st), |Of(s.freed, st)|;
    var b := Of(s.buffer, st);
    assert Out(s, st) == b;
    OfOrdered(ins, st);
    assert all[k] in all;
    if |b| > 1 {
      OrderedAt(ins, st, k, k + |b| - 1);
    }
  }

  lemma {:induction false} InitializeHighestShape(s: State, st: Stream)
    requires Initialize(1, s).1 && st in {Video, THE_AUDIO}
    ensures FirstIdx(s.buffer, st) >= 0
    ensures Initialize(1, s).0.Highest(st) == s.Highest(st) - s.buffer[FirstIdx(s.buffer, st)].dtsUsec
    ensures |s.audioOffsets| > 0 ==> Initialize(1, s).0.Offset(st) == s.buffer[FirstIdx(s.buffer, st)].dts
  {
  }

  /** The highest timestamp of a stream and the newest of its packets, both rebased. */
  lemma RebasedTop(b: seq<Packet>)
    requires b != [] && b[0].stream == Last(b).stream && Follows(b[0], Last(b))
    ensures -1 <= Last(b).dtsUsec - b[0].dtsUsec - Last(Shifted(b, b[0].dts)).dtsUsec <= 1
  {
    RebaseWithinOne(b[0], Last(b));
    assert Last(Shifted(b, b[0].dts)) == Last(b).Rebased(b[0].dts);
  }

  lemma InitializedHighest(s': State, st: Stream, b: seq<Packet>)
    requires b != [] && b[0].stream == Last(b).stream && Follows(b[0], Last(b))
    requires s'.popped == [] && Out(s', st) == Shifted(b, b[0].dts)
    requires s'.Highest(st) == Last(b).dtsUsec - b[0].dtsUsec
    ensures Out(s', st) != [] && HighestRunning(s', st)
  {
    RebasedTop(b);
  }

  lemma InitializeHighest(ins: seq<Packet>, s: State, st: Stream)
    requires |s.audioOffsets| == MAX_AUDIO_MIXES && st in {Video, THE_AUDIO}
    requires Ordered(ins) && StreamLineage(ins, s, st, false) && s.popped == []
    requires HighestWaiting(ins, s, st) && Initialize(1, s).1
    ensures var s' := Initialize(1, s).0; Out(s', st) != [] && HighestRunning(s', st)
  {
    var s' := Initialize(1, s).0;
    InitializeHighestShape(s, st);
    InitializeShape(1, s);
    InitializeStream(ins, s, s', st);
    OfFirst(s.buffer, st);
    BufferEndsFollow(ins, s, st);
    InitializedHighest(s', st, Of(s.buffer, st));
  }

  // ----- after the start

  /** The head that passes the gate is not above any stream's newest packet: the opposing highest
      timestamp exceeds it strictly, which absorbs the microsecond of rounding. */
  lemma SendInOrder(s: State, stopped: bool)
    requires s.buffer != [] && Sorted(s.buffer)
    requires PoppedFirst(s) && DeliveredSorted(s)
    requires Out(s, Video) != [] && Out(s, THE_AUDIO) != []
    requires HighestRunning(s, Video) && HighestRunning(s, THE_AUDIO)
    requires s.buffer[0].stream in {Video, THE_AUDIO}
    requires s.buffer[0].dtsUsec <= Top(s, s.buffer[0].stream)
    ensures var s' := Send(s, stopped);
      && PoppedFirst(s') && DeliveredSorted(s')
      && Out(s', Video) == Out(s, Video) && Out(s', THE_AUDIO) == Out(s, THE_AUDIO)
      && HighestRunning(s', Video) && HighestRunning(s', THE_AUDIO)
  {
    var p, s' := s.buffer[0], Send(s, stopped);
    if s.Opposing(p.stream) > p.dtsUsec {
      PoppingHead(s, s');
      HeadHighest(s, s', Video);
      HeadHighest(s, s', THE_AUDIO);
      HeadDelivered(s, s', stopped);
    }
  }

  lemma HeadHighest(s: State, s': State, st: Stream)
    requires s.buffer != [] && s'.buffer == s.buffer[1..] && s'.popped == s.popped + [s.buffer[0]]
    requires s'.Highest(st) == s.Highest(st)
    requires Out(s, st) != [] && HighestRunning(s, st) && s.buffer[0].dtsUsec <= Top(s, st)
    ensures Out(s', st) == Out(s, st) && HighestRunning(s', st)
  {
    SendStream(s, s', st);
  }

  lemma HeadDelivered(s: State, s': State, stopped: bool)
    requires s.buffer != [] && DeliveredSorted(s) && s'.popped == s.popped + [s.buffer[0]]
    requires s'.delivered == if stopped then s.delivered else s.delivered + [s.buffer[0]]
    requires forall x :: x in s.popped ==> x.dtsUsec <= s.buffer[0].dtsUsec
    ensures DeliveredSorted(s')
  {
    AppendSorted(s.delivered, s.buffer[0]);
  }

  lemma PoppingHead(s: State, s': State)
    requires s.buffer != [] && Sorted(s.buffer) && PoppedFirst(s)
    requires s'.buffer == s.buffer[1..] && s'.popped == s.popped + [s.buffer[0]]
    ensures PoppedFirst(s')
    ensures forall x :: x in s.popped ==> x.dtsUsec <= s.buffer[0].dtsUsec
  {
    var p := s.buffer[0];
    assert p in s.buffer;
    AppendSorted(s.popped, p);
    forall x, y | x in s'.popped && y in s'.buffer
      ensures x.dtsUsec <= y.dtsUsec
    {
      var i :| 0 <= i < |s.buffer[1..]| && s.buffer[1..][i] == y;
      assert y == s.buffer[i + 1];
    }
  }

  lemma AppendSorted(b: seq<Packet>, p: Packet)
    requires Sorted(b) && forall x :: x in b ==> x.dtsUsec <= p.dtsUsec
    ensures Sorted(b + [p])
  {
  }

  lemma MemberBelowTop(ins: seq<Packet>, s: State, x: Packet)
    requires Ordered(ins) && Lineage(ins, s, true) && x in Out(s, x.stream)
    ensures x.dtsUsec <= Top(s, x.stream)
  {
    assert StreamLineage(ins, s, x.stream, true);
    RebasedStreamSorted(ins, s, x.stream);
  }

  lemma EnteringOnTop(ins: seq<Packet>, s: State, st: Stream, older: seq<Packet>, out: Packet)
    requires Ordered(ins) && StreamLineage(ins, s, st, true)
    requires older != [] && Out(s, st) == older + [out]
    ensures Last(older).dtsUsec <= out.dtsUsec
  {
    RebasedStreamSorted(ins, s, st);
    assert Out(s, st)[|older| - 1] == Last(older) && Out(s, st)[|older|] == out;
  }

  lemma AcceptHighest(s: State, s': State, out: Packet, st: Stream)
    requires Out(s, st) != [] && HighestRunning(s, st) && s'.popped == s.popped
    requires Out(s', st) == Out(s, st) + (if out.stream == st then [out] else [])
    requires out.stream != st ==> s'.Highest(st) == s.Highest(st)
    requires out.stream == st ==>
      && Top(s, st) <= out.dtsUsec
      && s'.Highest(st) == if s.Highest(st) < out.dtsUsec then out.dtsUsec else s.Highest(st)
    ensures Out(s', st) != [] && HighestRunning(s', st)
  {
  }

  lemma AcceptPoppedFirst(s: State, s': State, out: Packet)
    requires PoppedFirst(s) && s'.popped == s.popped && s'.buffer == Insert(s.buffer, out)
    requires forall x :: x in s.popped ==> x.dtsUsec <= out.dtsUsec
    ensures PoppedFirst(s')
  {
    InsertMembers(s.buffer, out);
  }

  lemma AcceptInOrder(ins: seq<Packet>, s: State, p: Packet)
    requires WellTimed(1, ins + [p]) && Inv1(ins, s) && s.Started()
    ensures var s' := Accept(s, p);
      && PoppedFirst(s') && DeliveredSorted(s')
      && Out(s', Video) != [] && Out(s', THE_AUDIO) != []
      && HighestRunning(s', Video) && HighestRunning(s', THE_AUDIO)
  {
    var s', out := Accept(s, p), Entering(s, p);
    AcceptShape(s, p);
    AcceptKeeps(ins, s, p);
    OneOfTwo(ins, p);
    assert StreamLineage(ins + [p], s', p.stream, true);
    EnteringOnTop(ins + [p], s', p.stream, Out(s, p.stream), out);
    AcceptHighest(s, s', out, Video);
    AcceptHighest(s, s', out, THE_AUDIO);
    AcceptPoppedFirst(s, s', out);
  }

  lemma OneOfTwo(ins: seq<Packet>, p: Packet)
    requires WellTimed(1, ins + [p])
    ensures p.stream == Video || p.stream == THE_AUDIO
  {
    assert (ins + [p])[|ins|] == p;
    assert Known(1, p.stream);
  }

  /** A running output: what the gate sees before it decides. */
  ghost predicate GateReady(ins: seq<Packet>, s: State) {
    && s.Started() && s.buffer != [] && Sorted(s.buffer) && Lineage(ins, s, true)
    && PoppedFirst(s) && DeliveredSorted(s)
    && Out(s, Video) != [] && Out(s, THE_AUDIO) != []
    && HighestRunning(s, Video) && HighestRunning(s, THE_AUDIO)
  }

  lemma GateInOrder(ins: seq<Packet>, s: State, stopped: bool)
    requires WellTimed(1, ins) && Ordered(ins) && GateReady(ins, s)
    requires Inv(1, ins, Send(s, stopped))
    ensures Inv1(ins, Send(s, stopped))
  {
    KnownBuffered(ins, s, true, s.buffer[0]);
    MemberBelowTop(ins, s, s.buffer[0]);
    SendInOrder(s, stopped);
  }

  // ----- one step

  lemma WaitingKeeps(ins: seq<Packet>, s: State, s': State, st: Stream)
    requires HighestWaiting(ins, s, st)
    requires s'.buffer == s.buffer && s'.Highest(st) == s.Highest(st)
    ensures HighestWaiting(ins, s', st)
  {
  }

  lemma ResortHighest(s: State, st: Stream)
    requires Out(s, st) != [] && HighestRunning(s, st) && StreamOrdered(s.buffer)
    ensures var s' := s.(buffer := Resort(s.buffer)); Out(s', st) == Out(s, st) && HighestRunning(s', st)
  {
    ResortKeeps(s.buffer);
  }

  lemma InitializeGate(ins: seq<Packet>, s: State)
    requires |s.audioOffsets| == MAX_AUDIO_MIXES && s.Started()
    requires Ordered(ins) && Lineage(ins, s, false) && s.popped == [] && s.delivered == []
    requires HighestWaiting(ins, s, Video) && HighestWaiting(ins, s, THE_AUDIO)
    requires Initialize(1, s).1
    ensures var s' := Initialize(1, s).0; GateReady(ins, s'.(buffer := Resort(s'.buffer)))
  {
    var s' := Initialize(1, s).0;
    InitializeKeeps(1, ins, s);
    assert StreamLineage(ins, s, Video, false) && StreamLineage(ins, s, THE_AUDIO, false);
    InitializeHighest(ins, s, Video);
    InitializeHighest(ins, s, THE_AUDIO);
    RebasedOrdered(ins, s');
    ResortHighest(s', Video);
    ResortHighest(s', THE_AUDIO);
    InitializeShape(1, s);
    ResortState(1, ins, s');
    ResortKeeps(s'.buffer);
  }

  lemma StartInOrder(ins: seq<Packet>, s: State, stopped: bool)
    requires |s.audioOffsets| == MAX_AUDIO_MIXES && s.Started()
    requires WellTimed(1, ins) && Ordered(ins) && Lineage(ins, s, false) && Sorted(s.buffer)
    requires s.popped == [] && s.delivered == []
    requires HighestWaiting(ins, s, Video) && HighestWaiting(ins, s, THE_AUDIO)
    requires Inv(1, ins, Start(1, s, stopped))
    ensures Inv1(ins, Start(1, s, stopped))
  {
    var (s1, pruned) := Prune(1, s);
    if pruned {
      var n := PruneIdx(1, s.buffer);
      DiscardKeeps(ins, s, n);
      DiscardHighestWaiting(ins, s, n, Video);
      DiscardHighestWaiting(ins, s, n, THE_AUDIO);
      StartPrunedInOrder(ins, s1, stopped);
    } else {
      WaitingKeeps(ins, s, s1, Video);
      WaitingKeeps(ins, s, s1, THE_AUDIO);
    }
  }

  lemma StartPrunedInOrder(ins: seq<Packet>, s: State, stopped: bool)
    requires |s.audioOffsets| == MAX_AUDIO_MIXES && s.Started()
    requires WellTimed(1, ins) && Lineage(ins, s, false)
    requires s.popped == [] && s.delivered == []
    requires HighestWaiting(ins, s, Video) && HighestWaiting(ins, s, THE_AUDIO)
    requires Inv(1, ins, StartPruned(1, s, stopped))
    ensures Inv1(ins, StartPruned(1, s, stopped))
  {
    var (s', ready) := Initialize(1, s);
    if ready {
      InitializeGate(ins, s);
      GateInOrder(ins, s'.(buffer := Resort(s'.buffer)), stopped);
    } else {
      WaitingKeeps(ins, s, s', Video);
      WaitingKeeps(ins, s, s', THE_AUDIO);
    }
  }

  lemma Step1(ins: seq<Packet>, s: State, p: Packet, stopped: bool)
    requires WellTimed(1, ins + [p]) && Ordered(ins + [p]) && Inv1(ins, s)
    ensures Inv1(ins + [p], Step(1, s, p, stopped))
  {
    StepInv(1, ins, s, p, stopped);
    assert (ins + [p])[|ins|] == p;
    if Rejects(s, p) {
      RejectHighestWaiting(ins, s, p, Video);
      RejectHighestWaiting(ins, s, p, THE_AUDIO);
    } else if s.Started() {
      AcceptInOrder(ins, s, p);
      AcceptKeeps(ins, s, p);
      AcceptShape(s, p);
      GateInOrder(ins + [p], Accept(s, p), stopped);
    } else {
      WaitingStep1(ins, s, p, stopped);
    }
  }

  lemma WaitingStep1(ins: seq<Packet>, s: State, p: Packet, stopped: bool)
    requires WellTimed(1, ins + [p]) && Ordered(ins + [p]) && Inv1(ins, s)
    requires !s.Started() && !Rejects(s, p)
    requires Inv(1, ins + [p], Step(1, s, p, stopped))
    ensures Inv1(ins + [p], Step(1, s, p, stopped))
  {
    assert (ins + [p])[|ins|] == p;
    AcceptHighestWaiting(ins, s, p, Video);
    AcceptHighestWaiting(ins, s, p, THE_AUDIO);
    AcceptShape(s, p);
    var s1 := Accept(s, p);
    if s1.Started() {
      AcceptKeeps(ins, s, p);
      StartInOrder(ins + [p], s1, stopped);
    }
  }

  // ----- the theorem

  lemma {:induction false} Run1(ins: seq<Packet>, stops: seq<bool>)
    requires |stops| == |ins| && WellTimed(1, ins)
    ensures Inv1(ins, Run(1, ins, stops))
  {
    if ins == [] {
      FreshInv(1);
    } else {
      var n := |ins| - 1;
      WellTimedPrefix(ins, n);
      Run1(ins[..n], stops[..n]);
      Run1Step(ins, stops);
    }
  }

  lemma WellTimedPrefix(ins: seq<Packet>, n: nat)
    requires WellTimed(1, ins) && n <= |ins|
    ensures WellTimed(1, ins[..n])
  {
    OrderedPrefix(ins, n);
  }

  lemma {:induction false} Run1Step(ins: seq<Packet>, stops: seq<bool>)
    requires |stops| == |ins| > 0 && WellTimed(1, ins)
    requires Inv1(ins[..|ins| - 1], Run(1, ins[..|ins| - 1], stops[..|ins| - 1]))
    ensures Inv1(ins, Run(1, ins, stops))
  {
    var n := |ins| - 1;
    SplitLast(ins);
    SplitLast(stops);
    RunUnfold(1, ins[..n], ins[n], stops[..n], stops[n]);
    Step1(ins[..n], Run(1, ins[..n], stops[..n]), ins[n], stops[n]);
  }

  /** Monotone output: with one audio track, whatever the arrival interleaving of the two encoders,
      the packets handed to encoded_packet over the whole run have non-decreasing dtsUsec, and
      nothing still buffered is older than anything already sent. */
  lemma {:induction false} SentInOrder(ins: seq<Packet>, stops: seq<bool>)
    requires |stops| == |ins| && WellTimed(1, ins)
    ensures var s := Run(1, ins, stops);
      && Sorted(s.popped) && Sorted(s.delivered)
      && (forall x, y :: x in s.popped && y in s.buffer ==> x.dtsUsec <= y.dtsUsec)
  {
    Run1(ins, stops);
  }

  /** The one microsecond is real: two packets whose rebased distance is one less than the distance
      of their timestamps. */
  lemma RebaseCanOvershoot()
    ensures exists first: Packet, last: Packet ::
      (&& first.stream == last.stream && Follows(first, last)
       && (last.dtsUsec - first.dtsUsec) - last.Rebased(first.dts).dtsUsec == 1)
  {
    var first := Packet(Video, 2, 2, 1, 3, 666666, true, []);
    var last := Packet(Video, 3, 3, 1, 3, 1000000, false, []);
    assert first.Usec() == 666666 && last.Usec() == 1000000;
    assert last.Rebased(2).dtsUsec == 333333;
  }
}
