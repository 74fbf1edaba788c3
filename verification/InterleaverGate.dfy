/** When the gate opens: with one audio track, every call on a running output sends the packet in front
    exactly as the packets of the other kind demand, up to the microsecond that rebasing may cost. */
module InterleaverGate {
  import opened Sequences
  import opened Interleaver
  import opened InterleaverBuffer
  import opened InterleaverRuns
  import opened InterleaverOrder

  function Opposite(st: Stream): Stream {
    if st.Video? then THE_AUDIO else Video
  }

  /** The head of the queue has left, and has been handed on unless the output is stopped. */
  ghost predicate HeadLeft(before: State, after: State, stopped: bool, queue: seq<Packet>)
    requires queue != []
  {
    && after.popped == before.popped + [queue[0]] && after.buffer == queue[1..]
    && after.delivered == before.delivered + (if stopped then [] else [queue[0]])
  }

  ghost predicate HeadStays(before: State, after: State, queue: seq<Packet>) {
    after.popped == before.popped && after.buffer == queue && after.delivered == before.delivered
  }

  /** One of the two; the first if a packet of the other kind is more than a microsecond later than the
      head, the second if all of them are earlier. */
  ghost predicate GateDecides(before: State, after: State, stopped: bool, queue: seq<Packet>)
    requires queue != []
  {
    var head := queue[0];
    var others := Out(after, Opposite(head.stream));
    && (HeadLeft(before, after, stopped, queue) || HeadStays(before, after, queue))
    && ((exists x :: x in others && x.dtsUsec > head.dtsUsec + 1) ==> HeadLeft(before, after, stopped, queue))
    && ((forall x :: x in others ==> x.dtsUsec < head.dtsUsec) ==> HeadStays(before, after, queue))
  }

  // ----- one decision

  lemma OutStream(s: State, st: Stream, x: Packet)
    requires x in Out(s, st)
    ensures x.stream == st
  {
    OfMember(s.popped, st, x);
    OfMember(s.buffer, st, x);
  }

  /** The highest opposing timestamp exceeds the head's if some opposing packet is later by more than the
      rounding, and does not if none is as late. */
  lemma HighestTells(ins: seq<Packet>, s: State, st: Stream, ts: int)
    requires Ordered(ins) && Lineage(ins, s, true) && Out(s, st) != [] && HighestRunning(s, st)
    ensures (exists x :: x in Out(s, st) && x.dtsUsec > ts + 1) ==> s.Highest(st) > ts
    ensures (forall x :: x in Out(s, st) ==> x.dtsUsec < ts) ==> s.Highest(st) <= ts
  {
    if x :| x in Out(s, st) && x.dtsUsec > ts + 1 {
      OutStream(s, st, x);
      MemberBelowTop(ins, s, x);
    }
    assert Last(Out(s, st)) in Out(s, st);
  }

  lemma SendDecides(ins: seq<Packet>, s: State, stopped: bool)
    requires WellTimed(1, ins) && GateReady(ins, s)
    ensures GateDecides(s, Send(s, stopped), stopped, s.buffer)
  {
    var head := s.buffer[0];
    KnownBuffered(ins, s, true, head);
    HighestTells(ins, s, Opposite(head.stream), head.dtsUsec);
    SentOrNot(s, Send(s, stopped), stopped, Opposite(head.stream));
  }

  lemma SentOrNot(s: State, s': State, stopped: bool, st: Stream)
    requires s.buffer != [] && s' == Send(s, stopped)
    ensures Out(s', st) == Out(s, st)
    ensures if s.Opposing(s.buffer[0].stream) > s.buffer[0].dtsUsec then HeadLeft(s, s', stopped, s.buffer)
            else HeadStays(s, s', s.buffer)
  {
    if s.Opposing(s.buffer[0].stream) > s.buffer[0].dtsUsec {
      SendStream(s, s', st);
      Regroup(s.delivered, [], []);
    }
  }

  // ----- a call on a running output

  lemma RunningDecides(ins: seq<Packet>, s: State, p: Packet, stopped: bool)
    requires WellTimed(1, ins + [p]) && Inv1(ins, s) && s.Started()
    ensures var queue := Insert(s.buffer, p.Rebased(s.Offset(p.stream)));
            queue != [] && GateDecides(s, Step(1, s, p, stopped), stopped, queue)
  {
    AcceptInOrder(ins, s, p);
    AcceptKeeps(ins, s, p);
    AcceptShape(s, p);
    SendDecides(ins + [p], Accept(s, p), stopped);
  }

  // ----- the call that starts the output

  lemma StartDecides(ins: seq<Packet>, s: State, stopped: bool)
    requires |s.audioOffsets| == MAX_AUDIO_MIXES && s.Started()
    requires WellTimed(1, ins) && Lineage(ins, s, false) && Sorted(s.buffer)
    requires s.popped == [] && s.delivered == []
    requires HighestWaiting(ins, s, Video) && HighestWaiting(ins, s, THE_AUDIO)
    requires Start(1, s, stopped).Started()
    ensures var after := Start(1, s, stopped);
            var queue := after.popped + after.buffer;
            queue != [] && GateDecides(s, after, stopped, queue)
  {
    var (s1, pruned) := Prune(1, s);
    assert pruned;
    var n := PruneIdx(1, s.buffer);
    DiscardKeeps(ins, s, n);
    DiscardHighestWaiting(ins, s, n, Video);
    DiscardHighestWaiting(ins, s, n, THE_AUDIO);
    PrunedDecides(ins, s1, stopped);
  }

  lemma PrunedDecides(ins: seq<Packet>, s: State, stopped: bool)
    requires |s.audioOffsets| == MAX_AUDIO_MIXES && s.Started()
    requires WellTimed(1, ins) && Lineage(ins, s, false) && s.popped == [] && s.delivered == []
    requires HighestWaiting(ins, s, Video) && HighestWaiting(ins, s, THE_AUDIO)
    requires StartPruned(1, s, stopped).Started()
    ensures var after := StartPruned(1, s, stopped);
            var queue := after.popped + after.buffer;
            queue != [] && GateDecides(s, after, stopped, queue)
  {
    var (s', ready) := Initialize(1, s);
    assert ready;
    InitializeGate(ins, s);
    InitializeShape(1, s);
    var queued := s'.(buffer := Resort(s'.buffer));
    SendDecides(ins, queued, stopped);
    FirstQueue(s, queued, Send(queued, stopped), stopped);
  }

  lemma FirstQueue(s: State, queued: State, after: State, stopped: bool)
    requires s.popped == [] == queued.popped && s.delivered == [] == queued.delivered && queued.buffer != []
    requires GateDecides(queued, after, stopped, queued.buffer)
    ensures after.popped + after.buffer == queued.buffer
    ensures GateDecides(s, after, stopped, queued.buffer)
  {
    HeadAndTail(queued.buffer);
  }

  lemma StartingDecides(ins: seq<Packet>, s: State, p: Packet, stopped: bool)
    requires WellTimed(1, ins + [p]) && Inv1(ins, s) && !s.Started() && Step(1, s, p, stopped).Started()
    ensures var after := Step(1, s, p, stopped);
            var queue := after.popped + after.buffer;
            queue != [] && GateDecides(s, after, stopped, queue)
  {
    assert !Rejects(s, p);
    assert (ins + [p])[|ins|] == p;
    var s1 := Accept(s, p);
    AcceptShape(s, p);
    AcceptKeeps(ins, s, p);
    AcceptHighestWaiting(ins, s, p, Video);
    AcceptHighestWaiting(ins, s, p, THE_AUDIO);
    StartDecides(ins + [p], s1, stopped);
  }

  // ----- the theorem

  /** What one call makes of the state before it. */
  ghost predicate CallDecides(before: State, p: Packet, stopped: bool, after: State) {
    if before.Started() then
      var queue := Insert(before.buffer, p.Rebased(before.Offset(p.stream)));
      queue != [] && GateDecides(before, after, stopped, queue)
    else
      after.Started() ==>
        after.popped + after.buffer != [] && GateDecides(before, after, stopped, after.popped + after.buffer)
  }

  /** Every call of every run with one audio track decides about the packet in front, video or audio: it
      leaves if a packet of the other kind is more than a microsecond later, and waits if all are earlier. */
  lemma GateInRuns(ins: seq<Packet>, stops: seq<bool>, k: nat)
    requires |stops| == |ins| && WellTimed(1, ins) && k < |ins|
    ensures CallDecides(Run(1, ins[..k], stops[..k]), ins[k], stops[k], Run(1, ins[..k + 1], stops[..k + 1]))
  {
    var before := Run(1, ins[..k], stops[..k]);
    TakeNext(ins, k);
    TakeNext(stops, k);
    WellTimedPrefix(ins, k);
    WellTimedPrefix(ins, k + 1);
    Run1(ins[..k], stops[..k]);
    RunUnfold(1, ins[..k], ins[k], stops[..k], stops[k]);
    StepDecides(ins[..k], before, ins[k], stops[k]);
  }

  lemma StepDecides(ins: seq<Packet>, s: State, p: Packet, stopped: bool)
    requires WellTimed(1, ins + [p]) && Inv1(ins, s)
    ensures CallDecides(s, p, stopped, Step(1, s, p, stopped))
  {
    if s.Started() {
      RunningDecides(ins, s, p, stopped);
    } else if Step(1, s, p, stopped).Started() {
      StartingDecides(ins, s, p, stopped);
    }
  }
}
