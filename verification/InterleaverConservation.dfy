/** What the interleaver keeps for packets of any kind, in any order and with any time stamps: every packet
    that arrived is freed, popped or still buffered, exactly once, and is otherwise only rebased. */
module InterleaverConservation {
  import opened Sequences
  import opened Interleaver
  import opened InterleaverBuffer
  import InterleaverRuns

  // ----- packets up to rebasing

  /** The offsets of the video encoder and of every audio track. */
  datatype Offsets = Offsets(video: int, audio: seq<int>)
  {
    function At(st: Stream): int {
      match st
      case Video => video
      case Audio(t) => if t < |audio| then audio[t] else 0
    }
  }

  const NOT_TAKEN := Offsets(0, [0, 0, 0, 0])

  function TakenIn(s: State): Offsets {
    Offsets(s.videoOffset, s.audioOffsets)
  }

  /** The packet as it was before its offset was subtracted. dtsUsec, which is recomputed, is left out. */
  function Original(p: Packet, o: Offsets): Packet {
    p.(dts := p.dts + o.At(p.stream), pts := p.pts + o.At(p.stream), dtsUsec := 0)
  }

  function Originals(b: seq<Packet>, o: Offsets): (r: seq<Packet>)
    ensures |r| == |b|
  {
    seq(|b|, i requires 0 <= i < |b| => Original(b[i], o))
  }

  ghost function Bag(b: seq<Packet>, o: Offsets): multiset<Packet> {
    multiset(Originals(b, o))
  }

  lemma OriginalsConcat(a: seq<Packet>, b: seq<Packet>, o: Offsets)
    ensures Originals(a + b, o) == Originals(a, o) + Originals(b, o)
  {
  }

  lemma BagConcat(a: seq<Packet>, b: seq<Packet>, o: Offsets)
    ensures Bag(a + b, o) == Bag(a, o) + Bag(b, o)
  {
    OriginalsConcat(a, b, o);
  }

  lemma BagOne(p: Packet, o: Offsets)
    ensures Bag([p], o) == multiset{Original(p, o)}
  {
    assert Originals([p], o) == [Original(p, o)];
  }

  lemma BagNext(b: seq<Packet>, p: Packet, o: Offsets)
    ensures Bag(b + [p], o) == Bag(b, o) + multiset{Original(p, o)}
  {
    BagConcat(b, [p], o);
    BagOne(p, o);
  }

  lemma BagSplit(b: seq<Packet>, n: nat, o: Offsets)
    requires n <= |b|
    ensures Bag(b, o) == Bag(b[..n], o) + Bag(b[n..], o)
  {
    BagConcat(b[..n], b[n..], o);
    assert b == b[..n] + b[n..];
  }

  lemma BagInsert(b: seq<Packet>, p: Packet, o: Offsets)
    ensures Bag(Insert(b, p), o) == Bag(b, o) + multiset{Original(p, o)}
  {
    var i := Slot(b, p.dtsUsec);
    BagSplit(b, i, o);
    BagConcat(b[..i] + [p], b[i..], o);
    BagNext(b[..i], p, o);
  }

  lemma {:induction false} BagResort(b: seq<Packet>, o: Offsets)
    ensures Bag(Resort(b), o) == Bag(b, o) && Sorted(Resort(b))
  {
    if b != [] {
      var n := |b| - 1;
      BagResort(b[..n], o);
      BagInsert(Resort(b[..n]), b[n], o);
      InsertSorted(Resort(b[..n]), b[n]);
      BagNext(b[..n], b[n], o);
      SplitLast(b);
    }
  }

  lemma OriginalsRebased(b: seq<Packet>, s: State)
    ensures Originals(RebaseAll(b, s), TakenIn(s)) == Originals(b, NOT_TAKEN)
  {
    forall i | 0 <= i < |b|
      ensures Originals(RebaseAll(b, s), TakenIn(s))[i] == Originals(b, NOT_TAKEN)[i]
    {
      OriginalRebased(b[i], s);
    }
  }

  lemma OriginalRebased(p: Packet, s: State)
    ensures Original(p.Rebased(s.Offset(p.stream)), TakenIn(s)) == Original(p, NOT_TAKEN)
  {
  }

  // ----- the invariant

  /** Nothing is lost, doubled or changed. */
  ghost predicate Conserved(ins: seq<Packet>, s: State) {
    Bag(ins, NOT_TAKEN) == Bag(s.freed, NOT_TAKEN) + Bag(s.popped, TakenIn(s)) + Bag(s.buffer, TakenIn(s))
  }

  /** Before the start nothing has been popped or rebased, and no video is buffered unseen. */
  ghost predicate Waiting(s: State) {
    InterleaverRuns.Waiting(s) && TakenIn(s) == NOT_TAKEN
  }

  ghost predicate Stamped(b: seq<Packet>) {
    forall x :: x in b ==> x.dtsUsec == x.Usec()
  }

  /** Afterwards everything not freed is rebased, once, and its microseconds are those of its dts. */
  ghost predicate Running(s: State) {
    s.rebases == 1 && Stamped(s.popped) && Stamped(s.buffer)
  }

  ghost predicate Counted(s: State) {
    s.totalFrames == |Of(s.popped, Video)| && multiset(s.delivered) <= multiset(s.popped)
  }

  ghost predicate Inv(ins: seq<Packet>, s: State) {
    && Conserved(ins, s)
    && Sorted(s.buffer)
    && Counted(s)
    && (if s.Started() then Running(s) else Waiting(s))
  }

  // ----- one step at a time

  /** The four multisets of the law, when n of the packets in c move on to the one before. */
  lemma Moved<T>(all: multiset<T>, a: multiset<T>, b: multiset<T>, n: multiset<T>, c: multiset<T>)
    requires all == a + b + (n + c)
    ensures all == (a + n) + b + c && all == a + (b + n) + c
  {
  }

  lemma Joined<T>(all: multiset<T>, a: multiset<T>, b: multiset<T>, c: multiset<T>, n: multiset<T>)
    requires all == a + b + c
    ensures all + n == (a + n) + b + c && all + n == a + b + (c + n)
  {
  }

  lemma DiscardConserves(ins: seq<Packet>, s: State, n: nat)
    requires n <= |s.buffer| && Conserved(ins, s) && Sorted(s.buffer) && TakenIn(s) == NOT_TAKEN
    ensures Conserved(ins, DiscardTo(s, n)) && Sorted(DiscardTo(s, n).buffer)
  {
    BagSplit(s.buffer, n, NOT_TAKEN);
    BagConcat(s.freed, s.buffer[..n], NOT_TAKEN);
    Moved(Bag(ins, NOT_TAKEN), Bag(s.freed, NOT_TAKEN), Bag(s.popped, NOT_TAKEN),
          Bag(s.buffer[..n], NOT_TAKEN), Bag(s.buffer[n..], NOT_TAKEN));
  }

  lemma RejectConserves(ins: seq<Packet>, s: State, p: Packet)
    requires Inv(ins, s) && Rejects(s, p)
    ensures Inv(ins + [p], Reject(s, p))
  {
    var n := CountBelow(s.buffer, p.dtsUsec);
    DiscardConserves(ins, s, n);
    InterleaverRuns.NoVideoBelow(s, n);
    FreedToo(ins, DiscardTo(s, n), p);
  }

  lemma FreedToo(ins: seq<Packet>, s: State, p: Packet)
    requires Conserved(ins, s)
    ensures Conserved(ins + [p], s.(freed := s.freed + [p]))
  {
    BagNext(ins, p, NOT_TAKEN);
    BagNext(s.freed, p, NOT_TAKEN);
    Joined(Bag(ins, NOT_TAKEN), Bag(s.freed, NOT_TAKEN), Bag(s.popped, TakenIn(s)), Bag(s.buffer, TakenIn(s)),
           multiset{Original(p, NOT_TAKEN)});
  }

  lemma InsertConserves(ins: seq<Packet>, s: State, p: Packet, q: Packet)
    requires Conserved(ins, s) && Sorted(s.buffer)
    requires Original(q, TakenIn(s)) == Original(p, NOT_TAKEN)
    ensures Conserved(ins + [p], s.(buffer := Insert(s.buffer, q))) && Sorted(Insert(s.buffer, q))
  {
    InsertSorted(s.buffer, q);
    BagNext(ins, p, NOT_TAKEN);
    BagInsert(s.buffer, q, TakenIn(s));
    Joined(Bag(ins, NOT_TAKEN), Bag(s.freed, NOT_TAKEN), Bag(s.popped, TakenIn(s)), Bag(s.buffer, TakenIn(s)),
           multiset{Original(p, NOT_TAKEN)});
  }

  /** A packet enters the buffer as it was, or rebased. */
  lemma AcceptConserves(ins: seq<Packet>, s: State, p: Packet)
    requires Inv(ins, s)
    ensures var s' := Accept(s, p);
      && Conserved(ins + [p], s') && Sorted(s'.buffer) && Counted(s')
      && (if s.Started() then Running(s') else Waiting(s'))
  {
    var q := InterleaverRuns.Entering(s, p);
    InterleaverRuns.AcceptShape(s, p);
    OriginalRebased(p, s);
    InsertConserves(ins, s, p, q);
    if s.Started() {
      InsertStamped(s.buffer, q);
    } else {
      InterleaverRuns.AcceptWaiting(s, p);
    }
  }

  lemma InsertStamped(b: seq<Packet>, p: Packet)
    requires Stamped(b) && p.dtsUsec == p.Usec()
    ensures Stamped(Insert(b, p))
  {
    InsertMembers(b, p);
  }

  lemma SendConserves(ins: seq<Packet>, s: State, stopped: bool)
    requires s.buffer != [] && Conserved(ins, s) && Sorted(s.buffer) && Counted(s) && Running(s)
    ensures var s' := Send(s, stopped);
      && Conserved(ins, s') && Sorted(s'.buffer) && Counted(s') && Running(s')
  {
    if s.Opposing(s.buffer[0].stream) > s.buffer[0].dtsUsec {
      HeadMoves(ins, s, Send(s, stopped), stopped);
    }
  }

  lemma HeadMoves(ins: seq<Packet>, s: State, s': State, stopped: bool)
    requires s.buffer != [] && Conserved(ins, s) && Sorted(s.buffer) && Counted(s) && Running(s)
    requires s'.popped == s.popped + [s.buffer[0]] && s'.buffer == s.buffer[1..] && s'.freed == s.freed
    requires s'.delivered == if stopped then s.delivered else s.delivered + [s.buffer[0]]
    requires s'.totalFrames == s.totalFrames + if s.buffer[0].stream.Video? then 1 else 0
    requires TakenIn(s') == TakenIn(s) && s'.rebases == s.rebases
    ensures Conserved(ins, s') && Sorted(s'.buffer) && Counted(s') && Running(s')
  {
    BagOfHead(Bag(ins, NOT_TAKEN), Bag(s.freed, NOT_TAKEN), s.popped, s.buffer, TakenIn(s));
    HeadCounted(s.popped, s.delivered, s.buffer[0], stopped);
    HeadStamped(s.popped, s.buffer);
  }

  lemma BagOfHead(all: multiset<Packet>, freed: multiset<Packet>, popped: seq<Packet>, b: seq<Packet>, o: Offsets)
    requires b != [] && all == freed + Bag(popped, o) + Bag(b, o)
    ensures all == freed + Bag(popped + [b[0]], o) + Bag(b[1..], o)
  {
    HeadAndTail(b);
    BagConcat([b[0]], b[1..], o);
    BagConcat(popped, [b[0]], o);
    Moved(all, freed, Bag(popped, o), Bag([b[0]], o), Bag(b[1..], o));
  }

  lemma {:induction false} HeadCounted(popped: seq<Packet>, delivered: seq<Packet>, p: Packet, stopped: bool)
    requires multiset(delivered) <= multiset(popped)
    ensures |Of(popped + [p], Video)| == |Of(popped, Video)| + (if p.stream.Video? then 1 else 0)
    ensures multiset(if stopped then delivered else delivered + [p]) <= multiset(popped + [p])
  {
    InterleaverRuns.InputGrows(popped, p, Video);
  }

  lemma HeadStamped(popped: seq<Packet>, b: seq<Packet>)
    requires Stamped(popped) && Stamped(b) && b != []
    ensures Stamped(popped + [b[0]]) && Stamped(b[1..])
  {
  }

  /** Taking the offsets changes every packet of the buffer and none of its originals. */
  lemma InitializeConserves(tracks: nat, ins: seq<Packet>, s: State)
    requires 1 <= tracks && s.popped == [] && s.rebases == 0
    requires Conserved(ins, s) && TakenIn(s) == NOT_TAKEN && Initialize(tracks, s).1
    ensures var s' := Initialize(tracks, s).0; Conserved(ins, s') && s'.buffer != [] && Running(s')
  {
    var s' := Initialize(tracks, s).0;
    InterleaverRuns.InitializeShape(tracks, s);
    OriginalsRebased(s.buffer, s');
    RebasedStamped(s.buffer, s');
  }

  lemma RebasedStamped(b: seq<Packet>, s: State)
    ensures Stamped(RebaseAll(b, s))
  {
  }

  lemma ResortConserves(ins: seq<Packet>, s: State)
    requires Conserved(ins, s) && Running(s)
    ensures var s' := s.(buffer := Resort(s.buffer));
      Conserved(ins, s') && Running(s') && Sorted(s'.buffer)
  {
    BagResort(s.buffer, TakenIn(s));
    ResortMembers(s.buffer);
  }

  lemma StartPrunedConserves(tracks: nat, ins: seq<Packet>, s: State, stopped: bool)
    requires 1 <= tracks && s.Started() && Counted(s)
    requires s.popped == [] && s.delivered == [] && s.rebases == 0
    requires Conserved(ins, s) && TakenIn(s) == NOT_TAKEN && Sorted(s.buffer)
    ensures Inv(ins, StartPruned(tracks, s, stopped))
  {
    var s1 := Initialize(tracks, s).0;
    if Initialize(tracks, s).1 {
      InitializeConserves(tracks, ins, s);
      FirstSend(ins, s1, stopped);
    }
  }

  lemma FirstSend(ins: seq<Packet>, s: State, stopped: bool)
    requires Conserved(ins, s) && Running(s) && Counted(s) && s.buffer != [] && s.Started()
    ensures Resort(s.buffer) != [] && Inv(ins, Send(s.(buffer := Resort(s.buffer)), stopped))
  {
    ResortConserves(ins, s);
    ResortNotEmpty(s.buffer);
    SendConserves(ins, s.(buffer := Resort(s.buffer)), stopped);
  }

  lemma {:induction false} ResortNotEmpty(b: seq<Packet>)
    requires b != []
    ensures Resort(b) != []
  {
    ResortMembers(b);
    assert b[0] in Resort(b);
  }

  lemma StartConserves(tracks: nat, ins: seq<Packet>, s: State, stopped: bool)
    requires 1 <= tracks && s.Started()
    requires Conserved(ins, s) && Sorted(s.buffer) && Counted(s) && Waiting(s)
    ensures Inv(ins, Start(tracks, s, stopped))
  {
    var (s1, pruned) := Prune(tracks, s);
    if pruned {
      DiscardConserves(ins, s, PruneIdx(tracks, s.buffer));
      StartPrunedConserves(tracks, ins, s1, stopped);
    }
  }

  lemma StepConserves(tracks: nat, ins: seq<Packet>, s: State, p: Packet, stopped: bool)
    requires 1 <= tracks && Inv(ins, s)
    ensures Inv(ins + [p], Step(tracks, s, p, stopped))
  {
    StepSplit(tracks, s, p, stopped);
    if Rejects(s, p) {
      RejectConserves(ins, s, p);
    } else {
      AcceptConserves(ins, s, p);
      AfterAcceptConserves(tracks, ins + [p], s.Started(), Accept(s, p), stopped);
    }
  }

  /** What follows once the packet is in the buffer. */
  function AfterAccept(tracks: nat, started: bool, s: State, stopped: bool): State
    requires 1 <= tracks && s.buffer != []
  {
    if !s.Started() then s else if started then Send(s, stopped) else Start(tracks, s, stopped)
  }

  lemma StepSplit(tracks: nat, s: State, p: Packet, stopped: bool)
    requires 1 <= tracks
    ensures Step(tracks, s, p, stopped) ==
      if Rejects(s, p) then Reject(s, p) else AfterAccept(tracks, s.Started(), Accept(s, p), stopped)
  {
  }

  lemma AfterAcceptConserves(tracks: nat, ins: seq<Packet>, started: bool, s: State, stopped: bool)
    requires 1 <= tracks && s.buffer != []
    requires Conserved(ins, s) && Sorted(s.buffer) && Counted(s)
    requires if started then s.Started() && Running(s) else Waiting(s)
    ensures Inv(ins, AfterAccept(tracks, started, s, stopped))
  {
    if started {
      SendConserves(ins, s, stopped);
    } else if s.Started() {
      StartConserves(tracks, ins, s, stopped);
    }
  }

  // ----- theorems about whole runs, for every input

  lemma {:induction false} RunInv(tracks: nat, ins: seq<Packet>, stops: seq<bool>)
    requires 1 <= tracks && |stops| == |ins|
    ensures Inv(ins, Run(tracks, ins, stops))
  {
    if ins != [] {
      var n := |ins| - 1;
      RunInv(tracks, ins[..n], stops[..n]);
      StepConserves(tracks, ins[..n], Run(tracks, ins[..n], stops[..n]), ins[n], stops[n]);
      SplitLast(ins);
    }
  }

  /** Every packet that came in is freed, popped or buffered, exactly once; rebasing undone, it is the
      packet that came in. */
  lemma {:induction false} EveryPacketOnce(tracks: nat, ins: seq<Packet>, stops: seq<bool>)
    requires 1 <= tracks && |stops| == |ins|
    ensures var s := Run(tracks, ins, stops);
      && Bag(ins, NOT_TAKEN) ==
           Bag(s.freed, NOT_TAKEN) + Bag(s.popped, TakenIn(s)) + Bag(s.buffer, TakenIn(s))
      && |ins| == |s.freed| + |s.popped| + |s.buffer|
      && multiset(s.delivered) <= multiset(s.popped)
  {
    var s := Run(tracks, ins, stops);
    RunInv(tracks, ins, stops);
    assert |Bag(ins, NOT_TAKEN)| == |ins|;
  }

  /** Offsets are taken exactly when the output starts, which is before anything leaves. */
  lemma {:induction false} RebasedIffStarted(tracks: nat, ins: seq<Packet>, stops: seq<bool>)
    requires 1 <= tracks && |stops| == |ins|
    ensures var s := Run(tracks, ins, stops);
      && s.rebases == (if s.Started() then 1 else 0)
      && (!s.Started() ==> s.popped == [] && s.delivered == [])
      && (s.Started() ==> Stamped(s.popped) && Stamped(s.buffer))
  {
    RunInv(tracks, ins, stops);
  }

  /** Until a video packet is buffered the flag is clear, and all that waits is audio. */
  lemma {:induction false} OnlyAudioBeforeVideo(tracks: nat, ins: seq<Packet>, stops: seq<bool>)
    requires 1 <= tracks && |stops| == |ins|
    ensures var s := Run(tracks, ins, stops);
      !s.receivedVideo ==> forall x :: x in s.buffer ==> x.stream.Audio?
  {
    var s := Run(tracks, ins, stops);
    RunInv(tracks, ins, stops);
    FirstIdxLeast(s.buffer, Video);
  }

  /** total_frames counts the video packets that have left. */
  lemma {:induction false} FramesCounted(tracks: nat, ins: seq<Packet>, stops: seq<bool>)
    requires 1 <= tracks && |stops| == |ins|
    ensures Run(tracks, ins, stops).totalFrames == |Of(Run(tracks, ins, stops).popped, Video)|
  {
    RunInv(tracks, ins, stops);
  }

  lemma DeliveredStep(tracks: nat, s: State, p: Packet)
    requires 1 <= tracks && s.delivered == s.popped
    ensures Step(tracks, s, p, false).delivered == Step(tracks, s, p, false).popped
  {
    if !Rejects(s, p) {
      var s1 := Accept(s, p);
      InterleaverRuns.AcceptShape(s, p);
      if s1.Started() && !s.Started() {
        DeliveredStart(tracks, s1);
      }
    }
  }

  lemma DeliveredStart(tracks: nat, s: State)
    requires 1 <= tracks && s.delivered == s.popped
    ensures Start(tracks, s, false).delivered == Start(tracks, s, false).popped
  {
    var (s1, pruned) := Prune(tracks, s);
    if pruned {
      DeliveredStartPruned(tracks, s1);
    }
  }

  lemma DeliveredStartPruned(tracks: nat, s: State)
    requires 1 <= tracks && s.delivered == s.popped
    ensures StartPruned(tracks, s, false).delivered == StartPruned(tracks, s, false).popped
  {
  }

  /** An output that is not stopped hands on all that leaves. */
  lemma {:induction false} AllDelivered(tracks: nat, ins: seq<Packet>, stops: seq<bool>)
    requires 1 <= tracks && |stops| == |ins| && (forall i :: 0 <= i < |stops| ==> !stops[i])
    ensures Run(tracks, ins, stops).delivered == Run(tracks, ins, stops).popped
  {
    if ins != [] {
      var n := |ins| - 1;
      AllDelivered(tracks, ins[..n], stops[..n]);
      DeliveredStep(tracks, Run(tracks, ins[..n], stops[..n]), ins[n]);
    }
  }
}
