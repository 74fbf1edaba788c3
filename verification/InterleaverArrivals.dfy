/** What opens the gate of a running output, for packets of any kind, in any order, and any number of
    tracks: an arrival of the other kind since the start, or the highest timestamp left by the start. */
module InterleaverArrivals {
  import opened Sequences
  import opened Interleaver
  import opened InterleaverBuffer
  import opened InterleaverRuns
  import opened InterleaverGate

  /** A packet as it arrives at an output that has been running since the state `start`. */
  function Arrival(start: State, p: Packet): Packet {
    p.Rebased(start.Offset(p.stream))
  }

  predicate SameKind(a: Stream, b: Stream) {
    a.Video? <==> b.Video?
  }

  /** `top` is the highest timestamp of a kind: that of the start or of an arrival since, and none is higher. */
  ghost predicate HighestOf(start: State, since: seq<Packet>, st: Stream, top: int) {
    && start.Highest(st) <= top
    && (forall j :: 0 <= j < |since| && SameKind(since[j].stream, st) ==> Arrival(start, since[j]).dtsUsec <= top)
    && (top == start.Highest(st)
        || exists j :: 0 <= j < |since| && SameKind(since[j].stream, st) && Arrival(start, since[j]).dtsUsec == top)
  }

  ghost predicate HighestNow(start: State, since: seq<Packet>, s: State) {
    && s.Started() && s.videoOffset == start.videoOffset && s.audioOffsets == start.audioOffsets
    && HighestOf(start, since, Video, s.highestVideo)
    && HighestOf(start, since, Audio(0), s.highestAudio)
  }

  lemma HighestGrows(start: State, since: seq<Packet>, p: Packet, st: Stream, top: int)
    requires HighestOf(start, since, st, top)
    ensures HighestOf(start, since + [p], st,
                      if SameKind(p.stream, st) && top < Arrival(start, p).dtsUsec then Arrival(start, p).dtsUsec
                      else top)
  {
    var all := since + [p];
    assert forall j :: 0 <= j < |since| ==> all[j] == since[j];
    assert all[|since|] == p;
  }

  lemma AcceptedHighest(start: State, since: seq<Packet>, s: State, p: Packet)
    requires HighestNow(start, since, s)
    ensures HighestNow(start, since + [p], Accept(s, p))
    ensures Accept(s, p).buffer == Insert(s.buffer, Arrival(start, p))
  {
    AcceptShape(s, p);
    HighestGrows(start, since, p, Video, s.highestVideo);
    HighestGrows(start, since, p, Audio(0), s.highestAudio);
  }

  /** The gate opens exactly for such an arrival, or for what the start has left. */
  ghost predicate OpensFor(start: State, since: seq<Packet>, head: Packet) {
    || start.Opposing(head.stream) > head.dtsUsec
    || exists j :: 0 <= j < |since| && !SameKind(since[j].stream, head.stream)
                   && Arrival(start, since[j]).dtsUsec > head.dtsUsec
  }

  lemma OpensIff(start: State, since: seq<Packet>, s: State, head: Packet)
    requires HighestNow(start, since, s)
    ensures s.Opposing(head.stream) > head.dtsUsec <==> OpensFor(start, since, head)
  {
    var other := if head.stream.Video? then Audio(0) else Video;
    assert HighestOf(start, since, other, s.Opposing(head.stream));
  }

  lemma SentKeepsHighest(start: State, since: seq<Packet>, s: State, stopped: bool)
    requires HighestNow(start, since, s) && s.buffer != []
    ensures HighestNow(start, since, Send(s, stopped))
  {
  }

  ghost predicate GateExact(start: State, since: seq<Packet>, before: State, stopped: bool, after: State)
    requires since != []
  {
    var queue := Insert(before.buffer, Arrival(start, since[|since| - 1]));
    && queue != []
    && (if OpensFor(start, since, queue[0]) then HeadLeft(before, after, stopped, queue)
        else HeadStays(before, after, queue))
  }

  lemma CallExact(tracks: nat, start: State, since: seq<Packet>, s: State, p: Packet, stopped: bool)
    requires 1 <= tracks && HighestNow(start, since, s)
    ensures var after := Step(tracks, s, p, stopped);
            GateExact(start, since + [p], s, stopped, after) && HighestNow(start, since + [p], after)
  {
    var accepted := Accept(s, p);
    AcceptShape(s, p);
    AcceptedHighest(start, since, s, p);
    OpensIff(start, since + [p], accepted, accepted.buffer[0]);
    SentOrNot(accepted, Send(accepted, stopped), stopped, Video);
    SentKeepsHighest(start, since + [p], accepted, stopped);
  }

  lemma {:induction false} RunHighest(tracks: nat, ins: seq<Packet>, stops: seq<bool>, k: nat)
    requires 1 <= tracks && |stops| == |ins| && k <= |ins| && Run(tracks, ins[..k], stops[..k]).Started()
    ensures HighestNow(Run(tracks, ins[..k], stops[..k]), ins[k..], Run(tracks, ins, stops))
  {
    if k == |ins| {
      TakeAll(ins);
      TakeAll(stops);
    } else {
      var n := |ins| - 1;
      PrefixOfPrefix(ins, k, n);
      PrefixOfPrefix(stops, k, n);
      RunHighest(tracks, ins[..n], stops[..n], k);
      RunLast(tracks, ins, stops, k);
      CallExact(tracks, Run(tracks, ins[..k], stops[..k]), ins[..n][k..], Run(tracks, ins[..n], stops[..n]),
                ins[n], stops[n]);
    }
  }

  lemma {:induction false} RunLast(tracks: nat, ins: seq<Packet>, stops: seq<bool>, k: nat)
    requires 1 <= tracks && |stops| == |ins| && k < |ins|
    ensures var n := |ins| - 1;
      && Run(tracks, ins, stops) == Step(tracks, Run(tracks, ins[..n], stops[..n]), ins[n], stops[n])
      && ins[..n][k..] + [ins[n]] == ins[k..]
  {
    SplitLast(ins);
    SplitLast(stops);
    RunUnfold(tracks, ins[..|ins| - 1], ins[|ins| - 1], stops[..|ins| - 1], stops[|ins| - 1]);
  }

  /** Once a run has started, every call sends the head exactly if a packet of the other kind that has come
      since is later than it, or the highest timestamp of that kind was when the run started. */
  lemma {:induction false} GateExactInRuns(tracks: nat, ins: seq<Packet>, stops: seq<bool>, k: nat,
                                           p: Packet, stopped: bool)
    requires 1 <= tracks && |stops| == |ins| && k <= |ins| && Run(tracks, ins[..k], stops[..k]).Started()
    ensures GateExact(Run(tracks, ins[..k], stops[..k]), ins[k..] + [p], Run(tracks, ins, stops), stopped,
                      Run(tracks, ins + [p], stops + [stopped]))
  {
    RunHighest(tracks, ins, stops, k);
    RunUnfold(tracks, ins, p, stops, stopped);
    LastExact(tracks, Run(tracks, ins[..k], stops[..k]), ins[k..], Run(tracks, ins, stops), p, stopped,
              ins[k..] + [p], Run(tracks, ins + [p], stops + [stopped]));
  }

  lemma LastExact(tracks: nat, start: State, since: seq<Packet>, before: State, p: Packet, stopped: bool,
                  all: seq<Packet>, after: State)
    requires 1 <= tracks && HighestNow(start, since, before)
    requires after == Step(tracks, before, p, stopped) && all == since + [p]
    ensures GateExact(start, all, before, stopped, after)
  {
    CallExact(tracks, start, since, before, p, stopped);
  }
}
