/** How the output starts: which packets a call on a waiting output frees, and exactly when it starts. For
    packets of any kind, in any order, and any number of tracks. */
module InterleaverStart {
  import opened Sequences
  import opened Interleaver
  import opened InterleaverBuffer
  import Runs = InterleaverRuns

  /** Every stream has a packet. */
  predicate Present(tracks: nat, b: seq<Packet>) {
    FirstIdx(b, Video) >= 0 && AllTracks(tracks, b)
  }

  // ----- where the buffer is cut

  /** The audio packet nearest to the packet at `v`, and the first among equally near ones. */
  ghost predicate Nearest(b: seq<Packet>, v: nat, a: nat)
    requires v < |b|
  {
    && a < |b| && b[a].stream.Audio?
    && (forall j :: 0 <= j < |b| && b[j].stream.Audio? ==>
          Distance(b[a].dtsUsec, b[v].dtsUsec) <= Distance(b[j].dtsUsec, b[v].dtsUsec))
    && (forall j :: 0 <= j < a && b[j].stream.Audio? ==>
          Distance(b[a].dtsUsec, b[v].dtsUsec) < Distance(b[j].dtsUsec, b[v].dtsUsec))
  }

  /** Up to the first video packet or the audio packet nearest to it, whichever comes first. */
  ghost predicate CutAtStart(b: seq<Packet>, n: nat)
    requires FirstIdx(b, Video) >= 0
  {
    exists a: nat :: Nearest(b, FirstIdx(b, Video), a) && n == if FirstIdx(b, Video) < a then FirstIdx(b, Video) else a
  }

  /** Just past the first packets of all streams. */
  ghost predicate CutPastFirsts(tracks: nat, b: seq<Packet>, n: nat) {
    && (forall st | Runs.Known(tracks, st) :: FirstIdx(b, st) < n)
    && (exists st :: Runs.Known(tracks, st) && FirstIdx(b, st) == n - 1)
  }

  ghost predicate Cut(tracks: nat, b: seq<Packet>, n: nat)
    requires 1 <= tracks && Present(tracks, b)
  {
    if Lead(b, tracks - 1) > FrameUsec(b) then CutPastFirsts(tracks, b, n) else CutAtStart(b, n)
  }

  /** The times of the packets are 64-bit numbers, and so are their distances. */
  ghost predicate Int64(b: seq<Packet>) {
    forall x, y :: x in b && y in b ==> Distance(x.dtsUsec, y.dtsUsec) < INT64_MAX
  }

  lemma {:induction false} LatestIsFirst(b: seq<Packet>, n: nat)
    ensures exists st :: Runs.Known(n, st) && FirstIdx(b, st) == LatestFirst(b, n)
  {
    if n == 0 {
      assert Runs.Known(0, Video) && FirstIdx(b, Video) == LatestFirst(b, 0);
    } else if FirstIdx(b, Audio(n - 1)) > LatestFirst(b, n - 1) {
      assert Runs.Known(n, Audio(n - 1)) && FirstIdx(b, Audio(n - 1)) == LatestFirst(b, n);
    } else {
      LatestIsFirst(b, n - 1);
      var st :| Runs.Known(n - 1, st) && FirstIdx(b, st) == LatestFirst(b, n - 1);
      assert Runs.Known(n, st) && FirstIdx(b, st) == LatestFirst(b, n);
    }
  }

  lemma {:induction false} PastFirsts(tracks: nat, b: seq<Packet>)
    requires 1 <= tracks && Present(tracks, b)
    ensures CutPastFirsts(tracks, b, LatestFirst(b, tracks) + 1)
  {
    LatestIsFirst(b, tracks);
    forall st | Runs.Known(tracks, st)
      ensures FirstIdx(b, st) < LatestFirst(b, tracks) + 1
    {
      LatestFirstIsPastAll(b, tracks, st);
    }
  }

  lemma {:induction false} ClosestFound(b: seq<Packet>, v: nat, audio: nat)
    requires v < |b| && audio < |b| && b[audio].stream.Audio? && Int64(b)
    ensures Nearest(b, v, Closest(b, b[v].dtsUsec, |b|).0)
  {
    ClosestIsNearest(b, b[v].dtsUsec, |b|);
    assert b[audio] in b && b[v] in b;
    assert Distance(b[audio].dtsUsec, b[v].dtsUsec) < INT64_MAX;
  }

  lemma PruneCuts(tracks: nat, b: seq<Packet>)
    requires 1 <= tracks && Present(tracks, b) && Int64(b)
    ensures Cut(tracks, b, PruneIdx(tracks, b))
  {
    if Lead(b, tracks - 1) > FrameUsec(b) {
      PastFirsts(tracks, b);
    } else {
      ClosestFound(b, FirstIdx(b, Video), FirstIdx(b, Audio(0)));
      assert Nearest(b, FirstIdx(b, Video), Closest(b, b[FirstIdx(b, Video)].dtsUsec, |b|).0);
    }
  }

  // ----- one call on a waiting output

  /** A video packet that is no keyframe finds no video in the buffer: it is freed, and with it the audio
      in front that is earlier. */
  ghost predicate Turned(before: State, p: Packet, after: State) {
    && !after.Started()
    && exists n: nat ::
         && n <= |before.buffer| && after.buffer == before.buffer[n..]
         && after.freed == before.freed + before.buffer[..n] + [p]
         && (forall i :: 0 <= i < n ==> before.buffer[i].dtsUsec < p.dtsUsec)
         && (n < |before.buffer| ==> p.dtsUsec <= before.buffer[n].dtsUsec)
  }

  /** With a stream missing nothing is freed. Otherwise the buffer is cut, and the output starts exactly if
      every stream still has a packet. */
  ghost predicate Attempted(tracks: nat, before: State, b: seq<Packet>, after: State)
    requires 1 <= tracks
  {
    if !Present(tracks, b) then
      !after.Started() && after.buffer == b && after.freed == before.freed
    else
      exists n: nat ::
        && n <= |b| && Cut(tracks, b, n) && after.freed == before.freed + b[..n]
        && (after.Started() <==> Present(tracks, b[n..]))
        && (!after.Started() ==> after.buffer == b[n..])
  }

  ghost predicate CallRight(tracks: nat, before: State, p: Packet, after: State)
    requires 1 <= tracks
  {
    if p.stream.Video? && !p.keyframe && FirstIdx(before.buffer, Video) < 0
    then Turned(before, p, after)
    else Attempted(tracks, before, Insert(before.buffer, p), after)
  }

  /** The flags of a waiting output: video has been received exactly while some is buffered, and while the
      audio flag is clear some track is missing. */
  ghost predicate Flagged(tracks: nat, s: State) {
    !s.Started() ==>
      && (s.receivedVideo <==> FirstIdx(s.buffer, Video) >= 0)
      && (!s.receivedAudio ==> !AllTracks(tracks, s.buffer))
  }

  lemma RejectTurns(s: State, p: Packet)
    requires Rejects(s, p)
    ensures Turned(s, p, Reject(s, p))
  {
    var n := CountBelow(s.buffer, p.dtsUsec);
    assert Reject(s, p).buffer == s.buffer[n..];
  }

  lemma StartPrunedStarts(tracks: nat, s: State, stopped: bool)
    requires 1 <= tracks && s.Started()
    ensures var after := StartPruned(tracks, s, stopped);
      && after.freed == s.freed && (after.Started() <==> Present(tracks, s.buffer))
      && (!after.Started() ==> after.buffer == s.buffer && Flagged(tracks, after))
  {
  }

  lemma StartAttempts(tracks: nat, before: State, s: State, stopped: bool)
    requires 1 <= tracks && s.Started() && s.freed == before.freed && Int64(s.buffer)
    ensures var after := Start(tracks, s, stopped);
            Attempted(tracks, before, s.buffer, after) && Flagged(tracks, after)
  {
    var b := s.buffer;
    if Present(tracks, b) {
      var n := PruneIdx(tracks, b);
      PruneCuts(tracks, b);
      StartPrunedStarts(tracks, DiscardTo(s, n), stopped);
      assert Cut(tracks, b, n);
    }
  }

  lemma {:induction false} InsertHas(b: seq<Packet>, p: Packet, st: Stream)
    ensures FirstIdx(Insert(b, p), st) >= 0 <==> FirstIdx(b, st) >= 0 || p.stream == st
  {
    var b' := Insert(b, p);
    InsertMembers(b, p);
    FirstIdxLeast(b, st);
    FirstIdxLeast(b', st);
    if FirstIdx(b, st) >= 0 {
      assert b[FirstIdx(b, st)] in b';
    }
    if p.stream == st {
      assert p in b';
    }
    if FirstIdx(b', st) >= 0 {
      assert b'[FirstIdx(b', st)] in b';
    }
  }

  lemma InsertTracks(tracks: nat, b: seq<Packet>, p: Packet)
    requires p.stream.Video?
    ensures AllTracks(tracks, Insert(b, p)) <==> AllTracks(tracks, b)
  {
    forall t: nat | t < tracks
      ensures FirstIdx(Insert(b, p), Audio(t)) >= 0 <==> FirstIdx(b, Audio(t)) >= 0
    {
      InsertHas(b, p, Audio(t));
    }
  }

  lemma AcceptFlagged(tracks: nat, s: State, p: Packet)
    requires 1 <= tracks && !s.Started() && Flagged(tracks, s)
    ensures var s' := Accept(s, p);
      && s'.buffer == Insert(s.buffer, p) && s'.freed == s.freed
      && (s'.receivedVideo <==> FirstIdx(s'.buffer, Video) >= 0)
      && (!s'.receivedAudio ==> !AllTracks(tracks, s'.buffer))
  {
    Runs.AcceptShape(s, p);
    InsertHas(s.buffer, p, Video);
    if p.stream.Video? {
      InsertTracks(tracks, s.buffer, p);
    }
  }

  lemma DiscardTracks(tracks: nat, b: seq<Packet>, n: nat)
    requires n <= |b| && !AllTracks(tracks, b)
    ensures !AllTracks(tracks, b[n..])
  {
    var t: nat :| t < tracks && FirstIdx(b, Audio(t)) < 0;
    FirstIdxLeast(b, Audio(t));
    assert forall i :: 0 <= i < |b[n..]| ==> b[n..][i] == b[n + i];
    assert FirstIdx(b[n..], Audio(t)) < 0;
  }

  lemma WaitingCall(tracks: nat, s: State, p: Packet, stopped: bool)
    requires 1 <= tracks && !s.Started() && Flagged(tracks, s) && Int64(s.buffer + [p])
    ensures var after := Step(tracks, s, p, stopped);
            CallRight(tracks, s, p, after) && Flagged(tracks, after)
  {
    if Rejects(s, p) {
      RejectTurns(s, p);
      var n := CountBelow(s.buffer, p.dtsUsec);
      Runs.NoVideoBelow(s, n);
      if !s.receivedAudio {
        DiscardTracks(tracks, s.buffer, n);
      }
    } else {
      AcceptFlagged(tracks, s, p);
      InsertMembers(s.buffer, p);
      var s1 := Accept(s, p);
      if s1.Started() {
        StartAttempts(tracks, s, s1, stopped);
      }
    }
  }

  // ----- whole runs

  /** What waits in the buffer has come in as it is. */
  ghost predicate Unchanged(ins: seq<Packet>, s: State) {
    !s.Started() ==> forall x :: x in s.buffer ==> x in ins
  }

  lemma CallUnchanged(tracks: nat, ins: seq<Packet>, s: State, p: Packet, after: State)
    requires 1 <= tracks && !s.Started() && Unchanged(ins, s) && CallRight(tracks, s, p, after)
    ensures Unchanged(ins + [p], after)
  {
    InsertMembers(s.buffer, p);
  }

  lemma Int64Part(ins: seq<Packet>, b: seq<Packet>)
    requires Int64(ins) && forall x :: x in b ==> x in ins
    ensures Int64(b)
  {
  }

  lemma Int64Grows(ins: seq<Packet>, b: seq<Packet>, p: Packet)
    requires Int64(ins + [p]) && forall x :: x in b ==> x in ins
    ensures Int64(b + [p])
  {
    Int64Part(ins + [p], b + [p]);
  }

  lemma StepWaits(tracks: nat, ins: seq<Packet>, s: State, p: Packet, stopped: bool)
    requires 1 <= tracks && Int64(ins + [p]) && Flagged(tracks, s) && Unchanged(ins, s)
    ensures var after := Step(tracks, s, p, stopped);
      && Flagged(tracks, after) && Unchanged(ins + [p], after)
      && (if s.Started() then after.Started() && after.freed == s.freed else CallRight(tracks, s, p, after))
  {
    if s.Started() {
      Runs.StartedStep(tracks, s, p, stopped);
    } else {
      Int64Grows(ins, s.buffer, p);
      WaitingCall(tracks, s, p, stopped);
      CallUnchanged(tracks, ins, s, p, Step(tracks, s, p, stopped));
    }
  }

  lemma {:induction false} RunWaits(tracks: nat, ins: seq<Packet>, stops: seq<bool>)
    requires 1 <= tracks && |stops| == |ins| && Int64(ins)
    ensures Flagged(tracks, Run(tracks, ins, stops)) && Unchanged(ins, Run(tracks, ins, stops))
  {
    if ins != [] {
      var n := |ins| - 1;
      Int64Part(ins, ins[..n]);
      RunWaits(tracks, ins[..n], stops[..n]);
      RunWaitsStep(tracks, ins, stops, Run(tracks, ins[..n], stops[..n]));
    } else {
      NoTracks(tracks);
    }
  }

  lemma NoTracks(tracks: nat)
    requires 1 <= tracks
    ensures Flagged(tracks, FRESH) && Unchanged([], FRESH)
  {
    assert FirstIdx([], Audio(0)) < 0;
  }

  lemma {:induction false} RunWaitsStep(tracks: nat, ins: seq<Packet>, stops: seq<bool>, s: State)
    requires 1 <= tracks && |stops| == |ins| > 0 && Int64(ins)
    requires s == Run(tracks, ins[..|ins| - 1], stops[..|ins| - 1])
    requires Flagged(tracks, s) && Unchanged(ins[..|ins| - 1], s)
    ensures Flagged(tracks, Run(tracks, ins, stops)) && Unchanged(ins, Run(tracks, ins, stops))
  {
    var n := |ins| - 1;
    SplitLast(ins);
    SplitLast(stops);
    Runs.RunUnfold(tracks, ins[..n], ins[n], stops[..n], stops[n]);
    StepWaits(tracks, ins[..n], s, ins[n], stops[n]);
  }

  /** Every call of every run: a waiting output frees what is said above and starts exactly then; a running
      one goes on running and frees nothing. */
  lemma {:induction false} EveryCallStarts(tracks: nat, ins: seq<Packet>, stops: seq<bool>, k: nat)
    requires 1 <= tracks && |stops| == |ins| && Int64(ins) && k < |ins|
    ensures var before, after := Run(tracks, ins[..k], stops[..k]), Run(tracks, ins[..k + 1], stops[..k + 1]);
            if before.Started() then after.Started() && after.freed == before.freed
            else CallRight(tracks, before, ins[k], after)
  {
    TakeNext(ins, k);
    TakeNext(stops, k);
    Int64Part(ins, ins[..k]);
    Int64Part(ins, ins[..k + 1]);
    RunWaits(tracks, ins[..k], stops[..k]);
    Runs.RunUnfold(tracks, ins[..k], ins[k], stops[..k], stops[k]);
    StepWaits(tracks, ins[..k], Run(tracks, ins[..k], stops[..k]), ins[k], stops[k]);
  }
}
