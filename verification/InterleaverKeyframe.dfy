/** The first video packet that is kept is a keyframe, unless a premature start has cut the keyframe away
    and left a later packet: a run in which that happens, and exactly when a call does it. */
module InterleaverKeyframe {
  import opened Sequences
  import opened Interleaver
  import opened InterleaverBuffer
  import opened InterleaverRuns
  import opened InterleaverStart

  /** The first packet of the video encoder that has not been freed. */
  ghost predicate FirstKeptIsKey(ins: seq<Packet>, s: State) {
    var all, k := Of(ins, Video), |Of(s.freed, Video)|;
    k < |all| ==> all[k].keyframe
  }

  /** The call finds every stream in the buffer, and the last track more than a video frame late. */
  ghost predicate CutsPremature(tracks: nat, before: State, p: Packet)
    requires 1 <= tracks
  {
    && !before.Started()
    && !(p.stream.Video? && !p.keyframe && FirstIdx(before.buffer, Video) < 0)
    && var b := Insert(before.buffer, p);
       Present(tracks, b) && Lead(b, tracks - 1) > FrameUsec(b)
  }

  lemma {:induction false} NoVideoCut(b: seq<Packet>, n: nat)
    requires n <= |b| && (FirstIdx(b, Video) < 0 || n <= FirstIdx(b, Video))
    ensures Of(b[..n], Video) == []
  {
    FirstIdxLeast(b, Video);
    OfNone(b[..n], Video);
  }

  lemma {:induction false} FreedGrows(freed: seq<Packet>, cut: seq<Packet>)
    requires Of(cut, Video) == []
    ensures Of(freed + cut, Video) == Of(freed, Video)
  {
    OfConcat(freed, cut, Video);
  }

  /** As long as the freed video packets are the same, the first one kept is, too; only an empty buffer takes
      a new one, which then is a keyframe. */
  lemma SameFreed(tracks: nat, ins: seq<Packet>, s: State, p: Packet, after: State)
    requires LosslessStream(tracks, ins, s, Video) && FirstKeptIsKey(ins, s)
    requires |Of(after.freed, Video)| == |Of(s.freed, Video)|
    requires s.Started() || !(p.stream.Video? && !p.keyframe && FirstIdx(s.buffer, Video) < 0)
    ensures FirstKeptIsKey(ins + [p], after)
  {
    InputGrows(ins, p, Video);
    OfEmpty(s.buffer, Video);
  }

  lemma TurnedKeeps(tracks: nat, ins: seq<Packet>, s: State, p: Packet, after: State)
    requires !s.Started() && LosslessStream(tracks, ins, s, Video)
    requires p.stream.Video? && FirstIdx(s.buffer, Video) < 0 && Turned(s, p, after)
    ensures FirstKeptIsKey(ins + [p], after)
  {
    var n: nat :| n <= |s.buffer| && after.freed == s.freed + s.buffer[..n] + [p];
    NoVideoCut(s.buffer, n);
    FreedGrows(s.freed, s.buffer[..n]);
    InputGrows(s.freed + s.buffer[..n], p, Video);
    InputGrows(ins, p, Video);
    OfEmpty(s.buffer, Video);
  }

  lemma {:induction false} CutKeeps(tracks: nat, b: seq<Packet>, n: nat, freed: seq<Packet>)
    requires 1 <= tracks && Present(tracks, b) && n <= |b| && Cut(tracks, b, n)
    requires Lead(b, tracks - 1) <= FrameUsec(b)
    ensures Of(freed + b[..n], Video) == Of(freed, Video)
  {
    NoVideoCut(b, n);
    FreedGrows(freed, b[..n]);
  }

  lemma CallKeeps(tracks: nat, ins: seq<Packet>, s: State, p: Packet, after: State)
    requires 1 <= tracks && LosslessStream(tracks, ins, s, Video) && FirstKeptIsKey(ins, s)
    requires if s.Started() then after.freed == s.freed else CallRight(tracks, s, p, after)
    requires !CutsPremature(tracks, s, p)
    ensures FirstKeptIsKey(ins + [p], after)
  {
    if s.Started() {
      SameFreed(tracks, ins, s, p, after);
    } else if p.stream.Video? && !p.keyframe && FirstIdx(s.buffer, Video) < 0 {
      TurnedKeeps(tracks, ins, s, p, after);
    } else {
      var b := Insert(s.buffer, p);
      if Present(tracks, b) {
        var n: nat :| n <= |b| && Cut(tracks, b, n) && after.freed == s.freed + b[..n];
        CutKeeps(tracks, b, n, s.freed);
      }
      SameFreed(tracks, ins, s, p, after);
    }
  }

  /** If no call of the run cuts the buffer as premature, the first video packet kept is a keyframe. */
  lemma {:induction false} KeyframeFirst(tracks: nat, ins: seq<Packet>, stops: seq<bool>)
    requires 1 <= tracks <= MAX_AUDIO_MIXES && |stops| == |ins| && Ordered(ins) && Int64(ins)
    requires forall k :: 0 <= k < |ins| ==> !CutsPremature(tracks, Run(tracks, ins[..k], stops[..k]), ins[k])
    ensures FirstKeptIsKey(ins, Run(tracks, ins, stops))
  {
    if ins != [] {
      var n := |ins| - 1;
      OrderedPrefix(ins, n);
      Int64Part(ins, ins[..n]);
      PrefixesPremature(tracks, ins, stops, n);
      KeyframeFirst(tracks, ins[..n], stops[..n]);
      LosslessInOrder(tracks, ins[..n], stops[..n]);
      EveryCallStarts(tracks, ins, stops, n);
      TakeAll(ins);
      TakeAll(stops);
      SplitLast(ins);
      CallKeeps(tracks, ins[..n], Run(tracks, ins[..n], stops[..n]), ins[n], Run(tracks, ins, stops));
    }
  }

  lemma PrefixesPremature(tracks: nat, ins: seq<Packet>, stops: seq<bool>, n: nat)
    requires 1 <= tracks && |stops| == |ins| && n <= |ins|
    requires forall k :: 0 <= k < |ins| ==> !CutsPremature(tracks, Run(tracks, ins[..k], stops[..k]), ins[k])
    ensures forall k :: 0 <= k < n ==>
      !CutsPremature(tracks, Run(tracks, ins[..n][..k], stops[..n][..k]), ins[..n][k])
  {
    forall k | 0 <= k < n
      ensures !CutsPremature(tracks, Run(tracks, ins[..n][..k], stops[..n][..k]), ins[..n][k])
    {
      PrefixOfPrefix(ins, k, n);
      PrefixOfPrefix(stops, k, n);
    }
  }

  // ----- a premature cut

  /** Behind the first packets of all streams there is video, and it does not begin with a keyframe. */
  ghost predicate BareBehind(tracks: nat, b: seq<Packet>) {
    exists n: nat ::
      && n <= |b| && CutPastFirsts(tracks, b, n)
      && FirstIdx(b[n..], Video) >= 0 && !b[n..][FirstIdx(b[n..], Video)].keyframe
  }

  lemma OneCut(tracks: nat, b: seq<Packet>, n: nat, m: nat)
    requires CutPastFirsts(tracks, b, n) && CutPastFirsts(tracks, b, m)
    ensures n == m
  {
  }

  /** The video packets that have come in are those freed before and those of the buffer with the new one. */
  lemma {:induction false} VideoInBuffer(tracks: nat, ins: seq<Packet>, s: State, p: Packet)
    requires !s.Started() && Ordered(ins + [p]) && Inv(tracks, ins, s)
    ensures Of(ins + [p], Video) == Of(s.freed, Video) + Of(Insert(s.buffer, p), Video)
  {
    assert StreamLineage(ins, s, Video, false);
    OwnStreamOlder(ins, s, p, false);
    InsertOf(s.buffer, p, Video);
    InputGrows(ins, p, Video);
    var all, k := Of(ins, Video), |Of(s.freed, Video)|;
    assert all == all[..k] + all[k..];
    assert Out(s, Video) == Of(s.buffer, Video);
    Regroup(Of(s.freed, Video), Of(s.buffer, Video), if p.stream == Video then [p] else []);
  }

  lemma {:induction false} CutKept(all: seq<Packet>, freed: seq<Packet>, b: seq<Packet>, n: nat)
    requires n <= |b| && all == Of(freed, Video) + Of(b, Video)
    ensures var k := |Of(freed + b[..n], Video)|;
      && k <= |all| && all[k..] == Of(b[n..], Video)
  {
    OfConcat(freed, b[..n], Video);
    OfTail(b, n, Video);
    Regroup(Of(freed, Video), Of(b[..n], Video), Of(b[n..], Video));
  }

  /** A call that cuts the buffer as premature leaves a first video packet that is no keyframe exactly if the
      buffer has such a packet behind the first ones of all streams. */
  lemma PrematureIff(tracks: nat, ins: seq<Packet>, s: State, p: Packet, after: State)
    requires 1 <= tracks && Ordered(ins + [p]) && Inv(tracks, ins, s)
    requires CutsPremature(tracks, s, p) && CallRight(tracks, s, p, after)
    ensures FirstKeptIsKey(ins + [p], after) <==> !BareBehind(tracks, Insert(s.buffer, p))
  {
    var b, all := Insert(s.buffer, p), Of(ins + [p], Video);
    var n: nat :| n <= |b| && Cut(tracks, b, n) && after.freed == s.freed + b[..n];
    VideoInBuffer(tracks, ins, s, p);
    CutKept(all, s.freed, b, n);
    FirstOfRest(all, |Of(after.freed, Video)|, b[n..]);
    BareIff(tracks, b, n);
  }

  lemma BareIff(tracks: nat, b: seq<Packet>, n: nat)
    requires n <= |b| && CutPastFirsts(tracks, b, n)
    ensures BareBehind(tracks, b) <==>
            FirstIdx(b[n..], Video) >= 0 && !b[n..][FirstIdx(b[n..], Video)].keyframe
  {
    if BareBehind(tracks, b) {
      var m: nat :| m <= |b| && CutPastFirsts(tracks, b, m)
                    && FirstIdx(b[m..], Video) >= 0 && !b[m..][FirstIdx(b[m..], Video)].keyframe;
      OneCut(tracks, b, n, m);
    }
  }

  lemma {:induction false} FirstOfRest(all: seq<Packet>, k: nat, rest: seq<Packet>)
    requires k <= |all| && all[k..] == Of(rest, Video)
    ensures k < |all| <==> FirstIdx(rest, Video) >= 0
    ensures k < |all| ==> all[k] == rest[FirstIdx(rest, Video)]
  {
    OfEmpty(rest, Video);
    if k < |all| {
      OfFirst(rest, Video);
      assert all[k] == all[k..][0];
    }
  }

  // ----- a run that begins without a keyframe

  const KEY := Packet(Video, 0, 0, 1, 30, 0, true, [])
  const SECOND := Packet(Video, 1, 1, 1, 30, 33333, false, [])
  const THIRD := Packet(Video, 2, 2, 1, 30, 66666, false, [])
  const LATE := Packet(Audio(0), 0, 0, 1, 48000, 40000, false, [])
  const NEXT_AUDIO := Packet(Audio(0), 960, 960, 1, 48000, 60000, false, [])

  /** Three video packets have come, then audio that is late by more than a frame: three packets are cut. */
  lemma ThirdIsLeft()
    ensures var s := State(true, false, 0, [0, 0, 0, 0], 0, 66666, [KEY, SECOND, THIRD], 0, 0, [], [], []);
            Step(1, s, LATE, false) ==
              State(true, false, 0, [0, 0, 0, 0], 40000, 66666, [THIRD], 0, 0, [KEY, SECOND, LATE], [], [])
  {
    var s := State(true, false, 0, [0, 0, 0, 0], 0, 66666, [KEY, SECOND, THIRD], 0, 0, [], [], []);
    var b := [KEY, SECOND, LATE, THIRD];
    assert [KEY, SECOND, THIRD][1..] == [SECOND, THIRD] && [SECOND, THIRD][1..] == [THIRD];
    assert Slot([THIRD], 40000) == 0 && Slot([SECOND, THIRD], 40000) == 1;
    assert Insert([KEY, SECOND, THIRD], LATE) == b;
    assert b[1..] == [SECOND, LATE, THIRD] && [SECOND, LATE, THIRD][1..] == [LATE, THIRD];
    assert FirstIdx([LATE, THIRD], Audio(0)) == 0 && FirstIdx(b, Audio(0)) == 2;
    assert LatestFirst(b, 1) == 2 && PruneIdx(1, b) == 3;
    assert b[3..] == [THIRD] && b[..3] == [KEY, SECOND, LATE];
    assert [THIRD][1..] == [] && FirstIdx([], Audio(0)) < 0 && FirstIdx([THIRD], Audio(0)) < 0;
  }

  /** A waiting output without audio keeps the video packets in a row. */
  lemma VideoWaits(s: State, p: Packet)
    requires !s.Started() && !s.receivedAudio && p.stream == Video && (s.receivedVideo || p.keyframe)
    requires forall x :: x in s.buffer ==> x.dtsUsec <= p.dtsUsec
    ensures Step(1, s, p, false) ==
      s.(receivedVideo := true, buffer := s.buffer + [p],
         highestVideo := if s.highestVideo < p.dtsUsec then p.dtsUsec else s.highestVideo)
  {
    assert forall j :: 0 <= j < |s.buffer| ==> s.buffer[j] in s.buffer;
    assert Insert(s.buffer, p) == s.buffer + [p];
  }

  lemma TwoVideos()
    ensures Run(1, [KEY, SECOND], [false, false]) ==
      State(true, false, 0, [0, 0, 0, 0], 0, 33333, [KEY, SECOND], 0, 0, [], [], [])
  {
    VideoWaits(FRESH, KEY);
    RunUnfold(1, [], KEY, [], false);
    assert [] + [KEY] == [KEY] && [] + [false] == [false];
    VideoWaits(Run(1, [KEY], [false]), SECOND);
    RunUnfold(1, [KEY], SECOND, [false], false);
    assert [KEY] + [SECOND] == [KEY, SECOND] && [false] + [false] == [false, false];
  }

  lemma ThreeVideos()
    ensures Run(1, [KEY, SECOND, THIRD], [false, false, false]) ==
      State(true, false, 0, [0, 0, 0, 0], 0, 66666, [KEY, SECOND, THIRD], 0, 0, [], [], [])
  {
    TwoVideos();
    VideoWaits(Run(1, [KEY, SECOND], [false, false]), THIRD);
    RunUnfold(1, [KEY, SECOND], THIRD, [false, false], false);
    assert [KEY, SECOND] + [THIRD] == [KEY, SECOND, THIRD] && [false, false] + [false] == [false, false, false];
  }

  lemma ThirdStarts(s: State)
    requires s == State(true, false, 0, [0, 0, 0, 0], 40000, 66666, [THIRD], 0, 0, [KEY, SECOND, LATE], [], [])
    ensures var after := Step(1, s, NEXT_AUDIO, false);
            after.Started() && after.freed == [KEY, SECOND, LATE]
  {
    var b := [NEXT_AUDIO, THIRD];
    assert Slot([THIRD], 60000) == 0 && Insert([THIRD], NEXT_AUDIO) == b;
    assert b[1..] == [THIRD] && FirstIdx([THIRD], Video) == 0 && FirstIdx(b, Video) == 1;
    assert FirstIdx(b, Audio(0)) == 0;
    NearestInFront(b);
    assert PruneIdx(1, b) == 0;
    var s1 := Accept(s, NEXT_AUDIO);
    assert s1.buffer == b && s1.Started();
    StartsUncut(1, s1);
  }

  lemma {:induction false} NearestInFront(b: seq<Packet>)
    requires |b| == 2 && b[0].stream.Audio? && b[1].stream == Video && FirstIdx(b, Video) == 1
    requires Distance(b[0].dtsUsec, b[1].dtsUsec) < INT64_MAX
    ensures StartIdx(b) == 0
  {
    var ts := b[1].dtsUsec;
    assert Closest(b, ts, 0) == (0, INT64_MAX);
    assert Closest(b, ts, 1) == (0, Distance(b[0].dtsUsec, ts));
    assert Closest(b, ts, 2) == Closest(b, ts, 1);
  }

  lemma StartsUncut(tracks: nat, s: State)
    requires 1 <= tracks && s.Started() && Present(tracks, s.buffer) && PruneIdx(tracks, s.buffer) == 0
    ensures Start(tracks, s, false).Started() && Start(tracks, s, false).freed == s.freed
  {
    assert DiscardTo(s, 0).buffer == s.buffer && DiscardTo(s, 0).freed == s.freed;
    StartPrunedStarts(tracks, DiscardTo(s, 0), false);
  }

  const FIVE := [KEY, SECOND, THIRD, LATE, NEXT_AUDIO]
  const RUNNING := [false, false, false, false, false]

  lemma FourRun()
    ensures Run(1, [KEY, SECOND, THIRD, LATE], [false, false, false, false]) ==
      State(true, false, 0, [0, 0, 0, 0], 40000, 66666, [THIRD], 0, 0, [KEY, SECOND, LATE], [], [])
  {
    ThreeVideos();
    ThirdIsLeft();
    RunUnfold(1, [KEY, SECOND, THIRD], LATE, [false, false, false], false);
    assert [KEY, SECOND, THIRD] + [LATE] == [KEY, SECOND, THIRD, LATE];
    assert [false, false, false] + [false] == [false, false, false, false];
  }

  lemma FiveRun()
    ensures var s := Run(1, FIVE, RUNNING); s.Started() && s.freed == [KEY, SECOND, LATE]
  {
    FourRun();
    RunUnfold(1, [KEY, SECOND, THIRD, LATE], NEXT_AUDIO, [false, false, false, false], false);
    assert [KEY, SECOND, THIRD, LATE] + [NEXT_AUDIO] == FIVE;
    assert [false, false, false, false] + [false] == RUNNING;
    ThirdStarts(Run(1, [KEY, SECOND, THIRD, LATE], [false, false, false, false]));
  }

  lemma FiveVideos()
    ensures Ordered(FIVE) && Of(FIVE, Video) == [KEY, SECOND, THIRD] && Of([KEY, SECOND, LATE], Video) == [KEY, SECOND]
  {
    VideosOf([KEY, SECOND, THIRD], [LATE, NEXT_AUDIO]);
    VideosOf([KEY, SECOND], [LATE]);
    assert [KEY, SECOND, THIRD] + [LATE, NEXT_AUDIO] == FIVE && [KEY, SECOND] + [LATE] == [KEY, SECOND, LATE];
  }

  lemma {:induction false} AllOf(b: seq<Packet>)
    requires forall i :: 0 <= i < |b| ==> b[i].stream == Video
    ensures Of(b, Video) == b
  {
    if b != [] {
      AllOf(b[..|b| - 1]);
    }
  }

  lemma {:induction false} VideosOf(a: seq<Packet>, c: seq<Packet>)
    requires forall i :: 0 <= i < |a| ==> a[i].stream == Video
    requires forall i :: 0 <= i < |c| ==> c[i].stream != Video
    ensures Of(a + c, Video) == a
  {
    OfConcat(a, c, Video);
    AllOf(a);
    OfNone(c, Video);
    Regroup(a, [], []);
  }

  /** The output begins with the third packet of the video encoder, which is no keyframe. */
  lemma BeginsWithoutKeyframe()
    ensures var s := Run(1, FIVE, RUNNING);
            s.Started() && Out(s, Video) == [THIRD.Rebased(2)] && !THIRD.Rebased(2).keyframe
  {
    FiveRun();
    FiveVideos();
    LosslessInOrder(1, FIVE, RUNNING);
    LastKept(1, FIVE, Run(1, FIVE, RUNNING), [KEY, SECOND], THIRD);
  }

  lemma {:induction false} LastKept(tracks: nat, ins: seq<Packet>, s: State, freed: seq<Packet>, p: Packet)
    requires s.Started() && LosslessStream(tracks, ins, s, Video)
    requires Of(s.freed, Video) == freed && Of(ins, Video) == freed + [p]
    ensures Out(s, Video) == [p.Rebased(p.dts)]
  {
    assert (freed + [p])[|freed|..] == [p];
  }
}
