/** A start-up that the test of the last track lets through: two audio tracks, of which the first is a
    second late. The run is followed packet by packet. */
module InterleaverLateTrack {
  import opened Interleaver
  import opened InterleaverBuffer
  import opened InterleaverRuns

  const VIDEO_START := Packet(Video, 0, 0, 1, 50, 0, true, [])
  const NEAR_AUDIO := Packet(Audio(1), 0, 0, 1, 48000, 0, false, [])
  const LATE_AUDIO := Packet(Audio(0), 0, 0, 1, 48000, 1000000, false, [])

  /** When the third packet has been accepted, the start-up attempt looks at these three. */
  lemma LateTrackArrives()
    ensures var s := Run(2, [VIDEO_START, NEAR_AUDIO], [false, false]);
      && !s.Started()
      && Accept(s, LATE_AUDIO) == State(true, true, 0, [0, 0, 0, 0], 1000000, 0,
                                        [VIDEO_START, NEAR_AUDIO, LATE_AUDIO], 0, 0, [], [], [])
  {
    var one := State(true, false, 0, [0, 0, 0, 0], 0, 0, [VIDEO_START], 0, 0, [], [], []);
    var two := State(true, false, 0, [0, 0, 0, 0], 0, 0, [VIDEO_START, NEAR_AUDIO], 0, 0, [], [], []);
    assert [VIDEO_START][..0] == [] && [false][..0] == [];
    assert Slot([], 0) == 0 && Accept(FRESH, VIDEO_START) == one;
    assert Run(2, [VIDEO_START], [false]) == one;
    assert [VIDEO_START][1..] == [] && Slot([VIDEO_START], 0) == 1;
    assert Accept(one, NEAR_AUDIO) == two.(receivedAudio := true);
    assert [VIDEO_START, NEAR_AUDIO][1..] == [NEAR_AUDIO] && [NEAR_AUDIO][1..] == [];
    assert FirstIdx([], Audio(0)) == -1 && FirstIdx([NEAR_AUDIO], Audio(0)) == -1;
    assert FirstIdx([VIDEO_START, NEAR_AUDIO], Audio(0)) == -1;
    assert !AllTracks(2, [VIDEO_START, NEAR_AUDIO]);
    assert [VIDEO_START, NEAR_AUDIO][..1] == [VIDEO_START] && [false, false][..1] == [false];
    assert Run(2, [VIDEO_START, NEAR_AUDIO], [false, false]) == two;
    assert Slot([NEAR_AUDIO], 1000000) == 1 && Slot([VIDEO_START, NEAR_AUDIO], 1000000) == 2;
  }

  const THREE := [VIDEO_START, NEAR_AUDIO, LATE_AUDIO]
  const RUNNING := [false, false, false]

  /** The first track is late by fifty video frames; the test, which looks at the second, finds nothing. */
  lemma LateTrackPassesTest()
    ensures FirstIdx(THREE, Video) == 0 && AllTracks(2, THREE)
    ensures Lead(THREE, 0) == 50 * FrameUsec(THREE)
    ensures PrematureIdx(2, THREE) == 0 && PruneIdx(2, THREE) == 0
  {
    assert THREE[1..] == [NEAR_AUDIO, LATE_AUDIO] && THREE[1..][1..] == [LATE_AUDIO];
    assert FirstIdx([LATE_AUDIO], Audio(0)) == 0 && FirstIdx([NEAR_AUDIO, LATE_AUDIO], Audio(0)) == 1;
    assert FirstIdx(THREE, Audio(1)) == 1 && FirstIdx(THREE, Audio(0)) == 2;
    assert FrameUsec(THREE) == 20000;
  }

  lemma UnprunedStarts(tracks: nat, s: State, stopped: bool)
    requires 1 <= tracks && s.Started() && FirstIdx(s.buffer, Video) >= 0 && AllTracks(tracks, s.buffer)
    requires PruneIdx(tracks, s.buffer) == 0
    ensures Start(tracks, s, stopped).Started()
  {
    assert DiscardTo(s, 0).buffer == s.buffer;
  }

  lemma ThreeArrived()
    ensures Run(2, THREE, RUNNING) ==
      Start(2, Accept(Run(2, [VIDEO_START, NEAR_AUDIO], [false, false]), LATE_AUDIO), false)
  {
    LateTrackArrives();
    assert THREE[..2] == [VIDEO_START, NEAR_AUDIO] && RUNNING[..2] == [false, false];
  }

  lemma {:induction false} OfAlone(a: seq<Packet>, p: Packet, c: seq<Packet>, st: Stream)
    requires p.stream == st && (forall x :: x in a || x in c ==> x.stream != st)
    ensures Of(a + [p] + c, st) == [p]
  {
    OfSplice(a, p, c, st);
    OfNone(a, st);
    OfNone(c, st);
  }

  /** A stream of one packet, in a started output. */
  lemma {:induction false} AloneKept(tracks: nat, ins: seq<Packet>, s: State, p: Packet)
    requires s.Started() && Known(tracks, p.stream)
    requires Of(ins, p.stream) == [p] && LosslessStream(tracks, ins, s, p.stream)
    ensures Out(s, p.stream) == [p.Rebased(p.dts)] && s.Offset(p.stream) == p.dts
  {
    assert [p][0..] == [p];
  }

  /** So the output starts, and the late track begins at zero like every other: the second is lost. */
  lemma LateTrackGoesUnnoticed()
    ensures var s := Run(2, THREE, RUNNING);
      && s.Started()
      && Out(s, Video) == [VIDEO_START.Rebased(0)] && Out(s, Audio(0)) == [LATE_AUDIO.Rebased(0)]
    ensures LATE_AUDIO.dtsUsec - VIDEO_START.dtsUsec == MICROSECOND_DEN
    ensures LATE_AUDIO.Rebased(0).dtsUsec == VIDEO_START.Rebased(0).dtsUsec == 0
  {
    LateTrackStarts();
    ThreeStreams();
    AllKept(THREE, RUNNING, Run(2, THREE, RUNNING));
  }

  lemma LateTrackStarts()
    ensures Run(2, THREE, RUNNING).Started()
  {
    ThreeArrived();
    LateTrackArrives();
    LateTrackPassesTest();
    UnprunedStarts(2, Accept(Run(2, [VIDEO_START, NEAR_AUDIO], [false, false]), LATE_AUDIO), false);
  }

  lemma ThreeStreams()
    ensures Ordered(THREE)
    ensures Of(THREE, Video) == [VIDEO_START] && Of(THREE, Audio(0)) == [LATE_AUDIO]
  {
    OfAlone([], VIDEO_START, [NEAR_AUDIO, LATE_AUDIO], Video);
    OfAlone([VIDEO_START, NEAR_AUDIO], LATE_AUDIO, [], Audio(0));
    assert [] + [VIDEO_START] + [NEAR_AUDIO, LATE_AUDIO] == THREE;
    assert [VIDEO_START, NEAR_AUDIO] + [LATE_AUDIO] + [] == THREE;
  }

  lemma {:induction false} AllKept(ins: seq<Packet>, stops: seq<bool>, s: State)
    requires |stops| == |ins| && Ordered(ins) && s == Run(2, ins, stops) && s.Started()
    requires Of(ins, Video) == [VIDEO_START] && Of(ins, Audio(0)) == [LATE_AUDIO]
    ensures Out(s, Video) == [VIDEO_START.Rebased(0)] && Out(s, Audio(0)) == [LATE_AUDIO.Rebased(0)]
  {
    LosslessInOrder(2, ins, stops);
    AloneKept(2, ins, s, VIDEO_START);
    AloneKept(2, ins, s, LATE_AUDIO);
  }
}
