/** How an encoder stamps its packets with system time, and what that gives the interleaver. */
module EncoderClock {
  import opened CDivision
  import opened Interleaver
  import Runs = InterleaverRuns
  import Order = InterleaverOrder

  /** The part of an encoder that do_encode uses; `startTs` is set before the first packet. */
  datatype Clock = Clock(firstReceived: bool, offsetUsec: int, startTs: nat)

  /** An audio encoder is marked as having received data before it encodes anything, so its own first
      dts is never subtracted. */
  function AudioClock(startTs: nat): Clock {
    Clock(true, 0, startTs)
  }

  function VideoClock(startTs: nat): Clock {
    Clock(false, 0, startTs)
  }

  function Received(c: Clock, raw: Packet): Clock {
    if c.firstReceived then c else c.(offsetUsec := raw.Usec(), firstReceived := true)
  }

  function Stamp(c: Clock, raw: Packet): Packet {
    raw.(dtsUsec := c.startTs / 1000 + raw.Usec() - Received(c, raw).offsetUsec)
  }

  datatype Clocks = Clocks(video: Clock, audio: seq<Clock>) {
    function Of(st: Stream): Clock
      requires Runs.Known(|audio|, st)
    {
      if st.Video? then video else audio[st.track]
    }

    function With(st: Stream, c: Clock): (r: Clocks)
      requires Runs.Known(|audio|, st)
      ensures |r.audio| == |audio|
      ensures forall t :: Runs.Known(|audio|, t) ==> r.Of(t) == if t == st then c else Of(t)
    {
      if st.Video? then this.(video := c) else this.(audio := audio[st.track := c])
    }
  }

  predicate KnownAll(tracks: nat, raws: seq<Packet>) {
    forall i :: 0 <= i < |raws| ==> Runs.Known(tracks, raws[i].stream)
  }

  /** The encoders' clocks after a run of packets, and the packets as they were stamped. */
  ghost function After(cs: Clocks, raws: seq<Packet>): (r: Clocks)
    requires KnownAll(|cs.audio|, raws)
    ensures |r.audio| == |cs.audio|
  {
    if raws == [] then cs
    else
      var last := raws[|raws| - 1];
      var before := After(cs, raws[..|raws| - 1]);
      before.With(last.stream, Received(before.Of(last.stream), last))
  }

  ghost function Stamped(cs: Clocks, raws: seq<Packet>): (r: seq<Packet>)
    requires KnownAll(|cs.audio|, raws)
    ensures |r| == |raws|
  {
    if raws == [] then []
    else
      var last := raws[|raws| - 1];
      Stamped(cs, raws[..|raws| - 1]) + [Stamp(After(cs, raws[..|raws| - 1]).Of(last.stream), last)]
  }

  // ---------------------------------------------------------------- one constant per encoder

  /** The dts of the packets of one encoder never decrease, and they share a time base. */
  predicate Encoded(p: Packet, q: Packet) {
    p.stream == q.stream ==> p.den == q.den && p.dts <= q.dts
  }

  ghost predicate InOrder(raws: seq<Packet>) {
    forall i, j :: 0 <= i < j < |raws| ==> Encoded(raws[i], raws[j])
  }

  /** Once an encoder has received something its clock stands still. */
  lemma {:induction false} ClockStands(cs: Clocks, raws: seq<Packet>, k: nat, st: Stream)
    requires KnownAll(|cs.audio|, raws) && k <= |raws| && Runs.Known(|cs.audio|, st)
    requires After(cs, raws[..k]).Of(st).firstReceived
    ensures After(cs, raws).Of(st) == After(cs, raws[..k]).Of(st)
    decreases |raws| - k
  {
    if k == |raws| {
      assert raws[..k] == raws;
    } else {
      assert raws[..k + 1][..k] == raws[..k];
      ClockStands(cs, raws, k + 1, st);
    }
  }

  lemma {:induction false} StartStands(cs: Clocks, raws: seq<Packet>, st: Stream)
    requires KnownAll(|cs.audio|, raws) && Runs.Known(|cs.audio|, st)
    ensures After(cs, raws).Of(st).startTs == cs.Of(st).startTs
  {
    if raws != [] {
      StartStands(cs, raws[..|raws| - 1], st);
    }
  }

  lemma {:induction false} StampedAt(cs: Clocks, raws: seq<Packet>, i: nat)
    requires KnownAll(|cs.audio|, raws) && i < |raws|
    ensures Stamped(cs, raws)[i] == Stamp(After(cs, raws[..i]).Of(raws[i].stream), raws[i])
  {
    if i < |raws| - 1 {
      assert raws[..|raws| - 1][..i] == raws[..i];
      StampedAt(cs, raws[..|raws| - 1], i);
    }
  }

  /** A packet and a later one of the same encoder are stamped with the same offset. */
  lemma {:induction false} SameOffset(cs: Clocks, raws: seq<Packet>, i: nat, j: nat)
    requires KnownAll(|cs.audio|, raws) && i < j < |raws| && raws[i].stream == raws[j].stream
    ensures var st := raws[i].stream;
            Received(After(cs, raws[..i]).Of(st), raws[i]) == Received(After(cs, raws[..j]).Of(st), raws[j])
  {
    var st := raws[i].stream;
    assert raws[..i + 1][..i] == raws[..i];
    assert raws[..j][..i + 1] == raws[..i + 1];
    ClockStands(cs, raws[..j], i + 1, st);
  }

  lemma UsecMonotone(p: Packet, q: Packet)
    requires p.stream == q.stream && Encoded(p, q)
    ensures p.Usec() <= q.Usec()
  {
    QuotMonotone(p.dts * MICROSECOND_DEN, q.dts * MICROSECOND_DEN, p.den);
  }

  /** An encoder that takes its offset from its first packet took it from one of its packets. */
  lemma {:induction false} OffsetOfSome(cs: Clocks, raws: seq<Packet>, st: Stream) returns (k: nat)
    requires KnownAll(|cs.audio|, raws) && Runs.Known(|cs.audio|, st)
    requires !cs.Of(st).firstReceived && After(cs, raws).Of(st).firstReceived
    ensures k < |raws| && raws[k].stream == st && After(cs, raws).Of(st).offsetUsec == raws[k].Usec()
  {
    var last := |raws| - 1;
    if After(cs, raws[..last]).Of(st).firstReceived {
      k := OffsetOfSome(cs, raws[..last], st);
    } else {
      k := last;
    }
  }

  /** No packet of such an encoder is stamped earlier than the encoder started. */
  lemma {:induction false} VideoNotBeforeStart(cs: Clocks, raws: seq<Packet>, i: nat)
    requires KnownAll(|cs.audio|, raws) && InOrder(raws) && i < |raws|
    requires !cs.Of(raws[i].stream).firstReceived
    ensures Stamped(cs, raws)[i].dtsUsec >= cs.Of(raws[i].stream).startTs / 1000
  {
    var st := raws[i].stream;
    StampedAt(cs, raws, i);
    StartStands(cs, raws[..i], st);
    if After(cs, raws[..i]).Of(st).firstReceived {
      var k := OffsetOfSome(cs, raws[..i], st);
      assert Encoded(raws[k], raws[i]);
      UsecMonotone(raws[k], raws[i]);
    }
  }

  /** The packets of an encoder marked in advance keep their own time. */
  lemma {:induction false} AudioKeepsTime(cs: Clocks, raws: seq<Packet>, i: nat)
    requires KnownAll(|cs.audio|, raws) && i < |raws|
    requires cs.Of(raws[i].stream) == AudioClock(cs.Of(raws[i].stream).startTs)
    ensures Stamped(cs, raws)[i].dtsUsec == cs.Of(raws[i].stream).startTs / 1000 + raws[i].Usec()
  {
    StampedAt(cs, raws, i);
    assert raws[..i][..0] == [];
    ClockStands(cs, raws[..i], 0, raws[i].stream);
  }

  lemma {:induction false} Untouched(cs: Clocks, raws: seq<Packet>, st: Stream)
    requires KnownAll(|cs.audio|, raws) && Runs.Known(|cs.audio|, st)
    requires forall i :: 0 <= i < |raws| ==> raws[i].stream != st
    ensures After(cs, raws).Of(st) == cs.Of(st)
  {
    if raws != [] {
      Untouched(cs, raws[..|raws| - 1], st);
    }
  }

  /** The packets of a fresh encoder are stamped with the time passed since its first one, counted from the
      encoder's start. */
  lemma {:induction false} VideoFromFirst(cs: Clocks, raws: seq<Packet>, k: nat, i: nat)
    requires KnownAll(|cs.audio|, raws) && k <= i < |raws| && raws[k].stream == raws[i].stream
    requires forall j :: 0 <= j < k ==> raws[j].stream != raws[k].stream
    requires !cs.Of(raws[k].stream).firstReceived
    ensures Stamped(cs, raws)[i].dtsUsec ==
            cs.Of(raws[k].stream).startTs / 1000 + raws[i].Usec() - raws[k].Usec()
  {
    var st := raws[k].stream;
    StampedAt(cs, raws, i);
    StartStands(cs, raws[..i], st);
    Untouched(cs, raws[..k], st);
    if k < i {
      SameOffset(cs, raws, k, i);
    }
  }

  lemma {:induction false} StampedFollows(cs: Clocks, raws: seq<Packet>, i: nat, j: nat)
    requires KnownAll(|cs.audio|, raws) && InOrder(raws) && i < j < |raws|
    ensures Runs.Follows(Stamped(cs, raws)[i], Stamped(cs, raws)[j])
  {
    StampedAt(cs, raws, i);
    StampedAt(cs, raws, j);
    assert Encoded(raws[i], raws[j]);
    if raws[i].stream == raws[j].stream {
      SameOffset(cs, raws, i, j);
      StartStands(cs, raws[..i], raws[i].stream);
      StartStands(cs, raws[..j], raws[i].stream);
    }
  }

  /** One fresh video encoder and audio encoders marked in advance; an audio packet may have a negative
      dts, but none from before the system clock's zero. */
  ghost predicate Starting(cs: Clocks, raws: seq<Packet>) {
    && cs.video == VideoClock(cs.video.startTs)
    && (forall t :: 0 <= t < |cs.audio| ==> cs.audio[t] == AudioClock(cs.audio[t].startTs))
    && KnownAll(|cs.audio|, raws)
    && (forall i :: 0 <= i < |raws| && raws[i].stream.Audio? ==>
          cs.audio[raws[i].stream.track].startTs / 1000 + raws[i].Usec() >= 0)
  }

  /** The stamps are what the interleaver relies on: one constant per encoder, nothing before zero. */
  lemma {:induction false} StampedWellTimed(cs: Clocks, raws: seq<Packet>)
    requires Starting(cs, raws) && InOrder(raws)
    ensures Runs.WellTimed(|cs.audio|, Stamped(cs, raws))
  {
    var ins := Stamped(cs, raws);
    forall i | 0 <= i < |ins|
      ensures ins[i].dtsUsec >= 0 && Runs.Known(|cs.audio|, ins[i].stream)
    {
      StampedAt(cs, raws, i);
      if raws[i].stream.Video? {
        VideoNotBeforeStart(cs, raws, i);
      } else {
        AudioKeepsTime(cs, raws, i);
      }
    }
    forall i, j | 0 <= i < j < |ins|
      ensures Runs.Follows(ins[i], ins[j])
    {
      StampedFollows(cs, raws, i, j);
    }
  }

  /** From the encoders to the output: with one audio encoder, whatever they produce in dts order and
      however their packets interleave, the output hands them on in order of their time stamps. */
  lemma {:induction false} EncodedToSentInOrder(cs: Clocks, raws: seq<Packet>, stops: seq<bool>)
    requires Starting(cs, raws) && InOrder(raws) && |cs.audio| == 1 && |stops| == |raws|
    ensures Sorted(Run(1, Stamped(cs, raws), stops).delivered)
  {
    StampedWellTimed(cs, raws);
    Order.SentInOrder(Stamped(cs, raws), stops);
  }
}
