/** The packet interleaver of an encoded output: packets of one video encoder and up to
    MAX_AUDIO_MIXES audio encoders are merged into one buffer sorted by dts in microseconds,
    rebased so that every track starts at zero, and sent one at a time.
    This module is the transition function; `InterleavedOutput` is the object that performs it. */
module Interleaver {
  import opened CDivision

  const MICROSECOND_DEN := 1000000
  const MAX_AUDIO_MIXES := 4
  const INT64_MAX := 0x7FFF_FFFF_FFFF_FFFF

  datatype Stream = Video | Audio(track: nat)

  datatype Packet = Packet(stream: Stream, dts: int, pts: int, num: int, den: pos,
                           dtsUsec: int, keyframe: bool, data: seq<bv8>)
  {
    function Usec(): int {
      Quot(dts * MICROSECOND_DEN, den)
    }

    function Rebased(offset: int): Packet {
      var shifted := this.(dts := dts - offset, pts := pts - offset);
      shifted.(dtsUsec := shifted.Usec())
    }
  }

  datatype State = State(
    receivedVideo: bool, receivedAudio: bool,
    videoOffset: int, audioOffsets: seq<int>,
    highestAudio: int, highestVideo: int,
    buffer: seq<Packet>, totalFrames: nat,
    rebases: nat,               // how often offsets were taken
    freed: seq<Packet>,         // packets discarded without leaving through the gate
    popped: seq<Packet>,        // packets that left through the gate
    delivered: seq<Packet>)     // those of them handed to encoded_packet
  {
    predicate Started() {
      receivedAudio && receivedVideo
    }

    function Offset(st: Stream): int {
      match st
      case Video => videoOffset
      case Audio(t) => if t < |audioOffsets| then audioOffsets[t] else 0
    }

    function Highest(st: Stream): int {
      if st.Video? then highestVideo else highestAudio
    }

    function Opposing(st: Stream): int {
      if st.Video? then highestAudio else highestVideo
    }
  }

  const FRESH := State(false, false, 0, [0, 0, 0, 0], 0, 0, [], 0, 0, [], [], [])

  // ----- the sorted buffer

  ghost predicate Sorted(b: seq<Packet>) {
    forall i, j :: 0 <= i < j < |b| ==> b[i].dtsUsec <= b[j].dtsUsec
  }

  function Slot(b: seq<Packet>, ts: int): (i: nat)
    ensures i <= |b|
    ensures forall j :: 0 <= j < i ==> b[j].dtsUsec <= ts
    ensures i < |b| ==> ts < b[i].dtsUsec
  {
    if b == [] || ts < b[0].dtsUsec then 0 else 1 + Slot(b[1..], ts)
  }

  function Insert(b: seq<Packet>, p: Packet): seq<Packet> {
    var i := Slot(b, p.dtsUsec);
    b[..i] + [p] + b[i..]
  }

  function Resort(b: seq<Packet>): seq<Packet> {
    if b == [] then [] else Insert(Resort(b[..|b| - 1]), b[|b| - 1])
  }

  /** Index of the first packet of a stream, -1 when there is none. */
  function FirstIdx(b: seq<Packet>, st: Stream): (r: int)
    ensures -1 <= r < |b|
    ensures r >= 0 ==> b[r].stream == st
  {
    if b == [] then -1
    else if b[0].stream == st then 0
    else var r := FirstIdx(b[1..], st); if r < 0 then -1 else r + 1
  }

  lemma {:induction false} FirstIdxLeast(b: seq<Packet>, st: Stream)
    ensures forall j :: 0 <= j < (if FirstIdx(b, st) < 0 then |b| else FirstIdx(b, st)) ==> b[j].stream != st
  {
    if b != [] && b[0].stream != st {
      FirstIdxLeast(b[1..], st);
      forall j | 0 <= j < (if FirstIdx(b, st) < 0 then |b| else FirstIdx(b, st))
        ensures b[j].stream != st
      {
        assert j > 0 ==> b[j] == b[1..][j - 1];
      }
    }
  }

  /** How many leading packets lie strictly below a timestamp. */
  function CountBelow(b: seq<Packet>, ts: int): (n: nat)
    ensures n <= |b|
    ensures forall j :: 0 <= j < n ==> b[j].dtsUsec < ts
    ensures n < |b| ==> ts <= b[n].dtsUsec
  {
    if b == [] || ts <= b[0].dtsUsec then 0 else 1 + CountBelow(b[1..], ts)
  }

  function DiscardTo(s: State, n: nat): State
    requires n <= |s.buffer|
  {
    s.(freed := s.freed + s.buffer[..n], buffer := s.buffer[n..])
  }

  // ----- start-up

  predicate AllTracks(tracks: nat, b: seq<Packet>) {
    forall t: nat :: t < tracks ==> FirstIdx(b, Audio(t)) >= 0
  }

  /** The largest of the first video index and the first indices of audio tracks 0..n-1. */
  function LatestFirst(b: seq<Packet>, n: nat): (r: int)
    ensures FirstIdx(b, Video) <= r < |b|
  {
    if n == 0 then FirstIdx(b, Video)
    else
      var r := LatestFirst(b, n - 1);
      var a := FirstIdx(b, Audio(n - 1));
      if a > r then a else r
  }

  function Distance(a: int, b: int): nat {
    if a >= b then a - b else b - a
  }

  /** The audio packet among the first n closest to `ts`, with its distance. */
  function Closest(b: seq<Packet>, ts: int, n: nat): (nat, int)
    requires n <= |b|
  {
    if n == 0 then (0, INT64_MAX)
    else
      var c := Closest(b, ts, n - 1);
      var d := Distance(b[n - 1].dtsUsec, ts);
      if b[n - 1].stream.Audio? && d < c.1 then (n - 1, d) else c
  }

  /** The chosen audio packet is nearest to `ts`, and the first among equally near ones. */
  lemma {:induction false} ClosestIsNearest(b: seq<Packet>, ts: int, n: nat)
    requires n <= |b|
    ensures var (idx, diff) := Closest(b, ts, n);
      && (forall j :: 0 <= j < n && b[j].stream.Audio? ==> diff <= Distance(b[j].dtsUsec, ts))
      && (diff < INT64_MAX ==>
            (&& idx < n && b[idx].stream.Audio? && diff == Distance(b[idx].dtsUsec, ts)
             && (forall j :: 0 <= j < idx && b[j].stream.Audio? ==> diff < Distance(b[j].dtsUsec, ts))))
  {
    if n > 0 {
      ClosestIsNearest(b, ts, n - 1);
    }
  }

  lemma {:induction false} LatestFirstIsPastAll(b: seq<Packet>, n: nat, st: Stream)
    requires st.Audio? ==> st.track < n
    ensures FirstIdx(b, st) <= LatestFirst(b, n)
  {
    if n > 0 && st != Audio(n - 1) {
      LatestFirstIsPastAll(b, n - 1, st);
    }
  }

  /** Pruning a premature start drops the first packet of every stream. */
  lemma {:induction false} PrematureDropsAllFirsts(tracks: nat, b: seq<Packet>, st: Stream)
    requires 1 <= tracks && FirstIdx(b, Video) >= 0 && AllTracks(tracks, b)
    requires PrematureIdx(tracks, b) != 0 && (st.Audio? ==> st.track < tracks)
    ensures FirstIdx(b, st) < PrematureIdx(tracks, b)
  {
    LatestFirstIsPastAll(b, tracks, st);
  }

  /** How far the first packet of an audio track is behind the first video packet. */
  function Lead(b: seq<Packet>, t: nat): int
    requires FirstIdx(b, Video) >= 0 && FirstIdx(b, Audio(t)) >= 0
  {
    b[FirstIdx(b, Audio(t))].dtsUsec - b[FirstIdx(b, Video)].dtsUsec
  }

  /** The length of the first video frame. */
  function FrameUsec(b: seq<Packet>): int
    requires FirstIdx(b, Video) >= 0
  {
    var v := b[FirstIdx(b, Video)];
    Quot(v.num * MICROSECOND_DEN, v.den)
  }

  /** Only the last track decides: testing every track would give the same verdict exactly if the last
      one is late or no other one is. */
  lemma {:induction false} PrematureAgreesIff(tracks: nat, b: seq<Packet>)
    requires 1 <= tracks && FirstIdx(b, Video) >= 0 && AllTracks(tracks, b)
    ensures (PrematureIdx(tracks, b) != 0 <==> exists t: nat :: t < tracks && Lead(b, t) > FrameUsec(b)) <==>
            (Lead(b, tracks - 1) > FrameUsec(b) || forall t: nat :: t < tracks - 1 ==> Lead(b, t) <= FrameUsec(b))
  {
    assert PrematureIdx(tracks, b) != 0 <==> Lead(b, tracks - 1) > FrameUsec(b);
  }

  function StartIdx(b: seq<Packet>): (r: nat)
    requires FirstIdx(b, Video) >= 0
    ensures r <= FirstIdx(b, Video)
  {
    var v := FirstIdx(b, Video);
    var a := Closest(b, b[v].dtsUsec, |b|).0;
    if v < a then v else a
  }

  /** prune_premature_packets once every stream has a packet: past all first packets when the last
      audio track is more than one video frame late, else 0. */
  function PrematureIdx(tracks: nat, b: seq<Packet>): (r: nat)
    requires 1 <= tracks && FirstIdx(b, Video) >= 0 && AllTracks(tracks, b)
    ensures r <= |b|
  {
    var v := b[FirstIdx(b, Video)];
    var diff := b[FirstIdx(b, Audio(tracks - 1))].dtsUsec - v.dtsUsec;
    if diff > Quot(v.num * MICROSECOND_DEN, v.den) then LatestFirst(b, tracks) + 1 else 0
  }

  function PruneIdx(tracks: nat, b: seq<Packet>): (r: nat)
    requires 1 <= tracks && FirstIdx(b, Video) >= 0 && AllTracks(tracks, b)
    ensures r <= |b|
  {
    var premature := PrematureIdx(tracks, b);
    if premature != 0 then premature else StartIdx(b)
  }

  /** prune_interleaved_packets: false when a stream is missing, whose flag is then cleared. */
  function Prune(tracks: nat, s: State): (State, bool)
    requires 1 <= tracks
  {
    if FirstIdx(s.buffer, Video) < 0 then (s.(receivedVideo := false), false)
    else if !AllTracks(tracks, s.buffer) then (s.(receivedAudio := false), false)
    else (DiscardTo(s, PruneIdx(tracks, s.buffer)), true)
  }

  function RebaseAll(b: seq<Packet>, s: State): (r: seq<Packet>)
    ensures |r| == |b|
    ensures forall i :: 0 <= i < |b| ==> r[i] == b[i].Rebased(s.Offset(b[i].stream))
  {
    seq(|b|, i requires 0 <= i < |b| => b[i].Rebased(s.Offset(b[i].stream)))
  }

  function FirstDts(b: seq<Packet>, st: Stream): int {
    var i := FirstIdx(b, st);
    if i < 0 then 0 else b[i].dts
  }

  function NewAudioOffsets(tracks: nat, b: seq<Packet>, current: seq<int>): (r: seq<int>)
    ensures |r| == |current|
    ensures forall t :: 0 <= t < |current| ==> r[t] == if t < tracks then FirstDts(b, Audio(t)) else current[t]
  {
    seq(|current|, t requires 0 <= t < |current| => if t < tracks then FirstDts(b, Audio(t)) else current[t])
  }

  function NewOffsets(tracks: nat, s: State): State {
    s.(videoOffset := FirstDts(s.buffer, Video),
       audioOffsets := NewAudioOffsets(tracks, s.buffer, s.audioOffsets))
  }

  /** Every stream has a packet: take the offsets and rebase the highest timestamps. */
  function TakenOffsets(tracks: nat, s: State): State
    requires 1 <= tracks && FirstIdx(s.buffer, Video) >= 0 && AllTracks(tracks, s.buffer)
  {
    var s1 := NewOffsets(tracks, s);
    s1.(highestAudio := s1.highestAudio - s1.buffer[FirstIdx(s1.buffer, Audio(0))].dtsUsec,
        highestVideo := s1.highestVideo - s1.buffer[FirstIdx(s1.buffer, Video)].dtsUsec)
  }

  /** ... and rebase the buffer with the new offsets. */
  function TakeOffsets(tracks: nat, s: State): State
    requires 1 <= tracks && FirstIdx(s.buffer, Video) >= 0 && AllTracks(tracks, s.buffer)
  {
    var s1 := TakenOffsets(tracks, s);
    s1.(buffer := RebaseAll(s1.buffer, s1), rebases := s1.rebases + 1)
  }

  /** initialize_interleaved_packets */
  function Initialize(tracks: nat, s: State): (State, bool)
    requires 1 <= tracks
  {
    var v := FirstIdx(s.buffer, Video);
    var s1 := if v < 0 then s.(receivedVideo := false) else s;
    if !AllTracks(tracks, s.buffer) then (s1.(receivedAudio := false), false)
    else if v < 0 then (s1, false)
    else (TakeOffsets(tracks, s1), true)
  }

  // ----- the send gate

  /** send_interleaved: the head leaves only below the highest opposing timestamp. */
  function Send(s: State, stopped: bool): State
    requires s.buffer != []
  {
    var out := s.buffer[0];
    if !(s.Opposing(out.stream) > out.dtsUsec) then s
    else
      s.(totalFrames := s.totalFrames + (if out.stream.Video? then 1 else 0),
         buffer := s.buffer[1..],
         popped := s.popped + [out],
         delivered := if stopped then s.delivered else s.delivered + [out])
  }

  function CheckReceived(s: State, p: Packet): State {
    if p.stream.Video? then s.(receivedVideo := true) else s.(receivedAudio := true)
  }

  function SetHigher(s: State, p: Packet): State {
    if p.stream.Video? then
      if s.highestVideo < p.dtsUsec then s.(highestVideo := p.dtsUsec) else s
    else
      if s.highestAudio < p.dtsUsec then s.(highestAudio := p.dtsUsec) else s
  }

  predicate Rejects(s: State, p: Packet) {
    !s.receivedVideo && p.stream.Video? && !p.keyframe
  }

  function Reject(s: State, p: Packet): State {
    var s1 := DiscardTo(s, CountBelow(s.buffer, p.dtsUsec));
    s1.(freed := s1.freed + [p])
  }

  /** Everything interleave_packets does before it looks at the buffer again. */
  function Accept(s: State, p: Packet): (r: State)
    ensures r.buffer != []
  {
    var out := if s.Started() then p.Rebased(s.Offset(p.stream)) else p;
    var s1 := if s.Started() then s else CheckReceived(s, p);
    SetHigher(s1.(buffer := Insert(s1.buffer, out)), out)
  }

  function StartPruned(tracks: nat, s: State, stopped: bool): State
    requires 1 <= tracks
  {
    var (s1, ready) := Initialize(tracks, s);
    if !ready then s1
    else
      var s2 := s1.(buffer := Resort(s1.buffer));
      if s2.buffer == [] then s2 else Send(s2, stopped)
  }

  /** The start-up attempt made when both kinds of packet have been seen. */
  function Start(tracks: nat, s: State, stopped: bool): State
    requires 1 <= tracks
  {
    var (s1, pruned) := Prune(tracks, s);
    if pruned then StartPruned(tracks, s1, stopped) else s1
  }

  /** interleave_packets */
  function Step(tracks: nat, s: State, p: Packet, stopped: bool): State
    requires 1 <= tracks
  {
    if Rejects(s, p) then Reject(s, p)
    else
      var s1 := Accept(s, p);
      if !s1.Started() then s1
      else if s.Started() then Send(s1, stopped)
      else Start(tracks, s1, stopped)
  }

  /** A whole run: packet i arrives while the output's stopped flag is stops[i]. */
  function Run(tracks: nat, ins: seq<Packet>, stops: seq<bool>): State
    requires 1 <= tracks && |stops| == |ins|
  {
    if ins == [] then FRESH
    else
      var n := |ins| - 1;
      Step(tracks, Run(tracks, ins[..n], stops[..n]), ins[n], stops[n])
  }
}
