/** The output object that interleaves packets, with its fields updated in place. Every method is
    proved against the functions of `Interleaver`, so the theorems about runs apply to it. */
module InterleavedOutput {
  import opened Sequences
  import opened CDivision
  import opened Interleaver
  import opened InterleaverBuffer

  /** get_track_index never yields an index outside the array of encoders. */
  ghost predicate KnownTracks(b: seq<Packet>) {
    forall p :: p in b && p.stream.Audio? ==> p.stream.track < MAX_AUDIO_MIXES
  }

  class Output {
    const tracks: nat               // num_audio_mixes
    var receivedVideo: bool
    var receivedAudio: bool
    var videoOffset: int
    var audioOffsets: array<int>
    var highestAudioTs: int
    var highestVideoTs: int
    var interleavedPackets: seq<Packet>
    var totalFrames: nat
    var stopped: bool
    ghost var rebases: nat
    ghost var freed: seq<Packet>
    ghost var popped: seq<Packet>
    var delivered: seq<Packet>      // the calls made to encoded_packet

    ghost predicate Valid()
      reads this
    {
      1 <= tracks <= MAX_AUDIO_MIXES == audioOffsets.Length
    }

    ghost function Abs(): State
      reads this, audioOffsets
    {
      State(receivedVideo, receivedAudio, videoOffset, audioOffsets[..], highestAudioTs, highestVideoTs,
            interleavedPackets, totalFrames, rebases, freed, popped, delivered)
    }

    constructor (tracks: nat)
      requires 1 <= tracks <= MAX_AUDIO_MIXES
      ensures Valid() && fresh(audioOffsets) && this.tracks == tracks
      ensures Abs() == FRESH && !stopped
    {
      this.tracks := tracks;
      receivedVideo, receivedAudio, stopped := false, false, false;
      videoOffset, highestAudioTs, highestVideoTs := 0, 0, 0;
      audioOffsets := new int[MAX_AUDIO_MIXES](_ => 0);
      interleavedPackets, delivered, totalFrames := [], [], 0;
      rebases, freed, popped := 0, [], [];
      new;
      assert audioOffsets[..] == [0, 0, 0, 0];
    }

    method CheckReceived(out: Packet)
      requires Valid()
      modifies this`receivedVideo, this`receivedAudio
      ensures Abs() == Interleaver.CheckReceived(old(Abs()), out)
    {
      if out.stream.Video? {
        if !receivedVideo {
          receivedVideo := true;
        }
      } else {
        if !receivedAudio {
          receivedAudio := true;
        }
      }
    }

    method ApplyInterleavedPacketOffset(packet: Packet) returns (out: Packet)
      requires Valid()
      requires packet.stream.Audio? ==> packet.stream.track < MAX_AUDIO_MIXES
      ensures out == packet.Rebased(Abs().Offset(packet.stream))
    {
      var offset := if packet.stream.Video? then videoOffset else audioOffsets[packet.stream.track];
      out := packet.(dts := packet.dts - offset, pts := packet.pts - offset);
      out := out.(dtsUsec := out.Usec());
    }

    method SendInterleaved()
      requires Valid() && interleavedPackets != []
      modifies this`totalFrames, this`interleavedPackets, this`popped, this`delivered
      ensures Abs() == Send(old(Abs()), stopped)
      ensures forall p :: p in interleavedPackets ==> p in old(interleavedPackets)
    {
      var out := interleavedPackets[0];
      var higherOpposing := if out.stream.Video? then highestAudioTs > out.dtsUsec
                            else highestVideoTs > out.dtsUsec;
      if !higherOpposing {
        return;
      }
      if out.stream.Video? {
        totalFrames := totalFrames + 1;
      }
      interleavedPackets := interleavedPackets[1..];
      popped := popped + [out];
      if !stopped {
        delivered := delivered + [out];
      }
    }

    method SetHigherTs(packet: Packet)
      requires Valid()
      modifies this`highestAudioTs, this`highestVideoTs
      ensures Abs() == SetHigher(old(Abs()), packet)
    {
      if packet.stream.Video? {
        if highestVideoTs < packet.dtsUsec {
          highestVideoTs := packet.dtsUsec;
        }
      } else {
        if highestAudioTs < packet.dtsUsec {
          highestAudioTs := packet.dtsUsec;
        }
      }
    }

    method FindFirstPacketTypeIdx(st: Stream) returns (idx: int)
      ensures idx == FirstIdx(interleavedPackets, st)
    {
      for i := 0 to |interleavedPackets|
        invariant FirstIdx(interleavedPackets, st) ==
          var r := FirstIdx(interleavedPackets[i..], st); if r < 0 then -1 else i + r
      {
        if interleavedPackets[i].stream == st {
          return i;
        }
        assert interleavedPackets[i..][1..] == interleavedPackets[i + 1..];
      }
      return -1;
    }

    method GetInterleavedStartIdx() returns (start: nat)
      requires FirstIdx(interleavedPackets, Video) >= 0
      ensures start == StartIdx(interleavedPackets)
    {
      var videoIdx := FindFirstPacketTypeIdx(Video);
      var firstVideo := interleavedPackets[videoIdx];
      var closestDiff, idx := INT64_MAX, 0;
      for i := 0 to |interleavedPackets|
        invariant 0 <= idx && (idx, closestDiff) == Closest(interleavedPackets, firstVideo.dtsUsec, i)
      {
        var packet := interleavedPackets[i];
        if packet.stream.Audio? {
          var diff := Distance(packet.dtsUsec, firstVideo.dtsUsec);
          if diff < closestDiff {
            closestDiff, idx := diff, i;
          }
        }
      }
      start := if videoIdx < idx then videoIdx else idx;
    }

    method DiscardToIdx(idx: nat)
      requires Valid() && idx <= |interleavedPackets|
      modifies this`interleavedPackets, this`freed
      ensures Abs() == DiscardTo(old(Abs()), idx)
    {
      freed := freed + interleavedPackets[..idx];
      interleavedPackets := interleavedPackets[idx..];
    }

    /** -1 when a stream is missing, whose flag is then cleared. */
    method PrunePrematurePackets() returns (prune: int)
      requires Valid()
      modifies this`receivedVideo, this`receivedAudio
      ensures FirstIdx(interleavedPackets, Video) < 0 ==>
        prune == -1 && !receivedVideo && receivedAudio == old(receivedAudio)
      ensures FirstIdx(interleavedPackets, Video) >= 0 ==> receivedVideo == old(receivedVideo)
      ensures FirstIdx(interleavedPackets, Video) >= 0 && !AllTracks(tracks, interleavedPackets) ==>
        prune == -1 && !receivedAudio
      ensures FirstIdx(interleavedPackets, Video) >= 0 && AllTracks(tracks, interleavedPackets) ==>
        prune == PrematureIdx(tracks, interleavedPackets) && receivedAudio == old(receivedAudio)
    {
      var videoIdx := FindFirstPacketTypeIdx(Video);
      if videoIdx == -1 {
        receivedVideo := false;
        return -1;
      }
      var video := interleavedPackets[videoIdx];
      var durationUsec := Quot(video.num * MICROSECOND_DEN, video.den);
      var all, maxIdx, diff := LatestFirstPackets(videoIdx);
      if !all {
        receivedAudio := false;
        return -1;
      }
      return if diff > durationUsec then maxIdx + 1 else 0;
    }

    /** The loop over the audio tracks: the latest first index and the last track's lead over the video. */
    method LatestFirstPackets(videoIdx: nat) returns (all: bool, maxIdx: nat, diff: int)
      requires Valid() && videoIdx == FirstIdx(interleavedPackets, Video)
      ensures all == AllTracks(tracks, interleavedPackets)
      ensures all ==> maxIdx == LatestFirst(interleavedPackets, tracks)
      ensures all ==> diff == interleavedPackets[FirstIdx(interleavedPackets, Audio(tracks - 1))].dtsUsec
                              - interleavedPackets[videoIdx].dtsUsec
    {
      ghost var b := interleavedPackets;
      maxIdx, diff := videoIdx, 0;
      for i := 0 to tracks
        invariant AllTracks(i, b) && maxIdx == LatestFirst(b, i)
        invariant i > 0 ==> diff == b[FirstIdx(b, Audio(i - 1))].dtsUsec - b[videoIdx].dtsUsec
      {
        var audioIdx := FindFirstPacketTypeIdx(Audio(i));
        if audioIdx == -1 {
          return false, maxIdx, diff;
        }
        if audioIdx > maxIdx {
          maxIdx := audioIdx;
        }
        diff := interleavedPackets[audioIdx].dtsUsec - interleavedPackets[videoIdx].dtsUsec;
      }
      all := true;
    }

    method PruneInterleavedPackets() returns (pruned: bool)
      requires Valid()
      modifies this`receivedVideo, this`receivedAudio, this`interleavedPackets, this`freed
      ensures (Abs(), pruned) == Prune(tracks, old(Abs()))
    {
      var pruneStart := PrunePrematurePackets();
      if pruneStart == -1 {
        return false;
      }
      var startIdx := pruneStart;
      if pruneStart == 0 {
        startIdx := GetInterleavedStartIdx();
      }
      DiscardToIdx(startIdx);
      return true;
    }

    /** Whether every audio track has a packet in the buffer. */
    method HasAllTracks() returns (all: bool)
      ensures all == AllTracks(tracks, interleavedPackets)
    {
      for i := 0 to tracks
        invariant forall t: nat :: t < i ==> FirstIdx(interleavedPackets, Audio(t)) >= 0
      {
        var audioIdx := FindFirstPacketTypeIdx(Audio(i));
        if audioIdx == -1 {
          return false;
        }
      }
      return true;
    }

    method TakeAudioOffsets()
      requires Valid() && AllTracks(tracks, interleavedPackets)
      modifies audioOffsets
      ensures audioOffsets[..] == NewAudioOffsets(tracks, interleavedPackets, old(audioOffsets[..]))
    {
      for i := 0 to tracks
        invariant forall t :: 0 <= t < i ==> audioOffsets[t] == FirstDts(interleavedPackets, Audio(t))
        invariant forall t :: i <= t < MAX_AUDIO_MIXES ==> audioOffsets[t] == old(audioOffsets[t])
      {
        var audioIdx := FindFirstPacketTypeIdx(Audio(i));
        audioOffsets[i] := interleavedPackets[audioIdx].dts;
      }
    }

    method RebaseBuffer()
      requires Valid() && KnownTracks(interleavedPackets)
      modifies this`interleavedPackets
      ensures interleavedPackets == RebaseAll(old(interleavedPackets), old(Abs()))
      ensures KnownTracks(interleavedPackets)
    {
      ghost var buffer, s := interleavedPackets, Abs();
      for i := 0 to |interleavedPackets|
        invariant |interleavedPackets| == |buffer|
        invariant forall j :: 0 <= j < i ==> interleavedPackets[j] == buffer[j].Rebased(s.Offset(buffer[j].stream))
        invariant forall j :: i <= j < |buffer| ==> interleavedPackets[j] == buffer[j]
      {
        assert interleavedPackets[i] in buffer;
        var out := ApplyInterleavedPacketOffset(interleavedPackets[i]);
        interleavedPackets := interleavedPackets[i := out];
      }
    }

    method InitializeInterleavedPackets() returns (ready: bool)
      requires Valid() && KnownTracks(interleavedPackets)
      modifies this`receivedVideo, this`receivedAudio, this`videoOffset, this`highestAudioTs,
               this`highestVideoTs, this`interleavedPackets, this`rebases, audioOffsets
      ensures (Abs(), ready) == Initialize(tracks, old(Abs()))
      ensures KnownTracks(interleavedPackets)
    {
      var videoIdx := FindFirstPacketTypeIdx(Video);
      if videoIdx == -1 {
        receivedVideo := false;
      }
      var all := HasAllTracks();
      if !all {
        receivedAudio := false;
        return false;
      }
      if videoIdx == -1 {
        return false;
      }
      ApplyNewOffsets(videoIdx);
      return true;
    }

    method ApplyNewOffsets(videoIdx: nat)
      requires Valid() && KnownTracks(interleavedPackets)
      requires videoIdx == FirstIdx(interleavedPackets, Video) && AllTracks(tracks, interleavedPackets)
      modifies this`videoOffset, this`highestAudioTs, this`highestVideoTs, this`interleavedPackets,
               this`rebases, audioOffsets
      ensures Abs() == TakeOffsets(tracks, old(Abs()))
      ensures KnownTracks(interleavedPackets)
    {
      TakeNewOffsets(videoIdx);
      RebaseBuffer();
      rebases := rebases + 1;
    }

    method TakeNewOffsets(videoIdx: nat)
      requires Valid()
      requires videoIdx == FirstIdx(interleavedPackets, Video) && AllTracks(tracks, interleavedPackets)
      modifies this`videoOffset, this`highestAudioTs, this`highestVideoTs, audioOffsets
      ensures Abs() == TakenOffsets(tracks, old(Abs()))
    {
      videoOffset := interleavedPackets[videoIdx].dts;
      TakeAudioOffsets();
      var audioIdx := FindFirstPacketTypeIdx(Audio(0));
      highestAudioTs := highestAudioTs - interleavedPackets[audioIdx].dtsUsec;
      highestVideoTs := highestVideoTs - interleavedPackets[videoIdx].dtsUsec;
    }

    method InsertInterleavedPacket(out: Packet)
      requires Valid()
      modifies this`interleavedPackets
      ensures interleavedPackets == Insert(old(interleavedPackets), out)
    {
      var idx := 0;
      while idx < |interleavedPackets|
        invariant 0 <= idx <= Slot(interleavedPackets, out.dtsUsec)
      {
        if out.dtsUsec < interleavedPackets[idx].dtsUsec {
          break;
        }
        idx := idx + 1;
      }
      interleavedPackets := interleavedPackets[..idx] + [out] + interleavedPackets[idx..];
    }

    method ResortInterleavedPackets()
      requires Valid()
      modifies this`interleavedPackets
      ensures interleavedPackets == Resort(old(interleavedPackets))
      ensures forall p :: p in interleavedPackets <==> p in old(interleavedPackets)
    {
      var oldArray := interleavedPackets;
      interleavedPackets := [];
      for i := 0 to |oldArray|
        invariant interleavedPackets == Resort(oldArray[..i])
      {
        InsertInterleavedPacket(oldArray[i]);
        Prefixes(oldArray, i);
      }
      Prefixes(oldArray, |oldArray|);
      ResortMembers(oldArray);
    }

    method DiscardUnusedAudioPackets(dtsUsec: int)
      requires Valid()
      modifies this`interleavedPackets, this`freed
      ensures Abs() == DiscardTo(old(Abs()), CountBelow(old(interleavedPackets), dtsUsec))
    {
      var idx := 0;
      while idx < |interleavedPackets|
        invariant 0 <= idx <= CountBelow(interleavedPackets, dtsUsec)
      {
        if interleavedPackets[idx].dtsUsec >= dtsUsec {
          break;
        }
        idx := idx + 1;
      }
      DiscardToIdx(idx);
    }

    /** interleave_packets performs exactly one step of the transition function. */
    method InterleavePackets(packet: Packet)
      requires Valid() && KnownTracks(interleavedPackets + [packet])
      modifies this`receivedVideo, this`receivedAudio, this`videoOffset, this`highestAudioTs,
               this`highestVideoTs, this`interleavedPackets, this`totalFrames, this`delivered,
               this`rebases, this`freed, this`popped, audioOffsets
      ensures Abs() == Step(tracks, old(Abs()), packet, stopped)
      ensures KnownTracks(interleavedPackets)
    {
      if !receivedVideo && packet.stream.Video? && !packet.keyframe {
        DiscardUnusedAudioPackets(packet.dtsUsec);
        freed := freed + [packet];
        return;
      }
      var wasStarted := receivedAudio && receivedVideo;
      AcceptPacket(packet);
      if receivedAudio && receivedVideo {
        if !wasStarted {
          StartInterleaving();
        } else {
          SendInterleaved();
        }
      }
    }

    method AcceptPacket(packet: Packet)
      requires Valid() && KnownTracks(interleavedPackets + [packet])
      modifies this`receivedVideo, this`receivedAudio, this`interleavedPackets,
               this`highestAudioTs, this`highestVideoTs
      ensures Abs() == Accept(old(Abs()), packet)
      ensures KnownTracks(interleavedPackets)
    {
      assert packet in interleavedPackets + [packet];
      var out := packet;
      if receivedAudio && receivedVideo {
        out := ApplyInterleavedPacketOffset(packet);
      } else {
        CheckReceived(packet);
      }
      InsertMembers(interleavedPackets, out);
      InsertInterleavedPacket(out);
      SetHigherTs(out);
    }

    method StartInterleaving()
      requires Valid() && KnownTracks(interleavedPackets)
      modifies this`receivedVideo, this`receivedAudio, this`videoOffset, this`highestAudioTs,
               this`highestVideoTs, this`interleavedPackets, this`totalFrames, this`delivered,
               this`rebases, this`freed, this`popped, audioOffsets
      ensures Abs() == Start(tracks, old(Abs()), stopped)
      ensures KnownTracks(interleavedPackets)
    {
      var pruned := PruneInterleavedPackets();
      if pruned {
        InitializeAndSend();
      }
    }

    method InitializeAndSend()
      requires Valid() && KnownTracks(interleavedPackets)
      modifies this`receivedVideo, this`receivedAudio, this`videoOffset, this`highestAudioTs,
               this`highestVideoTs, this`interleavedPackets, this`totalFrames, this`delivered,
               this`rebases, this`popped, audioOffsets
      ensures Abs() == StartPruned(tracks, old(Abs()), stopped)
      ensures KnownTracks(interleavedPackets)
    {
      var ready := InitializeInterleavedPackets();
      if ready {
        ResortInterleavedPackets();
        if interleavedPackets != [] {
          SendInterleaved();
        }
      }
    }
  }
}
