/** An audio encoder with its circular buffers, fed and emptied in place. */
module EncoderObject {
  import opened Octets
  import opened AudioTicks
  import opened EncoderAudio
  import Clock = EncoderClock
  import Packets = Interleaver

  class AudioEncoder {
    const format: Format
    var firstReceived: bool
    var firstRawTs: nat
    var startTs: nat
    var offsetUsec: int
    var audioInputBuffer: Planes
    var curPts: nat
    var sent: seq<Frame>              // the frames given to the codec
    ghost var kept: Planes

    ghost function Abs(): Audio
      reads this
    {
      Audio(firstReceived, firstRawTs, startTs, audioInputBuffer, curPts, sent, kept)
    }

    ghost predicate Valid()
      reads this
    {
      InStep(format, Abs()) && |kept| == format.planes
    }

    constructor (format: Format)
      ensures Valid() && Abs() == Initial(format) && this.format == format && offsetUsec == 0
    {
      this.format := format;
      firstReceived, firstRawTs, startTs, offsetUsec, curPts := false, 0, 0, 0, 0;
      audioInputBuffer, sent, kept := Empty(format.planes), [], Empty(format.planes);
    }

    /** push_back_audio: all of the data behind the offset, on every plane. */
    method PushBackAudio(data: Planes, size: nat, offsetSize: nat)
      requires |audioInputBuffer| == format.planes && Level(data, format.planes, size) && offsetSize <= size
      modifies this`audioInputBuffer
      ensures audioInputBuffer == Join(old(audioInputBuffer), Drop(data, offsetSize))
    {
      var left := size - offsetSize;
      if left != 0 {
        for i := 0 to format.planes
          invariant |audioInputBuffer| == format.planes
          invariant forall k :: 0 <= k < format.planes ==>
                      audioInputBuffer[k] == if k < i then old(audioInputBuffer)[k] + data[k][offsetSize..]
                                             else old(audioInputBuffer)[k]
        {
          audioInputBuffer := audioInputBuffer[i := audioInputBuffer[i] + data[i][offsetSize..offsetSize + left]];
        }
      }
      if left == 0 {
        JoinNothing(audioInputBuffer, data, size);
      }
      assert audioInputBuffer == Join(old(audioInputBuffer), Drop(data, offsetSize));
    }

    method StartFromBuffer(vStartTs: nat)
      requires InStep(format, Abs())
      requires firstRawTs < vStartTs ==> OffsetSize(format, vStartTs, firstRawTs) <= |audioInputBuffer[0]|
      modifies this`audioInputBuffer
      ensures audioInputBuffer ==
              Drop(old(audioInputBuffer), if firstRawTs < vStartTs then OffsetSize(format, vStartTs, firstRawTs) else 0)
    {
      var size := |audioInputBuffer[0]|;
      var audio := audioInputBuffer;
      var offsetSize := 0;
      audioInputBuffer := Empty(format.planes);
      if firstRawTs < vStartTs {
        offsetSize := OffsetSize(format, vStartTs, firstRawTs);
      }
      PushBackAudio(audio, size, offsetSize);
      JoinEmpty(Drop(audio, offsetSize));
    }

    /** buffer_audio */
    method BufferAudio(data: Block, pair: Pair) returns (success: bool)
      requires Valid() && Fits(format, data) && Reaches(format, Abs(), data, pair)
      modifies this`audioInputBuffer, this`startTs, this`kept
      ensures Abs() == Buffered(format, old(Abs()), data, pair) && Valid()
      ensures success <==> !Decide(format, old(Abs()), data, pair).Waiting?
    {
      BufferedInStep(format, Abs(), data, pair);
      ghost var decided := Decide(format, Abs(), data, pair);
      var size := data.frames * format.blockSize;
      var offsetSize := 0;
      success := true;
      if startTs == 0 && pair.PairedWith? {
        var endTs := data.timestamp;
        var vStartTs := pair.startTs;
        if vStartTs == 0 {
          success := false;
        } else {
          endTs := endTs + FramesToNs(format.sampleRate, data.frames);
          if endTs <= vStartTs {
            success := false;
          } else {
            if data.timestamp < vStartTs {
              offsetSize := OffsetSize(format, vStartTs, data.timestamp);
            }
            if data.timestamp <= vStartTs {
              StartsInsideBlock(format, Abs(), data, pair);
              audioInputBuffer := Empty(format.planes);
            }
            startTs := vStartTs;
            if vStartTs < data.timestamp {
              StartFromBuffer(vStartTs);
              kept := audioInputBuffer;
              return;
            }
          }
        }
      } else if startTs == 0 && pair.Unpaired? {
        startTs := data.timestamp;
      }
      PushBackAudio(data.data, size, offsetSize);
      DropNothing(data.data);
      JoinEmpty(Drop(data.data, offsetSize));
      kept := if decided.Running? then Join(kept, data.data)
              else if decided.FromBlock? then audioInputBuffer else kept;
    }

    /** send_audio_data: one frame from the front of every plane. */
    method SendAudioData()
      requires Valid() && |audioInputBuffer[0]| >= format.FrameBytes()
      modifies this`audioInputBuffer, this`curPts, this`sent
      ensures Valid() && Abs() == SentOne(format, old(Abs()))
    {
      var n := format.FrameBytes();
      DropLevel(audioInputBuffer, format.planes, |audioInputBuffer[0]|, n);
      var output := PopFront(n);
      sent := sent + [Frame(curPts, output)];
      curPts := curPts + format.frameSize;
    }

    method PopFront(n: nat) returns (output: Planes)
      requires InStep(format, Abs()) && n <= |audioInputBuffer[0]|
      modifies this`audioInputBuffer
      ensures output == Take(old(audioInputBuffer), n) && audioInputBuffer == Drop(old(audioInputBuffer), n)
    {
      output := Empty(format.planes);
      for i := 0 to format.planes
        invariant |audioInputBuffer| == |output| == format.planes
        invariant forall k :: 0 <= k < format.planes ==>
                    audioInputBuffer[k] == if k < i then old(audioInputBuffer)[k][n..] else old(audioInputBuffer)[k]
        invariant forall k :: 0 <= k < i ==> output[k] == old(audioInputBuffer)[k][..n]
      {
        output := output[i := audioInputBuffer[i][..n]];
        audioInputBuffer := audioInputBuffer[i := audioInputBuffer[i][n..]];
      }
    }

    /** receive_audio */
    method ReceiveAudio(data: Block, pair: Pair)
      requires Valid() && Fits(format, data) && Reaches(format, Received(format, Abs(), data), data, pair)
      modifies this
      ensures Valid() && Abs() == Receive(format, old(Abs()), data, pair) && offsetUsec == old(offsetUsec)
      ensures firstReceived
    {
      if !firstReceived {
        firstRawTs := data.timestamp;
        firstReceived := true;
        audioInputBuffer := Empty(format.planes);
      }
      var success := BufferAudio(data, pair);
      if success {
        SendFrames();
      }
    }

    method SendFrames()
      requires Valid()
      modifies this`audioInputBuffer, this`curPts, this`sent
      ensures Valid() && Abs() == Drained(format, old(Abs()))
    {
      while |audioInputBuffer[0]| >= format.FrameBytes()
        invariant Valid() && Drained(format, Abs()) == Drained(format, old(Abs()))
        decreases |audioInputBuffer[0]|
      {
        SendAudioData();
      }
    }

    /** The stamping part of do_encode, for a packet that the codec gave back. */
    method StampPacket(pkt: Packets.Packet) returns (out: Packets.Packet)
      modifies this`firstReceived, this`offsetUsec
      ensures out == Clock.Stamp(Clock.Clock(old(firstReceived), old(offsetUsec), startTs), pkt)
      ensures Clock.Clock(firstReceived, offsetUsec, startTs) ==
              Clock.Received(Clock.Clock(old(firstReceived), old(offsetUsec), startTs), pkt)
    {
      if !firstReceived {
        offsetUsec := pkt.Usec();
        firstReceived := true;
      }
      out := pkt.(dtsUsec := startTs / 1000 + pkt.Usec() - offsetUsec);
    }
  }
}
