/** Starting an audio encoder in step with its video encoder, and cutting the audio that follows into
    frames of the codec's size. */
module EncoderAudio {
  import opened Sequences
  import opened CDivision
  import opened Octets
  import opened AudioTicks

  /** `blockSize` bytes per sample and plane, `frameSize` samples per codec frame. */
  datatype Format = Format(planes: pos, blockSize: pos, frameSize: pos, sampleRate: pos) {
    function FrameBytes(): pos
    {
      Product(blockSize, frameSize)
    }
  }

  function Product(a: pos, b: pos): (r: pos) {
    MulPositive(a, b);
    a * b
  }

  lemma MulPositive(a: pos, b: pos)
    ensures a * b > 0
  {
  }

  type Planes = seq<Bytes>

  datatype Block = Block(timestamp: nat, frames: nat, data: Planes)

  datatype Frame = Frame(pts: nat, data: Planes)

  datatype Pair = Unpaired | PairedWith(startTs: nat)

  /** `kept` is everything pushed since the encoder started, plane by plane. */
  datatype Audio = Audio(firstReceived: bool, firstRawTs: nat, startTs: nat, buffer: Planes, curPts: nat,
                         sent: seq<Frame>, kept: Planes)

  // ---------------------------------------------------------------- planes

  /** All planes hold `n` bytes. */
  predicate Level(p: Planes, planes: nat, n: nat) {
    |p| == planes && forall i :: 0 <= i < |p| ==> |p[i]| == n
  }

  function Empty(planes: nat): (r: Planes)
    ensures Level(r, planes, 0)
  {
    seq(planes, _ => [])
  }

  function Take(p: Planes, n: nat): (r: Planes)
    requires forall i :: 0 <= i < |p| ==> n <= |p[i]|
    ensures |r| == |p| && forall i :: 0 <= i < |p| ==> r[i] == p[i][..n]
  {
    seq(|p|, i requires 0 <= i < |p| => p[i][..n])
  }

  function Drop(p: Planes, n: nat): (r: Planes)
    requires forall i :: 0 <= i < |p| ==> n <= |p[i]|
    ensures |r| == |p| && forall i :: 0 <= i < |p| ==> r[i] == p[i][n..]
  {
    seq(|p|, i requires 0 <= i < |p| => p[i][n..])
  }

  function Join(p: Planes, q: Planes): (r: Planes)
    requires |p| == |q|
    ensures |r| == |p| && forall i :: 0 <= i < |p| ==> r[i] == p[i] + q[i]
  {
    seq(|p|, i requires 0 <= i < |p| => p[i] + q[i])
  }

  lemma JoinEmpty(p: Planes)
    ensures Join(Empty(|p|), p) == p
  {
    forall i | 0 <= i < |p|
      ensures Join(Empty(|p|), p)[i] == p[i]
    {
    }
  }

  lemma DropNothing(p: Planes)
    ensures Drop(p, 0) == p
  {
  }

  lemma JoinNothing(p: Planes, q: Planes, n: nat)
    requires Level(q, |p|, n)
    ensures Join(p, Drop(q, n)) == p
  {
    forall i | 0 <= i < |p|
      ensures Join(p, Drop(q, n))[i] == p[i]
    {
    }
  }

  // ---------------------------------------------------------------- buffer_audio

  predicate Fits(f: Format, b: Block) {
    Level(b.data, f.planes, b.frames * f.blockSize)
  }

  function OffsetFrames(f: Format, vStartTs: nat, aStartTs: nat): nat
    requires aStartTs <= vStartTs
  {
    NsToFrames(f.sampleRate, vStartTs - aStartTs)
  }

  function OffsetSize(f: Format, vStartTs: nat, aStartTs: nat): nat
    requires aStartTs <= vStartTs
  {
    OffsetFrames(f, vStartTs, aStartTs) * f.blockSize
  }

  function EndTs(f: Format, b: Block): nat {
    b.timestamp + FramesToNs(f.sampleRate, b.frames)
  }

  datatype Start = Waiting | FromBlock(offset: nat) | FromBuffer(offset: nat) | Running

  /** What buffer_audio decides for a block. */
  function Decide(f: Format, s: Audio, b: Block, pair: Pair): Start {
    if s.startTs != 0 || pair.Unpaired? then Running
    else if pair.startTs == 0 || EndTs(f, b) <= pair.startTs then Waiting
    else if b.timestamp <= pair.startTs then FromBlock(OffsetSize(f, pair.startTs, b.timestamp))
    else FromBuffer(if s.firstRawTs < pair.startTs then OffsetSize(f, pair.startTs, s.firstRawTs) else 0)
  }

  /** The source subtracts the offset from an unsigned size, so it counts on the buffered audio to reach
      the video's start. */
  predicate Reaches(f: Format, s: Audio, b: Block, pair: Pair) {
    var d := Decide(f, s, b, pair);
    d.FromBuffer? ==> forall i :: 0 <= i < |s.buffer| ==> d.offset <= |s.buffer[i]|
  }

  /** A truncated block always has the first sample that is wanted, and the sample kept first starts at
      the video's start or less than one sample before it. */
  lemma StartsInsideBlock(f: Format, s: Audio, b: Block, pair: Pair)
    requires Decide(f, s, b, pair).FromBlock?
    ensures var frames := OffsetFrames(f, pair.startTs, b.timestamp);
            && Decide(f, s, b, pair).offset == frames * f.blockSize < b.frames * f.blockSize
            && b.timestamp * f.sampleRate + frames * NS_PER_SECOND <= pair.startTs * f.sampleRate
            && pair.startTs * f.sampleRate < b.timestamp * f.sampleRate + (frames + 1) * NS_PER_SECOND
  {
    FirstWanted(f, pair.startTs, b.timestamp, b.frames);
    MulOrder(f.blockSize, OffsetFrames(f, pair.startTs, b.timestamp) + 1, b.frames);
  }

  /** Likewise for audio buffered without gaps since `firstRawTs`. Time stamps are rounded down, so the
      next block may seem to start one nanosecond after the buffered audio ends. */
  lemma StartsInsideBuffer(f: Format, s: Audio, b: Block, pair: Pair, frames: nat)
    requires Decide(f, s, b, pair).FromBuffer? && s.firstRawTs <= pair.startTs
    requires Level(s.buffer, f.planes, frames * f.blockSize)
    requires b.timestamp <= s.firstRawTs + FramesToNs(f.sampleRate, frames) + 1
    ensures Reaches(f, s, b, pair)
    ensures var skipped := OffsetFrames(f, pair.startTs, s.firstRawTs);
            && Decide(f, s, b, pair).offset == skipped * f.blockSize
            && s.firstRawTs * f.sampleRate + skipped * NS_PER_SECOND <= pair.startTs * f.sampleRate
            && pair.startTs * f.sampleRate < s.firstRawTs * f.sampleRate + (skipped + 1) * NS_PER_SECOND
  {
    var skipped := OffsetFrames(f, pair.startTs, s.firstRawTs);
    OffsetBounds(f, pair.startTs, s.firstRawTs);
    WithinFrames(f, pair.startTs, s.firstRawTs, frames);
    MulOrder(f.blockSize, skipped, frames);
    assert s.firstRawTs == pair.startTs ==> skipped == 0;
  }

  /** The offset in frames is the distance in time, rounded down to a whole frame. */
  lemma OffsetBounds(f: Format, vStartTs: nat, aStartTs: nat)
    requires aStartTs <= vStartTs
    ensures var skipped := OffsetFrames(f, vStartTs, aStartTs);
            && aStartTs * f.sampleRate + skipped * NS_PER_SECOND <= vStartTs * f.sampleRate
            && vStartTs * f.sampleRate < aStartTs * f.sampleRate + (skipped + 1) * NS_PER_SECOND
  {
    FloorBounds((vStartTs - aStartTs) * f.sampleRate, NS_PER_SECOND);
    assert (vStartTs - aStartTs) * f.sampleRate == vStartTs * f.sampleRate - aStartTs * f.sampleRate;
  }

  lemma WithinFrames(f: Format, vStartTs: nat, aStartTs: nat, frames: nat)
    requires aStartTs <= vStartTs <= aStartTs + FramesToNs(f.sampleRate, frames)
    ensures OffsetFrames(f, vStartTs, aStartTs) <= frames
  {
    var ns := vStartTs - aStartTs;
    FloorBounds(frames * NS_PER_SECOND, f.sampleRate);
    MulOrder(f.sampleRate, ns, FramesToNs(f.sampleRate, frames));
    FloorMonotone(ns * f.sampleRate, frames * NS_PER_SECOND, NS_PER_SECOND);
    assert frames * NS_PER_SECOND / NS_PER_SECOND == frames;
  }

  lemma FirstWanted(f: Format, vStartTs: nat, aStartTs: nat, frames: nat)
    requires aStartTs <= vStartTs < aStartTs + FramesToNs(f.sampleRate, frames)
    ensures var skipped := OffsetFrames(f, vStartTs, aStartTs);
            && skipped < frames
            && aStartTs * f.sampleRate + skipped * NS_PER_SECOND <= vStartTs * f.sampleRate
            && vStartTs * f.sampleRate < aStartTs * f.sampleRate + (skipped + 1) * NS_PER_SECOND
  {
    var rate := f.sampleRate;
    var ns := vStartTs - aStartTs;
    FloorBounds(ns * rate, NS_PER_SECOND);
    FloorBounds(frames * NS_PER_SECOND, rate);
    MulOrder(rate, ns, FramesToNs(rate, frames) - 1);
    assert ns * rate == vStartTs * rate - aStartTs * rate;
    assert rate * (FramesToNs(rate, frames) - 1) == FramesToNs(rate, frames) * rate - rate;
  }

  function Received(f: Format, s: Audio, b: Block): Audio {
    if s.firstReceived then s else s.(firstReceived := true, firstRawTs := b.timestamp, buffer := Empty(f.planes))
  }

  function Buffered(f: Format, s: Audio, b: Block, pair: Pair): Audio
    requires Fits(f, b) && |s.buffer| == |s.kept| == f.planes && Reaches(f, s, b, pair)
  {
    match Decide(f, s, b, pair)
    case Waiting => s.(buffer := Join(s.buffer, b.data))
    case Running =>
      s.(startTs := if s.startTs == 0 then b.timestamp else s.startTs,
         buffer := Join(s.buffer, b.data), kept := Join(s.kept, b.data))
    case FromBlock(offset) =>
      StartsInsideBlock(f, s, b, pair);
      s.(startTs := pair.startTs, buffer := Drop(b.data, offset), kept := Drop(b.data, offset))
    case FromBuffer(offset) =>
      s.(startTs := pair.startTs, buffer := Drop(s.buffer, offset), kept := Drop(s.buffer, offset))
  }

  // ---------------------------------------------------------------- cutting into frames

  function SentOne(f: Format, s: Audio): Audio
    requires forall i :: 0 <= i < |s.buffer| ==> f.FrameBytes() <= |s.buffer[i]|
  {
    s.(buffer := Drop(s.buffer, f.FrameBytes()), curPts := s.curPts + f.frameSize,
       sent := s.sent + [Frame(s.curPts, Take(s.buffer, f.FrameBytes()))])
  }

  ghost predicate InStep(f: Format, s: Audio) {
    s.buffer != [] && Level(s.buffer, f.planes, |s.buffer[0]|)
  }

  ghost function Drained(f: Format, s: Audio): Audio
    requires InStep(f, s)
    decreases |s.buffer[0]|
  {
    if |s.buffer[0]| < f.FrameBytes() then s else Drained(f, SentOne(f, s))
  }

  lemma JoinLevel(p: Planes, q: Planes, planes: nat, n: nat, m: nat)
    requires Level(p, planes, n) && Level(q, planes, m)
    ensures Level(Join(p, q), planes, n + m)
  {
  }

  lemma DropLevel(p: Planes, planes: nat, n: nat, k: nat)
    requires Level(p, planes, n) && k <= n
    ensures Level(Drop(p, k), planes, n - k)
  {
  }

  lemma BufferedInStep(f: Format, s: Audio, b: Block, pair: Pair)
    requires Fits(f, b) && InStep(f, s) && |s.kept| == f.planes && Reaches(f, s, b, pair)
    ensures InStep(f, Buffered(f, s, b, pair)) && |Buffered(f, s, b, pair).kept| == f.planes
  {
    var n, m := |s.buffer[0]|, b.frames * f.blockSize;
    match Decide(f, s, b, pair) {
      case Waiting => JoinLevel(s.buffer, b.data, f.planes, n, m);
      case Running => JoinLevel(s.buffer, b.data, f.planes, n, m);
      case FromBlock(offset) =>
        StartsInsideBlock(f, s, b, pair);
        DropLevel(b.data, f.planes, m, offset);
      case FromBuffer(offset) =>
        assert offset <= |s.buffer[0]|;
        DropLevel(s.buffer, f.planes, n, offset);
    }
  }

  /** receive_audio */
  ghost function Receive(f: Format, s: Audio, b: Block, pair: Pair): Audio
    requires Fits(f, b) && InStep(f, s) && |s.kept| == f.planes && Reaches(f, Received(f, s, b), b, pair)
  {
    var received := Received(f, s, b);
    BufferedInStep(f, received, b, pair);
    var buffered := Buffered(f, received, b, pair);
    if Decide(f, received, b, pair).Waiting? then buffered else Drained(f, buffered)
  }

  // ---------------------------------------------------------------- what every call keeps

  /** The bytes of one plane of the frames sent so far. */
  function Flattened(sent: seq<Frame>, i: nat): Bytes {
    if sent == [] then []
    else
      var last := sent[|sent| - 1].data;
      Flattened(sent[..|sent| - 1], i) + if i < |last| then last[i] else []
  }

  ghost predicate GoodFrame(f: Format, fr: Frame, k: nat) {
    fr.pts == k * f.frameSize && Level(fr.data, f.planes, f.FrameBytes())
  }

  ghost predicate GoodFrames(f: Format, s: Audio) {
    && (forall k :: 0 <= k < |s.sent| ==> GoodFrame(f, s.sent[k], k))
    && s.curPts == |s.sent| * f.frameSize
  }

  /** On plane `i`, the frames sent and what is left over make up exactly what was kept. */
  predicate Conserved(s: Audio, i: nat)
    requires i < |s.buffer| == |s.kept|
  {
    Flattened(s.sent, i) + s.buffer[i] == s.kept[i]
  }

  ghost predicate AllConserved(f: Format, s: Audio)
    requires |s.buffer| == |s.kept| == f.planes
  {
    forall i :: 0 <= i < f.planes ==> Conserved(s, i)
  }

  function Initial(f: Format): Audio {
    Audio(false, 0, 0, Empty(f.planes), 0, [], Empty(f.planes))
  }

  ghost predicate Inv(f: Format, paired: bool, s: Audio) {
    && InStep(f, s) && |s.kept| == f.planes && GoodFrames(f, s)
    && (!s.firstReceived ==> s == Initial(f))
    && (if paired && s.startTs == 0 then s.sent == [] else AllConserved(f, s))
  }

  lemma CutConserves(sent: Bytes, buffer: Bytes, n: nat)
    requires n <= |buffer|
    ensures (sent + buffer[..n]) + buffer[n..] == sent + buffer
  {
  }

  lemma {:induction false} FlattenedNext(sent: seq<Frame>, fr: Frame, i: nat)
    requires i < |fr.data|
    ensures Flattened(sent + [fr], i) == Flattened(sent, i) + fr.data[i]
  {
    assert (sent + [fr])[..|sent|] == sent;
  }

  lemma SentOneConserves(f: Format, s: Audio, i: nat)
    requires InStep(f, s) && |s.kept| == f.planes && |s.buffer[0]| >= f.FrameBytes()
    requires i < f.planes && Conserved(s, i)
    ensures Conserved(SentOne(f, s), i)
  {
    var n := f.FrameBytes();
    FlattenedNext(s.sent, Frame(s.curPts, Take(s.buffer, n)), i);
    CutConserves(Flattened(s.sent, i), s.buffer[i], n);
  }

  lemma SentOneGood(f: Format, s: Audio)
    requires InStep(f, s) && |s.buffer[0]| >= f.FrameBytes() && GoodFrames(f, s)
    ensures InStep(f, SentOne(f, s)) && GoodFrames(f, SentOne(f, s))
  {
    var t := SentOne(f, s);
    DropLevel(s.buffer, f.planes, |s.buffer[0]|, f.FrameBytes());
    forall k | 0 <= k < |t.sent|
      ensures GoodFrame(f, t.sent[k], k)
    {
      if k < |s.sent| {
        assert GoodFrame(f, s.sent[k], k);
      }
    }
    assert (|s.sent| + 1) * f.frameSize == |s.sent| * f.frameSize + f.frameSize;
  }

  lemma {:induction false} DrainedKeeps(f: Format, s: Audio)
    requires InStep(f, s) && |s.kept| == f.planes && GoodFrames(f, s) && AllConserved(f, s)
    ensures var t := Drained(f, s);
            && InStep(f, t) && |t.kept| == f.planes && GoodFrames(f, t) && AllConserved(f, t)
            && |t.buffer[0]| < f.FrameBytes()
            && t.startTs == s.startTs && t.firstReceived == s.firstReceived && t.firstRawTs == s.firstRawTs
            && t.kept == s.kept
    decreases |s.buffer[0]|
  {
    if |s.buffer[0]| >= f.FrameBytes() {
      SentOneGood(f, s);
      forall i | 0 <= i < f.planes
        ensures Conserved(SentOne(f, s), i)
      {
        assert Conserved(s, i);
        SentOneConserves(f, s, i);
      }
      DrainedKeeps(f, SentOne(f, s));
    }
  }

  /** Starting and pushing keep the balance; before a paired encoder starts there is nothing to balance. */
  lemma BufferedConserves(f: Format, paired: bool, s: Audio, b: Block, pair: Pair)
    requires Inv(f, paired, s) && s.firstReceived && paired == pair.PairedWith?
    requires Fits(f, b) && Reaches(f, s, b, pair)
    ensures var t := Buffered(f, s, b, pair);
            && |t.buffer| == |t.kept| == f.planes
            && t.sent == s.sent && t.curPts == s.curPts && t.firstReceived
            && if Decide(f, s, b, pair).Waiting? then paired && t.startTs == 0 && t.sent == []
               else AllConserved(f, t) && (paired ==> t.startTs != 0)
  {
    var t := Buffered(f, s, b, pair);
    BufferedInStep(f, s, b, pair);
    if !Decide(f, s, b, pair).Waiting? {
      forall i | 0 <= i < f.planes
        ensures Conserved(t, i)
      {
        if Decide(f, s, b, pair).Running? {
          assert Conserved(s, i);
          Regroup(Flattened(s.sent, i), s.buffer[i], b.data[i]);
        } else {
          Regroup(t.buffer[i], [], []);
        }
      }
    }
  }

  lemma ReceivedKeepsInv(f: Format, paired: bool, s: Audio, b: Block)
    requires Inv(f, paired, s)
    ensures Inv(f, paired, Received(f, s, b))
  {
    var t := Received(f, s, b);
    if !s.firstReceived && AllConserved(f, s) {
      forall i | 0 <= i < f.planes
        ensures Conserved(t, i)
      {
        assert Conserved(s, i);
      }
    }
  }

  /** Every call keeps the planes in step, the frames whole and numbered, and the balance; a call that
      sends leaves less than a frame behind. */
  lemma ReceiveKeepsInv(f: Format, paired: bool, s: Audio, b: Block, pair: Pair)
    requires Inv(f, paired, s) && paired == pair.PairedWith?
    requires Fits(f, b) && Reaches(f, Received(f, s, b), b, pair)
    ensures Inv(f, paired, Receive(f, s, b, pair))
    ensures !Decide(f, Received(f, s, b), b, pair).Waiting? ==> |Receive(f, s, b, pair).buffer[0]| < f.FrameBytes()
  {
    var r := Received(f, s, b);
    ReceivedKeepsInv(f, paired, s, b);
    BufferedInStep(f, r, b, pair);
    BufferedConserves(f, paired, r, b, pair);
    if !Decide(f, r, b, pair).Waiting? {
      DrainedKeeps(f, Buffered(f, r, b, pair));
    }
  }

  // ---------------------------------------------------------------- the calls of a run

  datatype Call = Call(block: Block, pair: Pair)

  /** Blocks of the encoder's format, and one and the same pair. */
  ghost predicate Shaped(f: Format, paired: bool, calls: seq<Call>) {
    forall k :: 0 <= k < |calls| ==> Fits(f, calls[k].block) && paired == calls[k].pair.PairedWith?
  }

  /** There is no video yet, or the block ends before the video starts. */
  predicate Early(f: Format, c: Call) {
    c.pair.PairedWith? && (c.pair.startTs == 0 || EndTs(f, c.block) <= c.pair.startTs)
  }

  /** The time at which a block ends is rounded down: it ends before the video starts exactly if its samples
      last less than a nanosecond longer than the time until then. */
  lemma EarlyIff(f: Format, c: Call)
    ensures Early(f, c) <==>
      && c.pair.PairedWith?
      && (c.pair.startTs == 0
          || c.block.frames * NS_PER_SECOND < (c.pair.startTs - c.block.timestamp + 1) * f.sampleRate)
  {
    if c.pair.PairedWith? {
      var left := c.pair.startTs - c.block.timestamp;
      FloorBelow(c.block.frames * NS_PER_SECOND, f.sampleRate, left);
    }
  }

  lemma FloorBelow(a: nat, d: pos, k: int)
    ensures a / d <= k <==> a < (k + 1) * d
  {
    FloorBounds(a, d);
    if a / d <= k {
      MulOrder(d, a / d + 1, k + 1);
    } else {
      MulOrder(d, k + 1, a / d);
    }
  }

  predicate AllEarly(f: Format, calls: seq<Call>) {
    forall k :: 0 <= k < |calls| ==> Early(f, calls[k])
  }

  /** The samples, and on one plane the bytes, that the calls bring. */
  function Frames(calls: seq<Call>): nat {
    if calls == [] then 0 else Frames(calls[..|calls| - 1]) + calls[|calls| - 1].block.frames
  }

  function Brought(calls: seq<Call>, i: nat): Bytes {
    if calls == [] then []
    else
      var last := calls[|calls| - 1].block.data;
      Brought(calls[..|calls| - 1], i) + if i < |last| then last[i] else []
  }

  /** If call `k` is the one that starts the encoder, and its block begins after the video does, then the
      blocks before it reach the video's start, counted from the first time stamp. */
  predicate Covered(f: Format, calls: seq<Call>, k: nat)
    requires k < |calls| && calls[k].pair.PairedWith?
  {
    var c, first := calls[k], calls[0].block.timestamp;
    AllEarly(f, calls[..k]) && !Early(f, c) && first < c.pair.startTs < c.block.timestamp ==>
      OffsetFrames(f, c.pair.startTs, first) <= Frames(calls[..k])
  }

  ghost predicate Possible(f: Format, paired: bool, calls: seq<Call>) {
    Shaped(f, paired, calls) && (paired ==> forall k :: 0 <= k < |calls| ==> Covered(f, calls, k))
  }

  /** Every block begins where the audio before it ends, up to the nanosecond that rounding may add. */
  ghost predicate GapFree(f: Format, calls: seq<Call>) {
    forall k :: 0 <= k < |calls| ==>
      calls[k].block.timestamp <= calls[0].block.timestamp + FramesToNs(f.sampleRate, Frames(calls[..k])) + 1
  }

  /** Audio without gaps is always possible, whatever the encoder is paired with. */
  lemma {:induction false} GapFreePossible(f: Format, paired: bool, calls: seq<Call>)
    requires Shaped(f, paired, calls) && GapFree(f, calls)
    ensures Possible(f, paired, calls)
  {
    if paired {
      forall k | 0 <= k < |calls|
        ensures Covered(f, calls, k)
      {
        var c, first := calls[k], calls[0].block.timestamp;
        if first < c.pair.startTs < c.block.timestamp {
          WithinFrames(f, c.pair.startTs, first, Frames(calls[..k]));
        }
      }
    }
  }

  /** In particular what the audio thread hands out, whichever of its windows the encoder sees first. */
  lemma {:induction false} WindowsGapFree(f: Format, calls: seq<Call>, t0: nat, n: nat)
    requires forall k :: 0 <= k < |calls| ==>
               && calls[k].block.timestamp == InputWindow(f.sampleRate, t0, n + k).start
               && calls[k].block.frames == AUDIO_OUTPUT_FRAMES
    ensures GapFree(f, calls)
  {
    forall k | 0 <= k < |calls|
      ensures calls[k].block.timestamp <= calls[0].block.timestamp + FramesToNs(f.sampleRate, Frames(calls[..k])) + 1
    {
      WindowFrames(calls, k);
      var from := n * AUDIO_OUTPUT_FRAMES;
      var more := k * AUDIO_OUTPUT_FRAMES;
      FloorSum(from * NS_PER_SECOND, more * NS_PER_SECOND, f.sampleRate);
      assert (n + k) * AUDIO_OUTPUT_FRAMES * NS_PER_SECOND == from * NS_PER_SECOND + more * NS_PER_SECOND;
    }
  }

  lemma {:induction false} WindowFrames(calls: seq<Call>, k: nat)
    requires k <= |calls| && forall j :: 0 <= j < |calls| ==> calls[j].block.frames == AUDIO_OUTPUT_FRAMES
    ensures Frames(calls[..k]) == k * AUDIO_OUTPUT_FRAMES
  {
    if k > 0 {
      Prefixes(calls, k - 1);
      WindowFrames(calls, k - 1);
    }
  }

  lemma {:induction false} PossiblePrefix(f: Format, paired: bool, calls: seq<Call>, n: nat)
    requires Possible(f, paired, calls) && n <= |calls|
    ensures Possible(f, paired, calls[..n])
  {
    if paired {
      forall k | 0 <= k < n
        ensures Covered(f, calls[..n], k)
      {
        assert calls[..n][..k] == calls[..k] && calls[..n][0] == calls[0];
        assert Covered(f, calls, k);
      }
    }
  }

  // ---------------------------------------------------------------- whole runs

  /** What the state says about the calls before a paired encoder starts. */
  ghost predicate Tracks(f: Format, paired: bool, calls: seq<Call>, s: Audio) {
    && (calls == [] ==> s == Initial(f))
    && (paired ==>
          && (s.startTs == 0 <==> AllEarly(f, calls))
          && (AllEarly(f, calls) ==> Level(s.buffer, f.planes, Frames(calls) * f.blockSize))
          && (calls != [] ==> s.firstReceived && s.firstRawTs == calls[0].block.timestamp))
  }

  ghost function Run(f: Format, paired: bool, calls: seq<Call>): (s: Audio)
    requires Possible(f, paired, calls)
    ensures Inv(f, paired, s) && Tracks(f, paired, calls, s)
  {
    if calls == [] then
      InitialInv(f, paired);
      Initial(f)
    else
      var last := calls[|calls| - 1];
      PossiblePrefix(f, paired, calls, |calls| - 1);
      var before := Run(f, paired, calls[..|calls| - 1]);
      ReachesIff(f, paired, calls, before);
      ReceivedKeepsInv(f, paired, before, last.block);
      ReceiveKeepsInv(f, paired, before, last.block, last.pair);
      TracksNext(f, paired, calls, before);
      Receive(f, before, last.block, last.pair)
  }

  lemma InitialInv(f: Format, paired: bool)
    ensures Inv(f, paired, Initial(f))
  {
  }

  lemma AllEarlyNext(f: Format, calls: seq<Call>)
    requires calls != []
    ensures AllEarly(f, calls) <==> AllEarly(f, calls[..|calls| - 1]) && Early(f, calls[|calls| - 1])
  {
  }

  /** After possible calls, one more call keeps the subtraction in `start_from_buffer` above zero exactly
      if the calls are still possible with it. */
  lemma {:induction false} ReachesIff(f: Format, paired: bool, calls: seq<Call>, before: Audio)
    requires calls != [] && Shaped(f, paired, calls) && Possible(f, paired, calls[..|calls| - 1])
    requires Inv(f, paired, before) && Tracks(f, paired, calls[..|calls| - 1], before)
    ensures var last := calls[|calls| - 1];
            Reaches(f, Received(f, before, last.block), last.block, last.pair) <==> Possible(f, paired, calls)
  {
    var n := |calls| - 1;
    var r := Received(f, before, calls[n].block);
    if paired {
      LastCovered(f, calls);
      ReachesCovered(f, calls, r);
    }
  }

  /** Two blocks of 1024 samples at 48 kHz with a gap of a tenth of a second between them. */
  function GapBlock(timestamp: nat): Block {
    Block(timestamp, 1024, [seq(1024, _ => 0)])
  }

  /** With such a gap the source does subtract below zero: the video starts 4799 samples after the first
      block, and only 1024 have been buffered. */
  lemma GapUnderflows()
    ensures var f := Format(1, 1, 1024, 48000);
            var pair := PairedWith(100000000);
            var calls := [Call.Call(GapBlock(1000), pair)];
            && Possible(f, true, calls)
            && !Reaches(f, Run(f, true, calls), GapBlock(100001000), pair)
  {
    var f := Format(1, 1, 1024, 48000);
    var pair := PairedWith(100000000);
    var first, second := Call.Call(GapBlock(1000), pair), Call.Call(GapBlock(100001000), pair);
    assert Early(f, first) && !Early(f, second);
    assert [first][..0] == [] && [first, second][..1] == [first];
    assert Frames([first]) == 1024;
    assert OffsetFrames(f, 100000000, 1000) == 4799;
    assert !Covered(f, [first, second], 1);
    ReachesIff(f, true, [first, second], Run(f, true, [first]));
  }

  lemma {:induction false} LastCovered(f: Format, calls: seq<Call>)
    requires calls != [] && Shaped(f, true, calls) && Possible(f, true, calls[..|calls| - 1])
    ensures Possible(f, true, calls) <==> Covered(f, calls, |calls| - 1)
  {
    var n := |calls| - 1;
    if Covered(f, calls, n) {
      forall k | 0 <= k < |calls|
        ensures Covered(f, calls, k)
      {
        if k < n {
          assert calls[..n][..k] == calls[..k] && calls[..n][0] == calls[0];
          assert Covered(f, calls[..n], k);
        }
      }
    }
  }

  lemma {:induction false} ReachesCovered(f: Format, calls: seq<Call>, r: Audio)
    requires calls != [] && Shaped(f, true, calls) && |r.buffer| == f.planes
    requires r.firstRawTs == calls[0].block.timestamp
    requires r.startTs == 0 <==> AllEarly(f, calls[..|calls| - 1])
    requires AllEarly(f, calls[..|calls| - 1]) ==> Level(r.buffer, f.planes, Frames(calls[..|calls| - 1]) * f.blockSize)
    ensures var last := calls[|calls| - 1];
            Reaches(f, r, last.block, last.pair) <==> Covered(f, calls, |calls| - 1)
  {
    var c := calls[|calls| - 1];
    var frames := Frames(calls[..|calls| - 1]);
    if Decide(f, r, c.block, c.pair).FromBuffer? && r.firstRawTs < c.pair.startTs {
      var skipped := OffsetFrames(f, c.pair.startTs, r.firstRawTs);
      if skipped <= frames {
        MulOrder(f.blockSize, skipped, frames);
      } else {
        MulOrder(f.blockSize, frames + 1, skipped);
        assert skipped * f.blockSize > |r.buffer[0]|;
      }
    }
  }

  lemma {:induction false} TracksNext(f: Format, paired: bool, calls: seq<Call>, before: Audio)
    requires calls != [] && Possible(f, paired, calls)
    requires Inv(f, paired, before) && Tracks(f, paired, calls[..|calls| - 1], before)
    requires var last := calls[|calls| - 1];
             Reaches(f, Received(f, before, last.block), last.block, last.pair)
    ensures var last := calls[|calls| - 1];
            Tracks(f, paired, calls, Receive(f, before, last.block, last.pair))
  {
    var last := calls[|calls| - 1];
    var r := Received(f, before, last.block);
    ReceivedKeepsInv(f, paired, before, last.block);
    BufferedInStep(f, r, last.block, last.pair);
    BufferedConserves(f, paired, r, last.block, last.pair);
    AllEarlyNext(f, calls);
    if Decide(f, r, last.block, last.pair).Waiting? {
      JoinLevel(r.buffer, last.block.data, f.planes, |r.buffer[0]|, last.block.frames * f.blockSize);
      assert Frames(calls) * f.blockSize
          == Frames(calls[..|calls| - 1]) * f.blockSize + last.block.frames * f.blockSize;
    } else {
      DrainedKeeps(f, Buffered(f, r, last.block, last.pair));
    }
  }

  /** Until a paired encoder starts, nothing it got is lost. */
  lemma {:induction false} WaitingKeepsAll(f: Format, paired: bool, calls: seq<Call>, i: nat)
    requires Possible(f, paired, calls) && i < f.planes
    requires paired && AllEarly(f, calls)
    ensures Run(f, paired, calls).sent == [] && Run(f, paired, calls).buffer[i] == Brought(calls, i)
  {
    if calls != [] {
      var n := |calls| - 1;
      PossiblePrefix(f, paired, calls, n);
      AllEarlyNext(f, calls);
      ReachesIff(f, paired, calls, Run(f, paired, calls[..n]));
      WaitingStep(f, Run(f, paired, calls[..n]), calls[n].block, calls[n].pair, i);
      WaitingKeepsAll(f, paired, calls[..n], i);
    }
  }

  lemma WaitingStep(f: Format, s: Audio, b: Block, pair: Pair, i: nat)
    requires Inv(f, true, s) && pair.PairedWith? && Fits(f, b) && i < f.planes
    requires s.startTs == 0 && Early(f, Call.Call(b, pair))
    ensures Reaches(f, Received(f, s, b), b, pair) && Inv(f, true, Receive(f, s, b, pair))
    ensures Receive(f, s, b, pair).buffer[i] == s.buffer[i] + b.data[i]
  {
    ReceivedKeepsInv(f, true, s, b);
    ReceiveKeepsInv(f, true, s, b, pair);
  }

  predicate Started(f: Format, paired: bool, calls: seq<Call>) {
    !paired || !AllEarly(f, calls)
  }

  /** Once started, every block is kept whole, on every plane. */
  lemma RunningStep(f: Format, paired: bool, s: Audio, b: Block, pair: Pair, i: nat)
    requires Inv(f, paired, s) && paired == pair.PairedWith? && Fits(f, b) && i < f.planes
    requires paired ==> s.startTs != 0
    ensures Reaches(f, Received(f, s, b), b, pair) && Inv(f, paired, Receive(f, s, b, pair))
    ensures Receive(f, s, b, pair).kept[i] == s.kept[i] + b.data[i]
  {
    var r := Received(f, s, b);
    ReceivedKeepsInv(f, paired, s, b);
    ReceiveKeepsInv(f, paired, s, b, pair);
    BufferedInStep(f, r, b, pair);
    BufferedConserves(f, paired, r, b, pair);
    DrainedKeeps(f, Buffered(f, r, b, pair));
  }

  /** The bytes of one plane kept after some calls. */
  ghost function KeptAfter(f: Format, paired: bool, calls: seq<Call>, i: nat): Bytes
    requires Possible(f, paired, calls) && i < f.planes
  {
    Run(f, paired, calls).kept[i]
  }

  lemma {:induction false} KeptNext(f: Format, paired: bool, calls: seq<Call>, i: nat)
    requires calls != [] && Possible(f, paired, calls) && i < f.planes
    requires Started(f, paired, calls[..|calls| - 1])
    ensures Possible(f, paired, calls[..|calls| - 1])
    ensures KeptAfter(f, paired, calls, i) ==
            KeptAfter(f, paired, calls[..|calls| - 1], i) + calls[|calls| - 1].block.data[i]
  {
    var n := |calls| - 1;
    PossiblePrefix(f, paired, calls, n);
    RunningStep(f, paired, Run(f, paired, calls[..n]), calls[n].block, calls[n].pair, i);
  }

  lemma {:induction false} BroughtLast(calls: seq<Call>, k: nat, i: nat)
    requires k < |calls| && i < |calls[|calls| - 1].block.data|
    ensures Brought(calls[k..], i) == Brought(calls[..|calls| - 1][k..], i) + calls[|calls| - 1].block.data[i]
  {
    assert calls[k..][..|calls| - 1 - k] == calls[..|calls| - 1][k..];
  }

  lemma {:induction false} StartedForGood(f: Format, paired: bool, calls: seq<Call>, k: nat, n: nat)
    requires k <= n <= |calls| && Started(f, paired, calls[..k])
    ensures Started(f, paired, calls[..n]) && calls[..n][..k] == calls[..k]
  {
    assert calls[..n][..k] == calls[..k];
    assert AllEarly(f, calls[..n]) ==> AllEarly(f, calls[..n][..k]);
  }

  /** From any moment after the start, what was kept then is followed by everything brought since; with
      `Inv` this makes the frames and the leftover one unbroken copy of the input. */
  lemma {:induction false} KeptFrom(f: Format, paired: bool, calls: seq<Call>, k: nat, i: nat)
    requires Possible(f, paired, calls) && k <= |calls| && i < f.planes
    requires Started(f, paired, calls[..k])
    ensures Possible(f, paired, calls[..k])
    ensures KeptAfter(f, paired, calls, i) == KeptAfter(f, paired, calls[..k], i) + Brought(calls[k..], i)
    decreases |calls|, 1
  {
    PossiblePrefix(f, paired, calls, k);
    if k == |calls| {
      TakeAll(calls);
      Regroup(KeptAfter(f, paired, calls, i), [], []);
    } else {
      KeptFromEarlier(f, paired, calls, calls[..|calls| - 1], k, i);
    }
  }

  lemma {:induction false} KeptFromEarlier(f: Format, paired: bool, calls: seq<Call>, earlier: seq<Call>,
                                           k: nat, i: nat)
    requires Possible(f, paired, calls) && k < |calls| && i < f.planes && earlier == calls[..|calls| - 1]
    requires Started(f, paired, calls[..k]) && Possible(f, paired, calls[..k])
    ensures KeptAfter(f, paired, calls, i) == KeptAfter(f, paired, calls[..k], i) + Brought(calls[k..], i)
    decreases |calls|, 0
  {
    StartedForGood(f, paired, calls, k, |earlier|);
    PossiblePrefix(f, paired, calls, |earlier|);
    KeptFrom(f, paired, earlier, k, i);
    KeptNext(f, paired, calls, i);
    BroughtLast(calls, k, i);
    Regroup(KeptAfter(f, paired, calls[..k], i), Brought(earlier[k..], i), calls[|earlier|].block.data[i]);
  }

  /** What is kept at the start itself: the rest of the block that reaches the video's start, or the rest
      of everything brought before; in the second case the block of that call is skipped. */
  lemma {:induction false} KeptAtStart(f: Format, calls: seq<Call>, i: nat)
    requires calls != [] && Possible(f, true, calls) && i < f.planes
    requires AllEarly(f, calls[..|calls| - 1]) && !Early(f, calls[|calls| - 1])
    ensures var last, first := calls[|calls| - 1], calls[0].block.timestamp;
            var vStartTs := last.pair.startTs;
            var kept, earlier := Run(f, true, calls).kept[i], Brought(calls[..|calls| - 1], i);
            if last.block.timestamp <= vStartTs then
              var offset := OffsetSize(f, vStartTs, last.block.timestamp);
              offset < |last.block.data[i]| && kept == last.block.data[i][offset..]
            else
              var offset := if first < vStartTs then OffsetSize(f, vStartTs, first) else 0;
              offset <= |earlier| && kept == earlier[offset..]
  {
    var n := |calls| - 1;
    var last := calls[n];
    PossiblePrefix(f, true, calls, n);
    var before := Run(f, true, calls[..n]);
    var r := Received(f, before, last.block);
    ReachesIff(f, true, calls, before);
    WaitingKeepsAll(f, true, calls[..n], i);
    ReceivedKeepsInv(f, true, before, last.block);
    BufferedInStep(f, r, last.block, last.pair);
    BufferedConserves(f, true, r, last.block, last.pair);
    DrainedKeeps(f, Buffered(f, r, last.block, last.pair));
    if Decide(f, r, last.block, last.pair).FromBlock? {
      StartsInsideBlock(f, r, last.block, last.pair);
    }
  }
}
