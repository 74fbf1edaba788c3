/** The audio thread's state, with the queue of windows pushed and popped in place. Its methods are
    proved against the simple model of `AudioTicks`. */
module AudioCore {
  import opened CDivision
  import opened AudioTicks
  import opened AudioDeepening

  lemma PushFront<T>(x: T, s: seq<T>, t: seq<T>)
    ensures [x] + (s + t) == ([x] + s) + t
  {
  }

  lemma PushBack<T>(s: seq<T>, t: seq<T>, x: T)
    ensures (s + t) + [x] == s + (t + [x])
  {
  }

  lemma PopFront<T>(s: seq<T>, t: seq<T>)
    ensures s != [] ==> (s + t)[1..] == s[1..] + t && (s + t)[0] == s[0]
    ensures s == [] ==> s + t == t
  {
  }

  class Audio {
    const rate: pos
    var bufferedTimestamps: seq<Window>
    var waitTicks: nat
    var totalTicks: nat
    var bufferedTs: int
    ghost var pending: seq<Window>      // the input windows still in the queue

    ghost function Abs(): Model
      reads this
    {
      Model(pending, waitTicks, totalTicks, bufferedTs)
    }

    ghost predicate Queued()
      reads this
    {
      bufferedTimestamps == Queue(Abs(), rate)
    }

    /** What holds between two callbacks. */
    ghost predicate Valid()
      reads this
    {
      Queued() && Inv(Abs())
    }

    constructor (rate: pos)
      ensures Valid() && Abs() == START && this.rate == rate
    {
      this.rate := rate;
      bufferedTimestamps, waitTicks, totalTicks, bufferedTs, pending := [], 0, 0, 0, [];
    }

    /** add_audio_buffering. When not a single tick is added, the end of the window given back is
        whatever the variable happened to hold. */
    method AddAudioBuffering(ts: Window, minTs: int, unset: int) returns (out: Window)
      requires Queued() && pending != [] && totalTicks <= MAX_BUFFERING_TICKS
      requires waitTicks > 0 ==> bufferedTs == pending[0].start
      requires ts == bufferedTimestamps[0] && minTs < ts.start == FrontStart(Abs(), rate)
      modifies this`bufferedTimestamps, this`waitTicks, this`totalTicks, this`bufferedTs
      ensures Queued() && Abs() == Deepen(old(Abs()), rate, minTs)
      ensures out.start == bufferedTimestamps[0].start == FrontStart(Abs(), rate)
      ensures |bufferedTimestamps| > |old(bufferedTimestamps)| ==> out == bufferedTimestamps[0]
    {
      out := ts;
      if totalTicks == MAX_BUFFERING_TICKS {
        return;
      }
      if waitTicks == 0 {
        bufferedTs := ts.start;
      }
      var frames := NsToFrames(rate, ts.start - minTs);
      var ticks := (frames + AUDIO_OUTPUT_FRAMES - 1) / AUDIO_OUTPUT_FRAMES;
      totalTicks := totalTicks + ticks;
      if totalTicks >= MAX_BUFFERING_TICKS {
        ticks := ticks - (totalTicks - MAX_BUFFERING_TICKS);
        totalTicks := MAX_BUFFERING_TICKS;
      }
      out := Window(bufferedTs - FramesToNs(rate, waitTicks * AUDIO_OUTPUT_FRAMES), unset);
      out := PushTicks(ticks, out);
    }

    /** The loop of add_audio_buffering: one more window in front for every tick. */
    method PushTicks(ticks: nat, first: Window) returns (newTs: Window)
      requires Queued() && pending != []
      requires first.start == Boundary(rate, bufferedTs, waitTicks)
      modifies this`bufferedTimestamps, this`waitTicks
      ensures Queued() && waitTicks == old(waitTicks) + ticks
      ensures newTs.start == Boundary(rate, bufferedTs, waitTicks)
      ensures ticks > 0 ==> newTs == bufferedTimestamps[0]
    {
      newTs := first;
      var left := ticks;
      while left > 0
        invariant 0 <= left && Queued() && waitTicks + left == old(waitTicks) + ticks
        invariant newTs.start == Boundary(rate, bufferedTs, waitTicks)
        invariant left < ticks ==> newTs == bufferedTimestamps[0]
      {
        left := left - 1;
        waitTicks := waitTicks + 1;
        newTs := Window(bufferedTs - FramesToNs(rate, waitTicks * AUDIO_OUTPUT_FRAMES), newTs.start);
        PushFront(newTs, Inserted(rate, bufferedTs, waitTicks - 1), pending);
        bufferedTimestamps := [newTs] + bufferedTimestamps;
      }
    }

    /** audio_callback: queue the input window, deepen the queue if a source is behind its front, hand
        out and remove the front. */
    method AudioCallback(input: Window, sources: seq<Source>, unset: int)
      returns (outTs: int, success: bool, marked: seq<Source>)
      requires Valid()
      modifies this
      ensures Valid()
      ensures Outcome(Abs(), outTs, success) == Callback(old(Abs()), rate, input, sources)
      ensures CallRight(rate, old(Abs()), input, sources, Outcome(Abs(), outTs, success))
    {
      CallbackRight(rate, Abs(), input, sources);
      PushBack(Inserted(rate, bufferedTs, waitTicks), pending, input);
      CallbackKeepsInv(Abs(), rate, input, sources);
      bufferedTimestamps := bufferedTimestamps + [input];
      pending := pending + [input];
      FrontOfQueue();
      var ts := bufferedTimestamps[0];
      var minTs;
      minTs, marked := CalcMinTs(rate, ts.start, sources);
      if minTs < ts.start {
        ts := AddAudioBuffering(ts, minTs, unset);
      }
      outTs := ts.start;
      success := PopTimestamp();
    }

    lemma FrontOfQueue()
      requires Queued() && pending != []
      ensures bufferedTimestamps != [] && bufferedTimestamps[0].start == FrontStart(Abs(), rate)
    {
      PopFront(Inserted(rate, bufferedTs, waitTicks), pending);
    }

    method PopTimestamp() returns (success: bool)
      requires Queued() && pending != []
      modifies this`bufferedTimestamps, this`waitTicks, this`pending
      ensures Queued()
      ensures Outcome(Abs(), FrontStart(old(Abs()), rate), success) == Pop(old(Abs()), rate)
    {
      FrontOfQueue();
      PopFront(Inserted(rate, bufferedTs, waitTicks), pending);
      bufferedTimestamps := bufferedTimestamps[1..];
      success := waitTicks == 0;
      if waitTicks > 0 {
        waitTicks := waitTicks - 1;
        PopFront(Inserted(rate, bufferedTs, waitTicks), pending);
      } else {
        pending := pending[1..];
      }
    }
  }

  // ---------------------------------------------------------------- mixing one source into the window

  predicate Mixes(rate: pos, audioTs: int, ts: Window) {
    ts.start <= audioTs < ts.end && NsToFrames(rate, audioTs - ts.start) != AUDIO_OUTPUT_FRAMES
  }

  /** A source inside a window of the audio thread always starts inside its 1024 frames, so the test
      that gives up at frame 1024 never holds there. */
  lemma StartPointInside(rate: pos, t0: int, n: nat, audioTs: int)
    requires var ts := InputWindow(rate, t0, n); ts.start <= audioTs < ts.end
    ensures var ts := InputWindow(rate, t0, n);
            NsToFrames(rate, audioTs - ts.start) < AUDIO_OUTPUT_FRAMES && Mixes(rate, audioTs, ts)
  {
    var ts := InputWindow(rate, t0, n);
    var from, to := n * AUDIO_OUTPUT_FRAMES, (n + 1) * AUDIO_OUTPUT_FRAMES;
    FloorBounds(from * NS_PER_SECOND, rate);
    FloorBounds(to * NS_PER_SECOND, rate);
    FloorBounds((audioTs - ts.start) * rate, NS_PER_SECOND);
    var span := ts.end - ts.start;
    assert span * rate == FramesToNs(rate, to) * rate - FramesToNs(rate, from) * rate;
    MulOrder(rate, audioTs - ts.start, span - 1);
    assert rate * (span - 1) == span * rate - rate;
    assert (audioTs - ts.start) * rate == rate * (audioTs - ts.start);
  }

  /** mix_audio on one plane: the source's first sample lands on the frame of its time stamp, the frames
      before it keep what was mixed so far, and nothing is written past the window. */
  method MixAudio(mix: array<real>, aud: array<real>, rate: pos, audioTs: int, ts: Window)
    requires mix.Length == aud.Length == AUDIO_OUTPUT_FRAMES && mix != aud
    requires ts.start <= audioTs < ts.end ==> NsToFrames(rate, audioTs - ts.start) <= AUDIO_OUTPUT_FRAMES
    modifies mix
    ensures !Mixes(rate, audioTs, ts) ==> mix[..] == old(mix[..])
    ensures Mixes(rate, audioTs, ts) ==>
              var first := NsToFrames(rate, audioTs - ts.start);
              forall k :: 0 <= k < AUDIO_OUTPUT_FRAMES ==>
                mix[k] == old(mix[k]) + if k < first then 0.0 else aud[k - first]
  {
    if audioTs < ts.start || ts.end <= audioTs {
      return;
    }
    var startPoint := 0;
    if audioTs != ts.start {
      startPoint := NsToFrames(rate, audioTs - ts.start);
      if startPoint == AUDIO_OUTPUT_FRAMES {
        return;
      }
    }
    var end := AUDIO_OUTPUT_FRAMES - startPoint;
    var i := 0;
    while i < end
      invariant i <= end
      invariant forall k :: 0 <= k < AUDIO_OUTPUT_FRAMES ==>
                  mix[k] == old(mix[k]) + if startPoint <= k < startPoint + i then aud[k - startPoint] else 0.0
    {
      mix[startPoint + i] := mix[startPoint + i] + aud[i];
      i := i + 1;
    }
  }
}
