/** Output windows of the audio thread: how the queue of time stamps is deepened, one 1024-frame
    tick at a time, when a source turns out to be behind, and which windows are handed out. */
module AudioTicks {
  import opened CDivision

  const AUDIO_OUTPUT_FRAMES := 1024
  const MAX_BUFFERING_TICKS := 45
  const NS_PER_SECOND := 1000000000

  function FramesToNs(rate: pos, frames: nat): nat {
    frames * NS_PER_SECOND / rate
  }

  function NsToFrames(rate: pos, ns: nat): nat {
    ns * rate / NS_PER_SECOND
  }

  datatype Window = Window(start: int, end: int)

  /** The n-th input window of the audio thread that started at `t0`. */
  function InputWindow(rate: pos, t0: int, n: nat): Window {
    Window(t0 + FramesToNs(rate, n * AUDIO_OUTPUT_FRAMES), t0 + FramesToNs(rate, (n + 1) * AUDIO_OUTPUT_FRAMES))
  }

  /** An audio source: a time stamp of zero means that it has none yet. */
  datatype Source = Source(audioTs: nat, pending: bool, renders: bool, buffered: nat)

  /** Where the k-th inserted tick before `bufferedTs` starts. */
  function Boundary(rate: pos, bufferedTs: int, k: nat): int {
    bufferedTs - FramesToNs(rate, k * AUDIO_OUTPUT_FRAMES)
  }

  /** The inserted ticks still to be waited for, the earliest first. */
  function Inserted(rate: pos, bufferedTs: int, k: nat): (r: seq<Window>)
    ensures |r| == k
  {
    if k == 0 then []
    else [Window(Boundary(rate, bufferedTs, k), Boundary(rate, bufferedTs, k - 1))] + Inserted(rate, bufferedTs, k - 1)
  }

  // ---------------------------------------------------------------- the earliest source

  predicate Counts(src: Source) {
    !src.pending && src.audioTs != 0
  }

  function FindMin(ts: int, sources: seq<Source>): (r: int)
    ensures r <= ts
    ensures forall src :: src in sources && Counts(src) ==> r <= src.audioTs
    ensures r == ts || exists src :: src in sources && Counts(src) && r == src.audioTs
  {
    if sources == [] then ts
    else
      var src := sources[0];
      FindMin(if Counts(src) && src.audioTs < ts then src.audioTs else ts, sources[1..])
  }

  /** audio_buffer_insuffient: fewer samples than the rest of the tick after `minTs`. */
  predicate Insufficient(rate: pos, src: Source, minTs: int) {
    && !src.renders && Counts(src)
    && (if src.audioTs == minTs || src.audioTs == minTs - 1 then src.buffered < AUDIO_OUTPUT_FRAMES
        else
          && src.audioTs > minTs
          && var startPoint := NsToFrames(rate, src.audioTs - minTs);
             startPoint < AUDIO_OUTPUT_FRAMES && src.buffered < AUDIO_OUTPUT_FRAMES - startPoint)
  }

  /** A source that begins after the tick lacks samples exactly if those it has end before the tick does. */
  lemma InsufficientIff(rate: pos, src: Source, minTs: int)
    requires Counts(src) && !src.renders && src.audioTs >= minTs - 1
    ensures Insufficient(rate, src, minTs) <==>
            if src.audioTs <= minTs then src.buffered < AUDIO_OUTPUT_FRAMES
            else (src.audioTs - minTs) * rate < (AUDIO_OUTPUT_FRAMES - src.buffered) * NS_PER_SECOND
  {
    if src.audioTs > minTs {
      FloorBounds((src.audioTs - minTs) * rate, NS_PER_SECOND);
    }
  }

  lemma {:induction false} FindMinExtends(ts: int, sources: seq<Source>, src: Source)
    ensures FindMin(ts, sources + [src]) ==
            var r := FindMin(ts, sources); if Counts(src) && src.audioTs < r then src.audioTs else r
  {
    if sources == [] {
      assert (sources + [src])[1..] == [];
    } else {
      assert (sources + [src])[1..] == sources[1..] + [src];
      var first := sources[0];
      FindMinExtends(if Counts(first) && first.audioTs < ts then first.audioTs else ts, sources[1..], src);
    }
  }

  lemma {:induction false} FindMinFloor(ts: int, sources: seq<Source>)
    requires forall src :: src in sources && Counts(src) ==> ts <= src.audioTs
    ensures FindMin(ts, sources) == ts
  {
    if sources != [] {
      assert sources[0] in sources;
      FindMinFloor(ts, sources[1..]);
    }
  }

  method FindMinTs(ts: int, sources: seq<Source>) returns (minTs: int)
    ensures minTs == FindMin(ts, sources)
  {
    minTs := ts;
    for i := 0 to |sources|
      invariant minTs == FindMin(ts, sources[..i])
    {
      FindMinExtends(ts, sources[..i], sources[i]);
      assert sources[..i + 1] == sources[..i] + [sources[i]];
      if !sources[i].pending && sources[i].audioTs != 0 && sources[i].audioTs < minTs {
        minTs := sources[i].audioTs;
      }
    }
    assert sources[..|sources|] == sources;
  }

  /** Every source without enough samples becomes pending; the others are left alone. */
  method MarkInvalidSources(rate: pos, sources: seq<Source>, minTs: int)
    returns (marked: seq<Source>, recalculate: bool)
    ensures |marked| == |sources|
    ensures forall i :: 0 <= i < |sources| ==>
              marked[i] == if Insufficient(rate, sources[i], minTs) then sources[i].(pending := true) else sources[i]
    ensures recalculate <==> exists i :: 0 <= i < |sources| && Insufficient(rate, sources[i], minTs)
  {
    marked, recalculate := sources, false;
    for i := 0 to |sources|
      invariant |marked| == |sources|
      invariant forall k :: i <= k < |sources| ==> marked[k] == sources[k]
      invariant forall k :: 0 <= k < i ==>
                  marked[k] == if Insufficient(rate, sources[k], minTs) then sources[k].(pending := true)
                               else sources[k]
      invariant recalculate <==> exists k :: 0 <= k < i && Insufficient(rate, sources[k], minTs)
    {
      if Insufficient(rate, sources[i], minTs) {
        marked := marked[i := sources[i].(pending := true)];
        recalculate := true;
      }
    }
  }

  /** The minimum is not reset before the second search, so a source that has just been found to lack
      samples still holds the time back: the result is the minimum over the sources as they came. */
  method CalcMinTs(rate: pos, ts: int, sources: seq<Source>) returns (minTs: int, marked: seq<Source>)
    ensures minTs == FindMin(ts, sources)
    ensures |marked| == |sources|
    ensures forall i :: 0 <= i < |sources| ==>
              marked[i] == if Insufficient(rate, sources[i], minTs) then sources[i].(pending := true) else sources[i]
  {
    var recalculate;
    minTs := FindMinTs(ts, sources);
    marked, recalculate := MarkInvalidSources(rate, sources, minTs);
    if recalculate {
      FindMinFloor(minTs, marked);
      minTs := FindMinTs(minTs, marked);
    }
  }

  /** What a search that started afresh would find among the marked sources: the same time, exactly if
      some source that is not short of samples is as early, or none is earlier than the tick itself. */
  lemma {:induction false} FreshSearchAgreesIff(rate: pos, ts: int, sources: seq<Source>, marked: seq<Source>)
    requires |marked| == |sources|
    requires forall i :: 0 <= i < |sources| ==>
               marked[i] == if Insufficient(rate, sources[i], FindMin(ts, sources)) then sources[i].(pending := true)
                            else sources[i]
    ensures var minTs := FindMin(ts, sources);
            && FindMin(ts, marked) >= minTs
            && (FindMin(ts, marked) == minTs <==>
                  minTs == ts || exists i :: 0 <= i < |sources| && Counts(sources[i]) && sources[i].audioTs == minTs
                                             && !Insufficient(rate, sources[i], minTs))
  {
    var minTs := FindMin(ts, sources);
    var again := FindMin(ts, marked);
    if again != ts {
      var src :| src in marked && Counts(src) && again == src.audioTs;
      var i :| 0 <= i < |marked| && marked[i] == src;
      assert sources[i] in sources && sources[i] == src;
    }
    forall i | 0 <= i < |sources| && Counts(sources[i]) && sources[i].audioTs == minTs
               && !Insufficient(rate, sources[i], minTs)
      ensures again <= minTs
    {
      assert marked[i] in marked;
    }
  }

  /** One source, half a window behind and without samples: it is marked, but its time still counts. */
  lemma ShortSourceHoldsBack()
    ensures var src := Source(500, false, false, 0);
            && Insufficient(48000, src, 500)
            && FindMin(1000, [src]) == 500
            && FindMin(1000, [src.(pending := true)]) == 1000
  {
    var src := Source(500, false, false, 0);
    assert [src][1..] == [] && [src.(pending := true)][1..] == [];
  }

  // ---------------------------------------------------------------- the simple model

  /** What the queue stands for: ticks to wait for, then the input windows not yet handed out. */
  datatype Model = Model(pending: seq<Window>, wait: nat, total: nat, bufferedTs: int)

  const START := Model([], 0, 0, 0)

  predicate Inv(m: Model) {
    && m.total == m.wait + |m.pending| <= MAX_BUFFERING_TICKS
    && (m.wait > 0 ==> m.pending != [] && m.bufferedTs == m.pending[0].start)
  }

  function FrontStart(m: Model, rate: pos): int
    requires m.pending != []
  {
    if m.wait > 0 then Boundary(rate, m.bufferedTs, m.wait) else m.pending[0].start
  }

  function WantedTicks(rate: pos, offset: nat): nat {
    (NsToFrames(rate, offset) + AUDIO_OUTPUT_FRAMES - 1) / AUDIO_OUTPUT_FRAMES
  }

  function AddedTicks(rate: pos, total: nat, offset: nat): (ticks: nat)
    requires total < MAX_BUFFERING_TICKS
    ensures total + ticks <= MAX_BUFFERING_TICKS
  {
    var ticks := WantedTicks(rate, offset);
    if total + ticks >= MAX_BUFFERING_TICKS then MAX_BUFFERING_TICKS - total else ticks
  }

  function Deepen(m: Model, rate: pos, minTs: int): Model
    requires m.pending != [] && minTs < FrontStart(m, rate) && m.total <= MAX_BUFFERING_TICKS
  {
    if m.total == MAX_BUFFERING_TICKS then m
    else
      var ticks := AddedTicks(rate, m.total, FrontStart(m, rate) - minTs);
      Model(m.pending, m.wait + ticks, m.total + ticks, if m.wait == 0 then m.pending[0].start else m.bufferedTs)
  }

  datatype Outcome = Outcome(m: Model, outTs: int, delivered: bool)

  function Pop(m: Model, rate: pos): Outcome
    requires m.pending != []
  {
    if m.wait > 0 then Outcome(m.(wait := m.wait - 1), FrontStart(m, rate), false)
    else Outcome(m.(pending := m.pending[1..]), FrontStart(m, rate), true)
  }

  function Callback(m: Model, rate: pos, input: Window, sources: seq<Source>): Outcome
    requires m.total <= MAX_BUFFERING_TICKS
  {
    var pushed := m.(pending := m.pending + [input]);
    var start := FrontStart(pushed, rate);
    var minTs := FindMin(start, sources);
    Pop(if minTs < start then Deepen(pushed, rate, minTs) else pushed, rate)
  }

  lemma CallbackKeepsInv(m: Model, rate: pos, input: Window, sources: seq<Source>)
    requires Inv(m)
    ensures Inv(Callback(m, rate, input, sources).m)
  {
    var pushed := m.(pending := m.pending + [input]);
    assert m.wait > 0 ==> pushed.pending[0] == m.pending[0];
  }

  // ---------------------------------------------------------------- whole runs

  datatype Call = Call(input: Window, sources: seq<Source>)

  datatype History = History(m: Model, delivered: seq<int>, withheld: nat)

  /** The callback as it adds to a history. */
  function Advance(rate: pos, h: History, c: Call): History
    requires h.m.total <= MAX_BUFFERING_TICKS
  {
    var o := Callback(h.m, rate, c.input, c.sources);
    if o.delivered then History(o.m, h.delivered + [o.outTs], h.withheld)
    else History(o.m, h.delivered, h.withheld + 1)
  }

  ghost function Run(rate: pos, calls: seq<Call>): (h: History)
    ensures Inv(h.m)
  {
    if calls == [] then History(START, [], 0)
    else
      var last := calls[|calls| - 1];
      var h := Run(rate, calls[..|calls| - 1]);
      CallbackKeepsInv(h.m, rate, last.input, last.sources);
      Advance(rate, h, last)
  }

  /** The calls that succeeded got the starts of the first inputs; the inputs after those still wait. */
  ghost predicate HandedOutInOrder(h: History, calls: seq<Call>) {
    && |h.delivered| + |h.m.pending| == |calls|
    && h.withheld == |h.m.pending|
    && (forall i :: 0 <= i < |h.delivered| ==> h.delivered[i] == calls[i].input.start)
    && (forall i :: 0 <= i < |h.m.pending| ==> h.m.pending[i] == calls[|h.delivered| + i].input)
  }

  /** One call adds its input behind the others and, if it succeeds, takes the oldest one away. */
  lemma CallbackTakesOldest(m: Model, rate: pos, input: Window, sources: seq<Source>)
    requires Inv(m)
    ensures var o := Callback(m, rate, input, sources);
            && o.m.pending == (m.pending + [input])[if o.delivered then 1 else 0..]
            && (o.delivered ==> o.outTs == (m.pending + [input])[0].start)
  {
  }

  lemma PushAndTake<T>(q: seq<T>, x: T)
    ensures |(q + [x])[1..]| == |q|
    ensures forall i :: 0 <= i < |q| ==> (q + [x])[1..][i] == if i + 1 < |q| then q[i + 1] else x
  {
  }

  lemma AdvanceInOrder(rate: pos, h: History, calls: seq<Call>)
    requires calls != [] && Inv(h.m) && HandedOutInOrder(h, calls[..|calls| - 1])
    ensures HandedOutInOrder(Advance(rate, h, calls[|calls| - 1]), calls)
  {
    var c := calls[|calls| - 1];
    var o := Callback(h.m, rate, c.input, c.sources);
    CallbackTakesOldest(h.m, rate, c.input, c.sources);
    if o.delivered {
      TakenInOrder(h, calls, o);
    } else {
      WithheldInOrder(h, calls, o);
    }
  }

  lemma TakenInOrder(h: History, calls: seq<Call>, o: Outcome)
    requires calls != [] && HandedOutInOrder(h, calls[..|calls| - 1])
    requires var q := h.m.pending + [calls[|calls| - 1].input]; o.m.pending == q[1..] && o.outTs == q[0].start
    ensures HandedOutInOrder(History(o.m, h.delivered + [o.outTs], h.withheld), calls)
  {
    PushAndTake(h.m.pending, calls[|calls| - 1].input);
    assert o.outTs == calls[|h.delivered|].input.start;
  }

  lemma WithheldInOrder(h: History, calls: seq<Call>, o: Outcome)
    requires calls != [] && HandedOutInOrder(h, calls[..|calls| - 1])
    requires o.m.pending == h.m.pending + [calls[|calls| - 1].input]
    ensures HandedOutInOrder(History(o.m, h.delivered, h.withheld + 1), calls)
  {
  }

  /** The successful calls hand out exactly the starts of the first inputs, in order, without gap or
      repetition; what is missing are the at most 45 latest inputs, one for every call that failed. */
  lemma {:induction false} DeliveredInOrder(rate: pos, calls: seq<Call>)
    ensures HandedOutInOrder(Run(rate, calls), calls)
    ensures Run(rate, calls).withheld <= MAX_BUFFERING_TICKS
  {
    if calls != [] {
      DeliveredInOrder(rate, calls[..|calls| - 1]);
      AdvanceInOrder(rate, Run(rate, calls[..|calls| - 1]), calls);
    }
  }

  predicate Contiguous(q: seq<Window>) {
    forall i :: 0 < i < |q| ==> q[i - 1].end == q[i].start
  }

  /** The windows of the audio thread abut from its start on, and each begins in the nanosecond in which its
      first sample does. */
  lemma InputWindowsAbut(rate: pos, t0: int, n: nat)
    ensures InputWindow(rate, t0, 0).start == t0
    ensures InputWindow(rate, t0, n).end == InputWindow(rate, t0, n + 1).start
    ensures var passed := InputWindow(rate, t0, n).start - t0;
            passed * rate <= n * AUDIO_OUTPUT_FRAMES * NS_PER_SECOND < (passed + 1) * rate
  {
    FloorBounds(n * AUDIO_OUTPUT_FRAMES * NS_PER_SECOND, rate);
    FloorBounds(0, rate);
  }

  /** Position by position: the inserted ticks, each ending where the next one starts. */
  lemma {:induction false} InsertedAt(rate: pos, bufferedTs: int, k: nat, i: nat)
    requires i < k
    ensures Inserted(rate, bufferedTs, k)[i] ==
            Window(Boundary(rate, bufferedTs, k - i), Boundary(rate, bufferedTs, k - i - 1))
  {
    if i > 0 {
      InsertedAt(rate, bufferedTs, k - 1, i - 1);
    }
  }

  ghost function Queue(m: Model, rate: pos): seq<Window> {
    Inserted(rate, m.bufferedTs, m.wait) + m.pending
  }

  /** The ticks waited for abut, and the last of them ends where the oldest input starts; with
      abutting inputs the whole queue abuts. */
  lemma QueueContiguous(m: Model, rate: pos)
    requires Inv(m) && Contiguous(m.pending)
    ensures Contiguous(Queue(m, rate))
    ensures |Queue(m, rate)| == m.total
  {
    var q := Queue(m, rate);
    forall i | 0 < i < |q|
      ensures q[i - 1].end == q[i].start
    {
      if i <= m.wait {
        InsertedAt(rate, m.bufferedTs, m.wait, i - 1);
        if i < m.wait {
          InsertedAt(rate, m.bufferedTs, m.wait, i);
        }
      }
    }
  }

  predicate Abut(calls: seq<Call>) {
    forall i :: 0 < i < |calls| ==> calls[i - 1].input.end == calls[i].input.start
  }

  /** In every run with abutting inputs, such as those of the audio thread, the whole queue abuts. */
  lemma {:induction false} QueueContiguousInRuns(rate: pos, calls: seq<Call>)
    requires Abut(calls)
    ensures Contiguous(Queue(Run(rate, calls).m, rate))
    ensures |Queue(Run(rate, calls).m, rate)| == Run(rate, calls).m.total
  {
    var h := Run(rate, calls);
    DeliveredInOrder(rate, calls);
    PendingContiguous(h, calls);
    QueueContiguous(h.m, rate);
  }

  lemma PendingContiguous(h: History, calls: seq<Call>)
    requires Abut(calls) && HandedOutInOrder(h, calls)
    ensures Contiguous(h.m.pending)
  {
    forall i | 0 < i < |h.m.pending|
      ensures h.m.pending[i - 1].end == h.m.pending[i].start
    {
      assert calls[|h.delivered| + i - 1].input.end == calls[|h.delivered| + i].input.start;
    }
  }

  // ---------------------------------------------------------------- how far back the queue reaches

  lemma FloorBounds(a: nat, d: pos)
    ensures (a / d) * d <= a < (a / d) * d + d
  {
  }

  /** How much earlier the queue starts with `ticks` more of them. */
  function Span(rate: pos, wait: nat, ticks: nat): int {
    FramesToNs(rate, (wait + ticks) * AUDIO_OUTPUT_FRAMES) - FramesToNs(rate, wait * AUDIO_OUTPUT_FRAMES)
  }

  /** The added ticks span the offset: rounding both ways loses less than one frame and one nanosecond,
      and overshoots by less than 1023 frames and one nanosecond. */
  lemma TicksSpanOffset(rate: pos, wait: nat, offset: nat, ticks: nat)
    requires ticks == WantedTicks(rate, offset)
    ensures var span := Span(rate, wait, ticks);
            && (offset - span) * rate < NS_PER_SECOND + rate
            && (span - offset) * rate < (AUDIO_OUTPUT_FRAMES - 1) * NS_PER_SECOND + rate
  {
    var before, after := wait * AUDIO_OUTPUT_FRAMES, (wait + ticks) * AUDIO_OUTPUT_FRAMES;
    FloorBounds(offset * rate, NS_PER_SECOND);
    FloorBounds(before * NS_PER_SECOND, rate);
    FloorBounds(after * NS_PER_SECOND, rate);
    var span := FramesToNs(rate, after) - FramesToNs(rate, before);
    assert span * rate == FramesToNs(rate, after) * rate - FramesToNs(rate, before) * rate;
    assert (offset - span) * rate == offset * rate - span * rate;
    assert (span - offset) * rate == span * rate - offset * rate;
  }

  /** Unless the cap cuts the ticks short, the queue is deepened so that its front starts less than one
      frame and one nanosecond after the earliest source, and less than 1023 frames and one nanosecond
      before it, whatever the rate, the offset and the number of ticks already waited for. */
  lemma DeepenReachesMin(m: Model, rate: pos, minTs: int)
    requires m.pending != []
    requires minTs < FrontStart(m, rate) && m.total < MAX_BUFFERING_TICKS
    requires m.wait > 0 ==> m.bufferedTs == m.pending[0].start
    requires m.total + WantedTicks(rate, FrontStart(m, rate) - minTs) <= MAX_BUFFERING_TICKS
    ensures var start := FrontStart(Deepen(m, rate, minTs), rate);
            && (start - minTs) * rate < NS_PER_SECOND + rate
            && (minTs - start) * rate < (AUDIO_OUTPUT_FRAMES - 1) * NS_PER_SECOND + rate
  {
    var start := FrontStart(m, rate);
    var ticks := AddedTicks(rate, m.total, start - minTs);
    TicksSpanOffset(rate, m.wait, start - minTs, ticks);
    assert FramesToNs(rate, 0) == 0;
    assert FrontStart(Deepen(m, rate, minTs), rate) == start - Span(rate, m.wait, ticks);
  }
}
