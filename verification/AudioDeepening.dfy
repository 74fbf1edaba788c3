/** What one audio callback does about sources that are behind, stated by its outcome: when the queue is
    deepened, how far back it then reaches, and when the call hands out its window. */
module AudioDeepening {
  import opened CDivision
  import opened AudioTicks

  /** The start of the first window of the queue, once the input has joined it. */
  ghost function Front(rate: pos, m: Model, input: Window): int {
    (Queue(m, rate) + [input])[0].start
  }

  predicate Late(front: int, src: Source) {
    Counts(src) && src.audioTs < front
  }

  /** A whole frame or more. */
  predicate FrameLate(rate: pos, front: int, src: Source) {
    Late(front, src) && (front - src.audioTs) * rate >= NS_PER_SECOND
  }

  /** `ticks` ticks of 1024 frames do not reach it. */
  predicate Beyond(rate: pos, front: int, ticks: int, src: Source) {
    Late(front, src) && (front - src.audioTs) * rate >= (ticks * AUDIO_OUTPUT_FRAMES + 1) * NS_PER_SECOND
  }

  /** No source is late: the front is the old one, and the call succeeds unless ticks are waited for. */
  ghost predicate InTime(m: Model, front: int, o: Outcome) {
    && o.outTs == front && o.m.total == m.total
    && (o.delivered <==> m.wait == 0) && o.m.wait == (if m.wait > 0 then m.wait - 1 else 0)
  }

  /** The front is moved back to the earliest source, up to rounding. If it was a frame late or more the call
      waits, for at least as long as before; if it was less than that nothing is added. */
  ghost predicate Caught(rate: pos, m: Model, front: int, sources: seq<Source>, o: Outcome) {
    && (forall src :: src in sources && Counts(src) ==> (o.outTs - src.audioTs) * rate < NS_PER_SECOND + rate)
    && (exists src :: src in sources && Late(front, src)
                      && (src.audioTs - o.outTs) * rate < (AUDIO_OUTPUT_FRAMES - 1) * NS_PER_SECOND + rate)
    && (if exists src :: src in sources && FrameLate(rate, front, src)
        then !o.delivered && o.m.wait >= m.wait && o.m.total > m.total
        else InTime(m, front, o))
  }

  /** The cap cuts the ticks short: as many are added as are left. */
  ghost predicate Capped(rate: pos, m: Model, front: int, o: Outcome) {
    && o.m.total == MAX_BUFFERING_TICKS && o.outTs <= front
    && (m.total == MAX_BUFFERING_TICKS ==> InTime(m, front, o))
    && (m.total < MAX_BUFFERING_TICKS ==>
          !o.delivered && o.m.wait == m.wait + MAX_BUFFERING_TICKS - m.total - 1)
  }

  ghost predicate CallRight(rate: pos, m: Model, input: Window, sources: seq<Source>, o: Outcome) {
    var front := Front(rate, m, input);
    if forall src :: src in sources ==> !Late(front, src) then InTime(m, front, o)
    else if exists src :: src in sources && Beyond(rate, front, MAX_BUFFERING_TICKS - m.total, src)
    then Capped(rate, m, front, o)
    else Caught(rate, m, front, sources, o)
  }

  // ----- the callback

  lemma FrontIsFirst(rate: pos, m: Model, input: Window)
    requires Inv(m)
    ensures Front(rate, m, input) == FrontStart(m.(pending := m.pending + [input]), rate)
  {
    if m.wait > 0 {
      InsertedAt(rate, m.bufferedTs, m.wait, 0);
      assert (Queue(m, rate) + [input])[0] == Inserted(rate, m.bufferedTs, m.wait)[0];
    } else {
      assert Queue(m, rate) == m.pending;
    }
  }

  /** So many ticks are wanted that they reach back over the offset. */
  lemma WantedReach(rate: pos, offset: nat, k: nat)
    ensures WantedTicks(rate, offset) <= k <==> offset * rate < (k * AUDIO_OUTPUT_FRAMES + 1) * NS_PER_SECOND
  {
    FloorBounds(offset * rate, NS_PER_SECOND);
  }

  /** The earliest source that counts is late if any is. */
  lemma EarliestLate(front: int, sources: seq<Source>) returns (src: Source)
    requires FindMin(front, sources) < front
    ensures src in sources && Late(front, src) && src.audioTs == FindMin(front, sources)
  {
    src :| src in sources && Counts(src) && FindMin(front, sources) == src.audioTs;
  }

  lemma {:induction false} NoneLate(front: int, sources: seq<Source>)
    ensures (forall src :: src in sources ==> !Late(front, src)) <==> FindMin(front, sources) == front
  {
  }

  /** A source is beyond the reach of `ticks` exactly if the earliest one is. */
  lemma {:induction false} BeyondEarliest(rate: pos, front: int, ticks: nat, sources: seq<Source>)
    requires FindMin(front, sources) < front
    ensures (exists src :: src in sources && Beyond(rate, front, ticks, src)) <==>
            WantedTicks(rate, front - FindMin(front, sources)) > ticks
  {
    var minTs := FindMin(front, sources);
    var first := EarliestLate(front, sources);
    WantedReach(rate, front - minTs, ticks);
    assert WantedTicks(rate, front - minTs) > ticks <==> Beyond(rate, front, ticks, first);
    if src :| src in sources && Beyond(rate, front, ticks, src) {
      BeyondEarlier(rate, front, ticks, src, first);
    }
  }

  lemma BeyondEarlier(rate: pos, front: int, ticks: nat, src: Source, first: Source)
    requires Beyond(rate, front, ticks, src) && Late(front, first) && first.audioTs <= src.audioTs
    ensures Beyond(rate, front, ticks, first)
  {
    MulOrder(rate, front - src.audioTs, front - first.audioTs);
  }

  lemma {:induction false} FrameLateEarliest(rate: pos, front: int, sources: seq<Source>)
    requires FindMin(front, sources) < front
    ensures (exists src :: src in sources && FrameLate(rate, front, src)) <==>
            WantedTicks(rate, front - FindMin(front, sources)) > 0
  {
    BeyondEarliest(rate, front, 0, sources);
    assert forall src :: FrameLate(rate, front, src) <==> Beyond(rate, front, 0, src);
  }

  /** Deepening by the ticks wanted, and taking the front. */
  lemma DeepenAndPop(rate: pos, m: Model, minTs: int, o: Outcome)
    requires m.pending != [] && m.total <= MAX_BUFFERING_TICKS && minTs < FrontStart(m, rate)
    requires m.wait > 0 ==> m.bufferedTs == m.pending[0].start
    requires m.total + WantedTicks(rate, FrontStart(m, rate) - minTs) <= MAX_BUFFERING_TICKS
    requires o == Pop(Deepen(m, rate, minTs), rate)
    ensures var ticks := WantedTicks(rate, FrontStart(m, rate) - minTs);
            && o.m.total == m.total + ticks && (o.delivered <==> m.wait + ticks == 0)
            && o.m.wait == (if m.wait + ticks > 0 then m.wait + ticks - 1 else 0)
            && (ticks == 0 ==> o.outTs == FrontStart(m, rate))
    ensures (o.outTs - minTs) * rate < NS_PER_SECOND + rate
    ensures (minTs - o.outTs) * rate < (AUDIO_OUTPUT_FRAMES - 1) * NS_PER_SECOND + rate
  {
    if m.total < MAX_BUFFERING_TICKS {
      DeepenReachesMin(m, rate, minTs);
      assert FramesToNs(rate, 0) == 0;
    } else {
      WantedReach(rate, FrontStart(m, rate) - minTs, 0);
      assert (minTs - o.outTs) * rate <= 0 by {
        MulOrder(rate, minTs - o.outTs, 0);
      }
    }
  }

  /** Deepening by the ticks left below the cap. */
  lemma DeepenToCap(rate: pos, m: Model, minTs: int, o: Outcome)
    requires m.pending != [] && m.total <= MAX_BUFFERING_TICKS && minTs < FrontStart(m, rate)
    requires m.wait > 0 ==> m.bufferedTs == m.pending[0].start
    requires m.total + WantedTicks(rate, FrontStart(m, rate) - minTs) > MAX_BUFFERING_TICKS
    requires o == Pop(Deepen(m, rate, minTs), rate)
    ensures Capped(rate, m, FrontStart(m, rate), o)
  {
    if m.total < MAX_BUFFERING_TICKS {
      var more := MAX_BUFFERING_TICKS - m.total;
      assert FramesToNs(rate, 0) == 0;
      FloorMonotone(m.wait * AUDIO_OUTPUT_FRAMES * NS_PER_SECOND,
                    (m.wait + more) * AUDIO_OUTPUT_FRAMES * NS_PER_SECOND, rate);
    }
  }

  lemma NotLater(rate: pos, outTs: int, minTs: int, audioTs: int)
    requires minTs <= audioTs && (outTs - minTs) * rate < NS_PER_SECOND + rate
    ensures (outTs - audioTs) * rate < NS_PER_SECOND + rate
  {
    MulOrder(rate, outTs - audioTs, outTs - minTs);
  }

  /** A front near the earliest source is near enough to every other. */
  lemma {:induction false} NearEarliest(rate: pos, front: int, sources: seq<Source>, outTs: int)
    requires var minTs := FindMin(front, sources);
             && minTs < front && (outTs - minTs) * rate < NS_PER_SECOND + rate
             && (minTs - outTs) * rate < (AUDIO_OUTPUT_FRAMES - 1) * NS_PER_SECOND + rate
    ensures forall src :: src in sources && Counts(src) ==> (outTs - src.audioTs) * rate < NS_PER_SECOND + rate
    ensures exists src :: src in sources && Late(front, src)
                          && (src.audioTs - outTs) * rate < (AUDIO_OUTPUT_FRAMES - 1) * NS_PER_SECOND + rate
  {
    var minTs := FindMin(front, sources);
    forall src | src in sources && Counts(src)
      ensures (outTs - src.audioTs) * rate < NS_PER_SECOND + rate
    {
      NotLater(rate, outTs, minTs, src.audioTs);
    }
    var first := EarliestLate(front, sources);
    assert (first.audioTs - outTs) * rate == (minTs - outTs) * rate;
  }

  lemma {:induction false} CaughtUp(rate: pos, m: Model, pushed: Model, sources: seq<Source>, o: Outcome)
    requires pushed.pending != [] && m == pushed.(pending := m.pending) && m.total <= MAX_BUFFERING_TICKS
    requires m.wait > 0 ==> m.bufferedTs == pushed.pending[0].start
    requires var front := FrontStart(pushed, rate); var minTs := FindMin(front, sources);
             && minTs < front && m.total + WantedTicks(rate, front - minTs) <= MAX_BUFFERING_TICKS
             && o == Pop(Deepen(pushed, rate, minTs), rate)
    ensures Caught(rate, m, FrontStart(pushed, rate), sources, o)
  {
    var front := FrontStart(pushed, rate);
    DeepenAndPop(rate, pushed, FindMin(front, sources), o);
    NearEarliest(rate, front, sources, o.outTs);
    FrameLateEarliest(rate, front, sources);
  }

  lemma {:induction false} CallbackCases(rate: pos, m: Model, pushed: Model, input: Window, sources: seq<Source>)
    requires Inv(m) && pushed == m.(pending := m.pending + [input])
    ensures var front, o := FrontStart(pushed, rate), Callback(m, rate, input, sources);
            var minTs := FindMin(front, sources);
            if minTs == front then InTime(m, front, o)
            else if m.total + WantedTicks(rate, front - minTs) > MAX_BUFFERING_TICKS then Capped(rate, m, front, o)
            else Caught(rate, m, front, sources, o)
  {
    var front, o := FrontStart(pushed, rate), Callback(m, rate, input, sources);
    var minTs := FindMin(front, sources);
    assert m.wait > 0 ==> pushed.pending[0] == m.pending[0];
    if minTs < front {
      if m.total + WantedTicks(rate, front - minTs) > MAX_BUFFERING_TICKS {
        DeepenToCap(rate, pushed, minTs, o);
      } else {
        CaughtUp(rate, m, pushed, sources, o);
      }
    }
  }

  /** What a callback does, from every state that it can be called in. */
  lemma CallbackRight(rate: pos, m: Model, input: Window, sources: seq<Source>)
    requires Inv(m)
    ensures CallRight(rate, m, input, sources, Callback(m, rate, input, sources))
  {
    var front := Front(rate, m, input);
    FrontIsFirst(rate, m, input);
    NoneLate(front, sources);
    CallbackCases(rate, m, m.(pending := m.pending + [input]), input, sources);
    if FindMin(front, sources) < front {
      BeyondEarliest(rate, front, MAX_BUFFERING_TICKS - m.total, sources);
    }
  }

  // ----- whole runs

  /** What the call adds to the history. */
  ghost predicate Adds(h: History, o: Outcome, next: History) {
    && next.m == o.m
    && next.delivered == (if o.delivered then h.delivered + [o.outTs] else h.delivered)
    && next.withheld == h.withheld + (if o.delivered then 0 else 1)
  }

  lemma {:induction false} RunAdvances(rate: pos, calls: seq<Call>, k: nat)
    requires k < |calls|
    ensures Run(rate, calls[..k + 1]) == Advance(rate, Run(rate, calls[..k]), calls[k])
  {
    assert calls[..k + 1][..k] == calls[..k];
  }

  /** Every call of every run does that. */
  lemma {:induction false} EveryCallRight(rate: pos, calls: seq<Call>, k: nat)
    requires k < |calls|
    ensures exists o :: CallRight(rate, Run(rate, calls[..k]).m, calls[k].input, calls[k].sources, o)
                        && Adds(Run(rate, calls[..k]), o, Run(rate, calls[..k + 1]))
  {
    RunAdvances(rate, calls, k);
    AdvanceRight(rate, Run(rate, calls[..k]), calls[k]);
  }

  lemma AdvanceRight(rate: pos, h: History, c: Call)
    requires Inv(h.m)
    ensures exists o :: CallRight(rate, h.m, c.input, c.sources, o) && Adds(h, o, Advance(rate, h, c))
  {
    CallbackRight(rate, h.m, c.input, c.sources);
    assert Adds(h, Callback(h.m, rate, c.input, c.sources), Advance(rate, h, c));
  }

  /** A source that is behind by less than a frame is not waited for. */
  lemma LessThanAFrame()
    ensures var src := Source(999999999, false, true, 0);
            var o := Callback(START, 48000, Window(1000000000, 1021333333), [src]);
            Late(1000000000, src) && o.delivered && o.outTs == 1000000000 && o.m.total == 0
  {
    assert [Source(999999999, false, true, 0)][1..] == [];
  }
}
