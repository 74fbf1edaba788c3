/** The queue that delays an encoded stream: packets and start/stop messages wait in it until they are
    older than the delay. */
module StreamDelay {

  const TWO64 := 0x1_0000_0000_0000_0000

  /** A time stamp or a duration in nanoseconds, a uint64_t. */
  type Ns = n: int | 0 <= n < TWO64

  /** The unsigned difference, which wraps around for an entry stamped after `t`. */
  function Elapsed(t: Ns, ts: Ns): (r: Ns)
    ensures r == if ts <= t then t - ts else t - ts + TWO64
  {
    (t - ts) % TWO64
  }

  datatype Message = Packet(id: nat) | StartMessage | StopMessage

  datatype Entry = Entry(msg: Message, ts: Ns)

  datatype How = Forwarded | Freed | Started | Stopped | Discarded

  /** What became of an entry; `popped` tells the normal way from a cleanup, and `delayNs` is the delay
      in force at that moment. */
  datatype Handled = Handled(entry: Entry, at: Ns, how: How, popped: bool, delayNs: Ns)

  datatype Delay = Delay(queue: seq<Entry>, activeDelayNs: Ns, active: bool, capturing: bool,
                         reconnecting: bool, preserve: bool, log: seq<Handled>)

  /** The code behind the messages may change the flags or clean the queue up. */
  datatype Reaction = Reaction(active: bool, capturing: bool, reconnecting: bool, cleanup: bool)

  datatype Step =
    | Push(msg: Message, now: Ns)
    | Pop(now: Ns)
    | React(reaction: Reaction, now: Ns)
    | Setup(delayNs: Ns, preserve: bool)

  // ---------------------------------------------------------------- the steps

  function HowOf(s: Delay, msg: Message): How {
    match msg
    case Packet(_) => if !s.active || !s.capturing then Freed else Forwarded
    case StartMessage => Started
    case StopMessage => Stopped
  }

  predicate Held(s: Delay) {
    s.preserve && s.reconnecting
  }

  predicate Due(s: Delay, t: Ns) {
    s.queue != [] && !Held(s) && Elapsed(t, s.queue[0].ts) > s.activeDelayNs
  }

  function AfterPop(s: Delay, t: Ns): Delay {
    if s.queue == [] then s
    else if Held(s) then s.(activeDelayNs := Elapsed(t, s.queue[0].ts))
    else if !Due(s, t) then s
    else s.(queue := s.queue[1..],
            log := s.log + [Handled(s.queue[0], t, HowOf(s, s.queue[0].msg), true, s.activeDelayNs)])
  }

  function Drop(e: Entry, t: Ns, delayNs: Ns): Handled {
    Handled(e, t, if e.msg.Packet? then Freed else Discarded, false, delayNs)
  }

  function Dropped(queue: seq<Entry>, t: Ns, delayNs: Ns): (r: seq<Handled>)
    ensures |r| == |queue|
  {
    if queue == [] then [] else [Drop(queue[0], t, delayNs)] + Dropped(queue[1..], t, delayNs)
  }

  function Cleaned(s: Delay, t: Ns): Delay {
    s.(queue := [], activeDelayNs := 0, log := s.log + Dropped(s.queue, t, s.activeDelayNs))
  }

  function Reacted(s: Delay, r: Reaction, t: Ns): Delay {
    var changed := s.(active := r.active, capturing := r.capturing, reconnecting := r.reconnecting);
    if r.cleanup then Cleaned(changed, t) else changed
  }

  function Next(s: Delay, step: Step): Delay {
    match step
    case Push(msg, now) => s.(queue := s.queue + [Entry(msg, now)])
    case Pop(now) => AfterPop(s, now)
    case React(reaction, now) => Reacted(s, reaction, now)
    case Setup(delayNs, preserve) => s.(activeDelayNs := delayNs, preserve := preserve, active := true)
  }

  const IDLE := Delay([], 0, false, false, false, false, [])

  ghost function Run(steps: seq<Step>): Delay {
    if steps == [] then IDLE else Next(Run(steps[..|steps| - 1]), steps[|steps| - 1])
  }

  function Pushed(steps: seq<Step>): seq<Entry> {
    if steps == [] then []
    else
      var last := steps[|steps| - 1];
      Pushed(steps[..|steps| - 1]) + if last.Push? then [Entry(last.msg, last.now)] else []
  }

  function Entries(log: seq<Handled>): (r: seq<Entry>)
    ensures |r| == |log| && forall i :: 0 <= i < |r| ==> r[i] == log[i].entry
  {
    seq(|log|, i requires 0 <= i < |log| => log[i].entry)
  }

  // ---------------------------------------------------------------- first in, first out, once

  lemma {:induction false} DroppedEntries(queue: seq<Entry>, t: Ns, delayNs: Ns)
    ensures Entries(Dropped(queue, t, delayNs)) == queue
    ensures forall i :: 0 <= i < |queue| ==> Dropped(queue, t, delayNs)[i] == Drop(queue[i], t, delayNs)
  {
    if queue != [] {
      var dropped := Dropped(queue[1..], t, delayNs);
      DroppedEntries(queue[1..], t, delayNs);
      assert Dropped(queue, t, delayNs) == [Drop(queue[0], t, delayNs)] + dropped;
      forall i | 0 <= i < |queue|
        ensures Dropped(queue, t, delayNs)[i] == Drop(queue[i], t, delayNs)
      {
        if i > 0 {
          assert dropped[i - 1] == Drop(queue[1..][i - 1], t, delayNs);
        }
      }
    }
  }

  lemma EntriesConcat(a: seq<Handled>, b: seq<Handled>)
    ensures Entries(a + b) == Entries(a) + Entries(b)
  {
  }

  lemma MoveFront(a: seq<Entry>, q: seq<Entry>)
    requires q != []
    ensures (a + [q[0]]) + q[1..] == a + q
    ensures (a + q) + [] == a + q
  {
  }

  lemma NextKeepsOrder(s: Delay, step: Step)
    ensures var t := Next(s, step);
            Entries(t.log) + t.queue ==
            (Entries(s.log) + s.queue) + if step.Push? then [Entry(step.msg, step.now)] else []
  {
    var before := Entries(s.log) + s.queue;
    assert before + [] == before;
    match step {
      case Push(msg, now) =>
        assert Entries(s.log) + (s.queue + [Entry(msg, now)]) == before + [Entry(msg, now)];
      case Pop(now) =>
        if Due(s, now) {
          EntriesConcat(s.log, [Handled(s.queue[0], now, HowOf(s, s.queue[0].msg), true, s.activeDelayNs)]);
          MoveFront(Entries(s.log), s.queue);
        }
      case React(reaction, now) =>
        DroppedEntries(s.queue, now, s.activeDelayNs);
        EntriesConcat(s.log, Dropped(s.queue, now, s.activeDelayNs));
      case Setup(delayNs, preserve) =>
    }
  }

  /** In every run the handled entries, followed by those still waiting, are exactly what was pushed, in
      that order: nothing is lost, repeated or overtaken. */
  lemma {:induction false} FirstInFirstOut(steps: seq<Step>)
    ensures Entries(Run(steps).log) + Run(steps).queue == Pushed(steps)
  {
    if steps != [] {
      FirstInFirstOut(steps[..|steps| - 1]);
      NextKeepsOrder(Run(steps[..|steps| - 1]), steps[|steps| - 1]);
    }
  }

  // ---------------------------------------------------------------- how entries are handled

  /** A popped entry was strictly older than the delay, or is stamped after the moment it is popped at and
      wraps around; packets are forwarded or freed, and a cleanup only frees. */
  predicate HandledRight(h: Handled) {
    && (h.popped ==> Elapsed(h.at, h.entry.ts) > h.delayNs && h.how != Discarded)
    && (h.popped ==> (h.at - h.entry.ts > h.delayNs <==> h.entry.ts <= h.at))
    && (h.entry.msg.Packet? <==> h.how == Forwarded || h.how == Freed)
    && (h.how == Forwarded ==> h.popped)
  }

  lemma {:induction false} AllHandledRight(steps: seq<Step>, i: nat)
    requires i < |Run(steps).log|
    ensures HandledRight(Run(steps).log[i])
  {
    var before := Run(steps[..|steps| - 1]);
    if i < |before.log| {
      LogGrows(before, steps[|steps| - 1]);
      AllHandledRight(steps[..|steps| - 1], i);
    } else {
      NewHandledRight(before, steps[|steps| - 1], i);
    }
  }

  lemma LogGrows(s: Delay, step: Step)
    ensures s.log <= Next(s, step).log
  {
  }

  lemma NewHandledRight(s: Delay, step: Step, i: nat)
    requires |s.log| <= i < |Next(s, step).log|
    ensures HandledRight(Next(s, step).log[i])
  {
    if step.React? {
      DroppedEntries(s.queue, step.now, s.activeDelayNs);
      assert HandledRight(Drop(s.queue[i - |s.log|], step.now, s.activeDelayNs));
    }
  }

  // ---------------------------------------------------------------- time

  function TimeOf(step: Step, before: Ns): Ns {
    match step
    case Push(_, now) => now
    case Pop(now) => now
    case React(_, now) => now
    case Setup(_, _) => before
  }

  ghost function Clock(steps: seq<Step>): Ns {
    if steps == [] then 0 else TimeOf(steps[|steps| - 1], Clock(steps[..|steps| - 1]))
  }

  /** The clock is not set back. */
  ghost predicate Monotone(steps: seq<Step>) {
    steps == [] || (Monotone(steps[..|steps| - 1]) && Clock(steps[..|steps| - 1]) <= Clock(steps))
  }

  ghost predicate Timely(queue: seq<Entry>, clock: Ns) {
    && (forall i, j :: 0 <= i < j < |queue| ==> queue[i].ts <= queue[j].ts)
    && (forall i :: 0 <= i < |queue| ==> queue[i].ts <= clock)
  }

  lemma {:induction false} QueueTimely(steps: seq<Step>)
    requires Monotone(steps)
    ensures Timely(Run(steps).queue, Clock(steps))
  {
    if steps != [] {
      QueueTimely(steps[..|steps| - 1]);
    }
  }

  /** With a clock that is not set back every popped entry was strictly older than the delay. */
  lemma {:induction false} PoppedOld(steps: seq<Step>, i: nat)
    requires Monotone(steps) && i < |Run(steps).log| && Run(steps).log[i].popped
    ensures var h := Run(steps).log[i]; h.at - h.entry.ts > h.delayNs
  {
    var n := |steps| - 1;
    var before := Run(steps[..n]);
    if i < |before.log| {
      LogGrows(before, steps[n]);
      PoppedOld(steps[..n], i);
    } else {
      QueueTimely(steps[..n]);
      NewPoppedOld(before, steps[n], i, Clock(steps[..n]));
    }
  }

  lemma NewPoppedOld(s: Delay, step: Step, i: nat, clock: Ns)
    requires |s.log| <= i < |Next(s, step).log| && Next(s, step).log[i].popped
    requires Timely(s.queue, clock) && clock <= TimeOf(step, clock)
    ensures var h := Next(s, step).log[i]; h.at - h.entry.ts > h.delayNs
  {
    if step.React? {
      DroppedEntries(s.queue, step.now, s.activeDelayNs);
    }
  }

  /** Without one it need not be: an entry stamped after `t` leaves at once, whatever the delay. */
  lemma AheadLeavesAtOnce(msg: Message, delayNs: Ns)
    requires delayNs < TWO64 - 1
    ensures var s := Run([Setup(delayNs, false), Push(msg, 1), Pop(0)]);
            s.queue == [] && |s.log| == 1 && s.log[0].popped && s.log[0].at - s.log[0].entry.ts == -1
  {
    RunNext([], Setup(delayNs, false));
    RunNext([Setup(delayNs, false)], Push(msg, 1));
    RunNext([Setup(delayNs, false), Push(msg, 1)], Pop(0));
    assert [] + [Setup(delayNs, false)] == [Setup(delayNs, false)];
    assert [Setup(delayNs, false)] + [Push(msg, 1)] == [Setup(delayNs, false), Push(msg, 1)];
    assert [Setup(delayNs, false), Push(msg, 1)] + [Pop(0)] == [Setup(delayNs, false), Push(msg, 1), Pop(0)];
  }

  // ---------------------------------------------------------------- process_delay

  /** pop_packet until it pops nothing; after every message the code behind it may react. */
  function Process(s: Delay, t: Ns, reactions: seq<Reaction>): Delay
    decreases |s.queue|
  {
    if !Due(s, t) then AfterPop(s, t)
    else
      var popped := AfterPop(s, t);
      if reactions == [] then Process(popped, t, [])
      else Process(Reacted(popped, reactions[0], t), t, reactions[1..])
  }

  /** The attempts and reactions that one call goes through. */
  function StepsOf(s: Delay, t: Ns, reactions: seq<Reaction>): seq<Step>
    decreases |s.queue|
  {
    if !Due(s, t) then [Pop(t)]
    else
      var popped := AfterPop(s, t);
      if reactions == [] then [Pop(t)] + StepsOf(popped, t, [])
      else [Pop(t), React(reactions[0], t)] + StepsOf(Reacted(popped, reactions[0], t), t, reactions[1..])
  }

  lemma {:induction false} RunNext(steps: seq<Step>, step: Step)
    ensures Run(steps + [step]) == Next(Run(steps), step)
  {
    assert (steps + [step])[..|steps|] == steps;
  }

  /** One attempt in any run: the oldest entry is handled exactly if it is old enough and the queue is not
      held back, and a packet is forwarded exactly while the delay is active and capturing. */
  lemma {:induction false} PopHandles(steps: seq<Step>, now: Ns)
    ensures var s, t := Run(steps), Run(steps + [Pop(now)]);
            if s.queue != [] && !(s.preserve && s.reconnecting) && Elapsed(now, s.queue[0].ts) > s.activeDelayNs then
              && |t.log| == |s.log| + 1 && t.queue == s.queue[1..]
              && var h := t.log[|s.log|];
                 && h.entry == s.queue[0] && h.at == now && h.popped
                 && (h.how == Forwarded <==> h.entry.msg.Packet? && s.active && s.capturing)
                 && (h.how == Freed <==> h.entry.msg.Packet? && !(s.active && s.capturing))
                 && (h.how == Started <==> h.entry.msg == StartMessage)
                 && (h.how == Stopped <==> h.entry.msg == StopMessage)
            else t.log == s.log && t.queue == s.queue
  {
    RunNext(steps, Pop(now));
  }

  /** What the code behind a message does: the flags are as it leaves them, and a cleanup frees the packets
      that wait, pops nothing, and leaves no delay. */
  lemma {:induction false} ReactionsRight(steps: seq<Step>, reaction: Reaction, now: Ns)
    ensures var s, t := Run(steps), Run(steps + [React(reaction, now)]);
            && t.active == reaction.active && t.capturing == reaction.capturing
            && t.reconnecting == reaction.reconnecting && t.preserve == s.preserve
            && (if reaction.cleanup then
                  && t.queue == [] && t.activeDelayNs == 0 && |t.log| == |s.log| + |s.queue|
                  && (forall i :: |s.log| <= i < |t.log| ==>
                        !t.log[i].popped && t.log[i].entry == s.queue[i - |s.log|])
                else t.queue == s.queue && t.log == s.log && t.activeDelayNs == s.activeDelayNs)
  {
    RunNext(steps, React(reaction, now));
    DroppedEntries(Run(steps).queue, now, Run(steps).activeDelayNs);
  }

  /** Starting with a delay makes it active. */
  lemma {:induction false} SetupRight(steps: seq<Step>, delayNs: Ns, preserve: bool)
    ensures var s, t := Run(steps), Run(steps + [Setup(delayNs, preserve)]);
            && t.active && t.activeDelayNs == delayNs && t.preserve == preserve
            && t.queue == s.queue && t.log == s.log && t.capturing == s.capturing
            && t.reconnecting == s.reconnecting
  {
    RunNext(steps, Setup(delayNs, preserve));
  }

  function Onward(s: Delay, steps: seq<Step>): Delay
    decreases |steps|
  {
    if steps == [] then s else Onward(Next(s, steps[0]), steps[1..])
  }

  lemma {:induction false} RunOnward(steps: seq<Step>, more: seq<Step>)
    ensures Run(steps + more) == Onward(Run(steps), more)
    decreases |more|
  {
    if more == [] {
      assert steps + more == steps;
    } else {
      RunNext(steps, more[0]);
      RunOnward(steps + [more[0]], more[1..]);
      assert (steps + [more[0]]) + more[1..] == steps + more;
    }
  }

  lemma {:induction false} OnwardTwo(s: Delay, a: Step, b: Step, rest: seq<Step>)
    ensures Onward(s, [a] + rest) == Onward(Next(s, a), rest)
    ensures Onward(s, [a, b] + rest) == Onward(Next(Next(s, a), b), rest)
  {
    assert ([a] + rest)[1..] == rest;
    assert ([a, b] + rest)[1..] == [b] + rest;
    assert ([b] + rest)[1..] == rest;
  }

  lemma {:induction false} ProcessOnward(s: Delay, t: Ns, reactions: seq<Reaction>)
    ensures Process(s, t, reactions) == Onward(s, StepsOf(s, t, reactions))
    decreases |s.queue|
  {
    var popped := AfterPop(s, t);
    if !Due(s, t) {
      OnwardTwo(s, Pop(t), Pop(t), []);
    } else if reactions == [] {
      ProcessOnward(popped, t, []);
      OnwardTwo(s, Pop(t), Pop(t), StepsOf(popped, t, []));
    } else {
      var reacted := Reacted(popped, reactions[0], t);
      ProcessOnward(reacted, t, reactions[1..]);
      OnwardTwo(s, Pop(t), React(reactions[0], t), StepsOf(reacted, t, reactions[1..]));
    }
  }

  /** What is proved of all runs therefore holds of runs of process_delay. */
  lemma {:induction false} ProcessIsRun(steps: seq<Step>, t: Ns, reactions: seq<Reaction>)
    ensures Process(Run(steps), t, reactions) == Run(steps + StepsOf(Run(steps), t, reactions))
  {
    ProcessOnward(Run(steps), t, reactions);
    RunOnward(steps, StepsOf(Run(steps), t, reactions));
  }

  /** It ends with the queue held back, or with only entries no older than the delay. */
  lemma {:induction false} ProcessLeavesYoung(s: Delay, t: Ns, reactions: seq<Reaction>)
    requires Timely(s.queue, t)
    ensures var r := Process(s, t, reactions);
            Timely(r.queue, t) && (Held(r) || forall i :: 0 <= i < |r.queue| ==> t - r.queue[i].ts <= r.activeDelayNs)
    decreases |s.queue|
  {
    if Due(s, t) {
      var popped := AfterPop(s, t);
      if reactions == [] {
        ProcessLeavesYoung(popped, t, []);
      } else {
        ProcessLeavesYoung(Reacted(popped, reactions[0], t), t, reactions[1..]);
      }
    }
  }

  /** While a preserved stream reconnects nothing leaves, and the delay becomes the age of the oldest
      entry, so that it leaves as soon as the connection is back. */
  lemma {:induction false} HeldAge(s: Delay, t: Ns, reactions: seq<Reaction>, later: Ns)
    requires Held(s) && s.queue != [] && s.queue[0].ts <= t < later
    ensures var r := Process(s, t, reactions);
            && r.queue == s.queue && r.log == s.log && r.activeDelayNs == t - s.queue[0].ts
            && Due(r.(reconnecting := false), later)
  {
  }
}
