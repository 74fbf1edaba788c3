/** The strong/weak reference counts of encoders, outputs and services, as interleaved atomic steps
    of any number of threads. Both counters start at zero and mean "one holder"; the object itself
    holds one weak reference to its control block. While the object is listed, a thread that holds the
    list's mutex and no reference at all may find it there and upgrade. */
module RefCounts {
  import opened Wrappers

  /** Where a thread stands inside release, weak release or the upgrade loop. */
  datatype Pc =
    | Idle
    | Destroying                  // its release took refs to -1; it must take the object off the list
    | Unlisted                    // ... and then destroy it
    | DroppingWeak                // the object is gone; its weak reference is still to be dropped
    | Freeing                     // its weak release took weak_refs to -1; it must free the control block
    | Upgrading(owners: int)      // obs_weak_ref_get_ref has loaded refs
    | Reloading                   // its compare-and-swap failed

  datatype Thread = Thread(strong: nat, weak: nat, pc: Pc)

  /** `mutex` is the thread that holds the list's mutex. */
  datatype State = State(refs: int, weakRefs: int, objectWeak: bool, listed: bool, mutex: Option<nat>,
                         destroyed: nat, freed: nat, threads: seq<Thread>)

  datatype Action =
    | AddRef(t: nat)
    | Release(t: nat)
    | Lock(t: nat)
    | Unlock(t: nat)
    | Unlist(t: nat)
    | DestroyObject(t: nat)
    | DropObjectWeak(t: nat)
    | FreeControl(t: nat)
    | WeakAddRef(t: nat)
    | WeakRelease(t: nat)
    | Load(t: nat)
    | CompareAndSwap(t: nat)
    | GiveStrong(t: nat, to: nat)
    | GiveWeak(t: nat, to: nat)

  predicate Holds(th: Thread) {
    th.strong > 0 || th.weak > 0
  }

  /** The thread walks the list and the object is on it. */
  predicate Finds(s: State, t: nat) {
    s.mutex == Some(t) && s.listed
  }

  /** What a caller must own to take a step. The mutex is recursive, so a thread that releases the last
      reference inside an enumeration does not wait for itself. */
  predicate Enabled(s: State, a: Action) {
    && a.t < |s.threads|
    && var th := s.threads[a.t];
       match a
       case AddRef(_) => th.pc == Idle && th.strong > 0
       case Release(_) => th.pc == Idle && th.strong > 0
       case Lock(_) => th.pc == Idle && s.mutex == None
       case Unlock(t) => th.pc == Idle && s.mutex == Some(t)
       case Unlist(t) => th.pc == Destroying && (s.mutex == None || s.mutex == Some(t))
       case DestroyObject(_) => th.pc == Unlisted
       case DropObjectWeak(_) => th.pc == DroppingWeak
       case FreeControl(_) => th.pc == Freeing
       case WeakAddRef(_) => th.pc == Idle && Holds(th)
       case WeakRelease(_) => th.pc == Idle && th.weak > 0
       case Load(t) => (th.pc == Idle || th.pc == Reloading) && (Holds(th) || Finds(s, t))
       case CompareAndSwap(_) => th.pc.Upgrading?
       case GiveStrong(_, to) => th.pc == Idle && th.strong > 0 && to < |s.threads| && to != a.t
       case GiveWeak(_, to) => th.pc == Idle && th.weak > 0 && to < |s.threads| && to != a.t
  }

  function Put(s: State, t: nat, th: Thread): State
    requires t < |s.threads|
  {
    s.(threads := s.threads[t := th])
  }

  function Next(s: State, a: Action): State
    requires Enabled(s, a)
  {
    var th := s.threads[a.t];
    match a
    case AddRef(t) => Put(s.(refs := s.refs + 1), t, th.(strong := th.strong + 1))
    case Release(t) =>
      Put(s.(refs := s.refs - 1), t,
          th.(strong := th.strong - 1, pc := if s.refs - 1 == -1 then Destroying else Idle))
    case Lock(t) => s.(mutex := Some(t))
    case Unlock(t) => s.(mutex := None)
    case Unlist(t) => Put(s.(listed := false), t, th.(pc := Unlisted))
    case DestroyObject(t) => Put(s.(destroyed := s.destroyed + 1), t, th.(pc := DroppingWeak))
    case DropObjectWeak(t) =>
      Put(s.(weakRefs := s.weakRefs - 1, objectWeak := false), t,
          th.(pc := if s.weakRefs - 1 == -1 then Freeing else Idle))
    case FreeControl(t) => Put(s.(freed := s.freed + 1), t, th.(pc := Idle))
    case WeakAddRef(t) => Put(s.(weakRefs := s.weakRefs + 1), t, th.(weak := th.weak + 1))
    case WeakRelease(t) =>
      Put(s.(weakRefs := s.weakRefs - 1), t,
          th.(weak := th.weak - 1, pc := if s.weakRefs - 1 == -1 then Freeing else Idle))
    case Load(t) => Put(s, t, th.(pc := Upgrading(s.refs)))
    case CompareAndSwap(t) =>
      if !(th.pc.owners > -1) then Put(s, t, th.(pc := Idle))
      else if s.refs == th.pc.owners then
        Put(s.(refs := th.pc.owners + 1), t, th.(strong := th.strong + 1, pc := Idle))
      else Put(s, t, th.(pc := Reloading))
    case GiveStrong(t, to) =>
      Put(Put(s, t, th.(strong := th.strong - 1)), to, s.threads[to].(strong := s.threads[to].strong + 1))
    case GiveWeak(t, to) =>
      Put(Put(s, t, th.(weak := th.weak - 1)), to, s.threads[to].(weak := s.threads[to].weak + 1))
  }

  /** The creator holds the first strong reference, and has put the object on the list. */
  predicate Initial(s: State) {
    && s.refs == 0 && s.weakRefs == 0 && s.objectWeak && s.listed && s.mutex == None
    && s.destroyed == 0 && s.freed == 0
    && s.threads != [] && s.threads[0] == Thread(1, 0, Idle)
    && (forall t :: 1 <= t < |s.threads| ==> s.threads[t] == Thread(0, 0, Idle))
  }

  /** A run: every action is enabled when it is taken. */
  ghost predicate IsRun(s: State, acts: seq<Action>, s': State)
    decreases |acts|
  {
    if acts == [] then s' == s
    else
      var n := |acts| - 1;
      exists m :: IsRun(s, acts[..n], m) && Enabled(m, acts[n]) && s' == Next(m, acts[n])
  }

  // ----- counting over threads

  datatype Measure = Strong | Weak | At(pc: Pc)

  function Weight(th: Thread, m: Measure): nat {
    match m
    case Strong => th.strong
    case Weak => th.weak
    case At(pc) => if th.pc == pc then 1 else 0
  }

  function Sum(ts: seq<Thread>, m: Measure): nat {
    if ts == [] then 0 else Sum(ts[..|ts| - 1], m) + Weight(ts[|ts| - 1], m)
  }

  lemma {:induction false} SumPut(ts: seq<Thread>, t: nat, th: Thread, m: Measure)
    requires t < |ts|
    ensures Sum(ts[t := th], m) == Sum(ts, m) - Weight(ts[t], m) + Weight(th, m)
    ensures Weight(ts[t], m) <= Sum(ts, m)
  {
    var n := |ts| - 1;
    if t == n {
      assert ts[t := th][..n] == ts[..n];
    } else {
      assert ts[t := th][..n] == ts[..n][t := th];
      SumPut(ts[..n], t, th, m);
    }
  }

  lemma {:induction false} SumZero(ts: seq<Thread>, m: Measure)
    requires forall t :: 0 <= t < |ts| ==> Weight(ts[t], m) == 0
    ensures Sum(ts, m) == 0
  {
    if ts != [] {
      SumZero(ts[..|ts| - 1], m);
    }
  }

  /** Only the first thread counts. */
  lemma {:induction false} SumFirst(ts: seq<Thread>, m: Measure)
    requires ts != [] && Weight(Thread(0, 0, Idle), m) == 0
    requires forall t :: 0 < t < |ts| ==> Weight(ts[t], m) == 0
    ensures Sum(ts, m) == Weight(ts[0], m)
  {
    var blank := ts[0 := Thread(0, 0, Idle)];
    SumZero(blank, m);
    SumPut(blank, 0, ts[0], m);
    assert blank[0 := ts[0]] == ts;
  }

  ghost predicate Shifts(s: State, s': State, before: Thread, after: Thread, m: Measure) {
    && Sum(s'.threads, m) == Sum(s.threads, m) - Weight(before, m) + Weight(after, m)
    && Weight(before, m) <= Sum(s.threads, m)
  }

  lemma PutSums(s: State, t: nat, th: Thread)
    requires t < |s.threads|
    ensures Shifts(s, Put(s, t, th), s.threads[t], th, Strong)
    ensures Shifts(s, Put(s, t, th), s.threads[t], th, Weak)
    ensures Shifts(s, Put(s, t, th), s.threads[t], th, At(Destroying))
    ensures Shifts(s, Put(s, t, th), s.threads[t], th, At(Unlisted))
    ensures Shifts(s, Put(s, t, th), s.threads[t], th, At(DroppingWeak))
    ensures Shifts(s, Put(s, t, th), s.threads[t], th, At(Freeing))
  {
    SumPut(s.threads, t, th, Strong);
    SumPut(s.threads, t, th, Weak);
    SumPut(s.threads, t, th, At(Destroying));
    SumPut(s.threads, t, th, At(Unlisted));
    SumPut(s.threads, t, th, At(DroppingWeak));
    SumPut(s.threads, t, th, At(Freeing));
  }

  // ----- the invariant

  function One(b: bool): nat {
    if b then 1 else 0
  }

  ghost predicate Counted(s: State) {
    && Sum(s.threads, Strong) == s.refs + 1
    && Sum(s.threads, Weak) + One(s.objectWeak) == s.weakRefs + 1
    && Sum(s.threads, At(Destroying)) + Sum(s.threads, At(Unlisted)) + s.destroyed == One(s.refs == -1)
    && One(s.listed) + Sum(s.threads, At(Unlisted)) + s.destroyed == 1
    && One(s.objectWeak) + s.destroyed == 1 + Sum(s.threads, At(DroppingWeak))
    && Sum(s.threads, At(Freeing)) + s.freed == One(s.weakRefs == -1)
  }

  /** A thread inside the upgrade loop holds a reference or keeps the object listed, and has seen -1 only
      if refs is -1. */
  ghost predicate ThreadOk(s: State, t: nat)
    requires t < |s.threads|
  {
    var th := s.threads[t];
    match th.pc
    case Upgrading(o) => (Holds(th) || Finds(s, t)) && o >= -1 && (o == -1 ==> s.refs == -1)
    case Reloading => Holds(th) || Finds(s, t)
    case _ => true
  }

  ghost predicate Inv(s: State) {
    Counted(s) && forall t :: 0 <= t < |s.threads| ==> ThreadOk(s, t)
  }

  lemma InitialInv(s: State)
    requires Initial(s)
    ensures Inv(s)
  {
    SumFirst(s.threads, Strong);
    SumFirst(s.threads, Weak);
    SumZero(s.threads, At(Destroying));
    SumZero(s.threads, At(Unlisted));
    SumZero(s.threads, At(DroppingWeak));
    SumZero(s.threads, At(Freeing));
  }

  predicate Gives(a: Action) {
    a.GiveStrong? || a.GiveWeak?
  }

  lemma {:induction false} GiveSums(s: State, t: nat, th: Thread, to: nat, th': Thread, m: Measure)
    requires t < |s.threads| && to < |s.threads| && t != to
    ensures Sum(s.threads[t := th][to := th'], m) == Sum(s.threads, m)
      - Weight(s.threads[t], m) + Weight(th, m) - Weight(s.threads[to], m) + Weight(th', m)
  {
    SumPut(s.threads, t, th, m);
    SumPut(s.threads[t := th], to, th', m);
  }

  ghost predicate SameButStrong(s: State, s': State) {
    && Sum(s'.threads, Weak) == Sum(s.threads, Weak)
    && Sum(s'.threads, At(Destroying)) == Sum(s.threads, At(Destroying))
    && Sum(s'.threads, At(Unlisted)) == Sum(s.threads, At(Unlisted))
    && Sum(s'.threads, At(DroppingWeak)) == Sum(s.threads, At(DroppingWeak))
    && Sum(s'.threads, At(Freeing)) == Sum(s.threads, At(Freeing))
  }

  ghost predicate SameSums(s: State, s': State) {
    Sum(s'.threads, Strong) == Sum(s.threads, Strong) && SameButStrong(s, s')
  }

  /** Handing a reference over changes no total. */
  lemma GiveCounted(s: State, a: Action)
    requires Counted(s) && Enabled(s, a) && Gives(a)
    ensures Counted(Next(s, a))
  {
    var s' := Next(s, a);
    GiveSumsAll(s, s', a.t, s'.threads[a.t], a.to, s'.threads[a.to]);
  }

  lemma GiveSumsAll(s: State, s': State, t: nat, th: Thread, to: nat, th': Thread)
    requires t < |s.threads| && to < |s.threads| && t != to && s'.threads == s.threads[t := th][to := th']
    requires var from, into := s.threads[t], s.threads[to];
      && th.strong + th'.strong == from.strong + into.strong && th.weak + th'.weak == from.weak + into.weak
      && th.pc == from.pc && th'.pc == into.pc
    ensures SameSums(s, s')
  {
    GiveSums(s, t, th, to, th', Strong);
    GiveSums(s, t, th, to, th', Weak);
    GiveSums(s, t, th, to, th', At(Destroying));
    GiveSums(s, t, th, to, th', At(Unlisted));
    GiveSums(s, t, th, to, th', At(DroppingWeak));
    GiveSums(s, t, th, to, th', At(Freeing));
  }

  /** The steps of the list's mutex alone. */
  predicate OnlyMutex(a: Action) {
    a.Lock? || a.Unlock?
  }

  /** The steps that take the object and its control block apart. */
  predicate Dismantles(a: Action) {
    a.Unlist? || a.DestroyObject? || a.DropObjectWeak? || a.FreeControl?
  }

  lemma DismantleCounted(s: State, a: Action)
    requires Counted(s) && Enabled(s, a) && Dismantles(a)
    ensures Counted(Next(s, a))
  {
    PutSums(s, a.t, Next(s, a).threads[a.t]);
  }

  predicate InLoop(pc: Pc) {
    pc == Idle || pc.Upgrading? || pc == Reloading
  }

  lemma LoopSums(s: State, t: nat, th: Thread)
    requires t < |s.threads| && InLoop(s.threads[t].pc) && InLoop(th.pc) && th.weak == s.threads[t].weak
    ensures var s' := Put(s, t, th);
      && Sum(s'.threads, Strong) == Sum(s.threads, Strong) - s.threads[t].strong + th.strong
      && SameButStrong(s, s')
  {
    PutSums(s, t, th);
  }

  lemma UpgradeCounted(s: State, a: Action)
    requires Counted(s) && Enabled(s, a) && (a.Load? || a.CompareAndSwap?)
    requires ThreadOk(s, a.t)
    ensures Counted(Next(s, a))
  {
    LoopSums(s, a.t, Next(s, a).threads[a.t]);
  }

  lemma CountCounted(s: State, a: Action)
    requires Counted(s) && Enabled(s, a) && (a.AddRef? || a.Release? || a.WeakAddRef? || a.WeakRelease?)
    ensures Counted(Next(s, a))
  {
    PutSums(s, a.t, Next(s, a).threads[a.t]);
  }

  lemma ActorOk(s: State, a: Action)
    requires Enabled(s, a) && ThreadOk(s, a.t) && s.refs >= -1
    ensures ThreadOk(Next(s, a), a.t)
  {
  }

  /** A thread in the upgrade loop keeps what it relies on, whatever the others do. */
  lemma OtherOk(s: State, a: Action, t: nat)
    requires Enabled(s, a) && t < |s.threads| && t != a.t && ThreadOk(s, t)
    requires s.refs == -1 ==> Next(s, a).refs == -1
    ensures ThreadOk(Next(s, a), t)
  {
  }

  lemma NoRevival(s: State, a: Action)
    requires Counted(s) && Enabled(s, a) && ThreadOk(s, a.t) && s.refs == -1
    ensures Next(s, a).refs == -1
  {
    PutSums(s, a.t, s.threads[a.t]);
  }

  lemma StepThreads(s: State, a: Action)
    requires Inv(s) && Enabled(s, a)
    ensures forall t :: 0 <= t < |Next(s, a).threads| ==> ThreadOk(Next(s, a), t)
  {
    assert ThreadOk(s, a.t);
    if s.refs == -1 {
      NoRevival(s, a);
    }
    forall t | 0 <= t < |s.threads|
      ensures ThreadOk(Next(s, a), t)
    {
      assert ThreadOk(s, t);
      if t == a.t {
        ActorOk(s, a);
      } else {
        OtherOk(s, a, t);
      }
    }
  }

  lemma StepInv(s: State, a: Action)
    requires Inv(s) && Enabled(s, a)
    ensures Inv(Next(s, a))
  {
    StepThreads(s, a);
    if Gives(a) {
      GiveCounted(s, a);
    } else if Dismantles(a) {
      DismantleCounted(s, a);
    } else if a.Load? || a.CompareAndSwap? {
      assert ThreadOk(s, a.t);
      UpgradeCounted(s, a);
    } else if !OnlyMutex(a) {
      CountCounted(s, a);
    }
  }

  lemma {:induction false} RunInv(s: State, acts: seq<Action>, s': State)
    requires Inv(s) && IsRun(s, acts, s')
    ensures Inv(s')
    decreases |acts|
  {
    if acts != [] {
      var n := |acts| - 1;
      var m :| IsRun(s, acts[..n], m) && Enabled(m, acts[n]) && s' == Next(m, acts[n]);
      RunInv(s, acts[..n], m);
      StepInv(m, acts[n]);
    }
  }

  // ----- what every run keeps

  ghost predicate Reachable(s: State) {
    exists s0, acts :: Initial(s0) && IsRun(s0, acts, s)
  }

  lemma ReachableInv(s: State)
    requires Reachable(s)
    ensures Inv(s)
  {
    var s0, acts :| Initial(s0) && IsRun(s0, acts, s);
    InitialInv(s0);
    RunInv(s0, acts, s);
  }

  lemma HolderSeen(s: State, t: nat)
    requires t < |s.threads|
    ensures s.threads[t].strong <= Sum(s.threads, Strong) && s.threads[t].weak <= Sum(s.threads, Weak)
    ensures s.threads[t].pc == Destroying ==> Sum(s.threads, At(Destroying)) >= 1
    ensures s.threads[t].pc == Unlisted ==> Sum(s.threads, At(Unlisted)) >= 1
    ensures s.threads[t].pc == DroppingWeak ==> Sum(s.threads, At(DroppingWeak)) >= 1
    ensures s.threads[t].pc == Freeing ==> Sum(s.threads, At(Freeing)) >= 1
  {
    PutSums(s, t, s.threads[t]);
  }

  /** The object is destroyed at most once and the control block freed at most once, and never
      while anybody still holds a reference that keeps it alive. */
  lemma AtMostOnce(s: State)
    requires Reachable(s)
    ensures s.destroyed <= 1 && s.freed <= 1
    ensures s.destroyed == 1 ==> s.refs == -1 && Sum(s.threads, Strong) == 0
    ensures s.freed == 1 ==> s.destroyed == 1 && !s.objectWeak && Sum(s.threads, Weak) == 0
  {
    ReachableInv(s);
  }

  /** Once all threads are idle and all strong references are gone the object has been destroyed,
      and once all weak references are gone too the control block has been freed. */
  lemma NothingLeaks(s: State)
    requires Reachable(s)
    requires forall t :: 0 <= t < |s.threads| ==> s.threads[t].pc == Idle
    ensures Sum(s.threads, Strong) == 0 <==> s.destroyed == 1
    ensures Sum(s.threads, Strong) == 0 && Sum(s.threads, Weak) == 0 <==> s.freed == 1
  {
    ReachableInv(s);
    SumZero(s.threads, At(Destroying));
    SumZero(s.threads, At(Unlisted));
    SumZero(s.threads, At(DroppingWeak));
    SumZero(s.threads, At(Freeing));
  }

  /** The count never leaves -1 again. */
  lemma DeadForGood(s: State, a: Action)
    requires Reachable(s) && Enabled(s, a) && s.refs == -1
    ensures Next(s, a).refs == -1
  {
    ReachableInv(s);
    assert ThreadOk(s, a.t);
    NoRevival(s, a);
  }

  /** No step touches the control block after it has been freed, or while a thread is about to: neither
      those of its holders, nor a lookup under the mutex by a thread without any reference. */
  lemma ControlAlive(s: State, a: Action)
    requires Reachable(s) && Enabled(s, a) && !a.FreeControl? && !OnlyMutex(a)
    ensures s.freed == 0 && s.weakRefs > -1
  {
    ReachableInv(s);
    HolderSeen(s, a.t);
    assert ThreadOk(s, a.t);
  }

  /** A listed object has neither been destroyed nor lost its weak reference. A thread that finds it under
      the mutex finds it there until it lets the mutex go or destroys the object itself. */
  lemma ListedAlive(s: State, a: Action)
    requires Reachable(s) && Enabled(s, a) && s.listed
    ensures s.destroyed == 0 && s.objectWeak && s.freed == 0
    ensures !Next(s, a).listed <==> a == Unlist(a.t)
    ensures s.mutex.Some? && a.t != s.mutex.value ==> Next(s, a).listed && Next(s, a).mutex == s.mutex
  {
    ReachableInv(s);
    HolderSeen(s, a.t);
  }

  /** Whoever holds a strong reference can use the object. */
  lemma ObjectAlive(s: State, t: nat)
    requires Reachable(s) && t < |s.threads| && s.threads[t].strong > 0
    ensures s.destroyed == 0 && s.refs > -1
    ensures forall u :: 0 <= u < |s.threads| ==> s.threads[u].pc != Destroying
  {
    ReachableInv(s);
    HolderSeen(s, t);
    forall u | 0 <= u < |s.threads|
      ensures s.threads[u].pc != Destroying
    {
      HolderSeen(s, u);
    }
  }

  /** An upgrade gives out a reference exactly to a live object, and gives up only on a dead one. */
  lemma UpgradeOnlyAlive(s: State, t: nat)
    requires Reachable(s) && Enabled(s, CompareAndSwap(t))
    ensures var s', th := Next(s, CompareAndSwap(t)), s.threads[t];
      && (s'.threads[t].strong > th.strong ==> s.destroyed == 0 && s.refs > -1)
      && (s'.threads[t].strong > th.strong <==> s.refs == th.pc.owners > -1)
      && (s'.threads[t].pc == Idle && s'.threads[t].strong == th.strong ==> s.refs == -1)
  {
    ReachableInv(s);
    assert ThreadOk(s, t);
  }

  /** A thread that is under way is never stuck: its next step is open to it, but for the mutex that another
      thread may hold. An idle one may use what it holds. */
  lemma NeverStuck(s: State, t: nat)
    requires Reachable(s) && t < |s.threads|
    ensures match s.threads[t].pc
            case Destroying => s.mutex == None ==> Enabled(s, Unlist(t))
            case Unlisted => Enabled(s, DestroyObject(t))
            case DroppingWeak => Enabled(s, DropObjectWeak(t))
            case Freeing => Enabled(s, FreeControl(t))
            case Upgrading(_) => Enabled(s, CompareAndSwap(t))
            case Reloading => Enabled(s, Load(t))
            case Idle =>
              && (s.threads[t].strong > 0 ==> Enabled(s, AddRef(t)) && Enabled(s, Release(t)))
              && (s.threads[t].weak > 0 ==> Enabled(s, WeakAddRef(t)) && Enabled(s, WeakRelease(t)))
              && (s.threads[t].strong > 0 || s.threads[t].weak > 0 || Finds(s, t) ==> Enabled(s, Load(t)))
  {
    ReachableInv(s);
    assert ThreadOk(s, t);
  }

  lemma CanGive(s: State, t: nat, to: nat)
    requires t < |s.threads| && to < |s.threads| && t != to && s.threads[t].pc == Idle
    ensures s.threads[t].strong > 0 ==> Enabled(s, GiveStrong(t, to))
    ensures s.threads[t].weak > 0 ==> Enabled(s, GiveWeak(t, to))
  {
  }

  /** An upgrade that nothing comes between takes two steps: on a live object it ends with one more
      reference, on a dead one with none. */
  lemma UndisturbedUpgrade(s: State, t: nat)
    requires Reachable(s) && Enabled(s, Load(t))
    ensures var loaded := Next(s, Load(t));
      && Enabled(loaded, CompareAndSwap(t))
      && var s', th, th' := Next(loaded, CompareAndSwap(t)), s.threads[t], Next(loaded, CompareAndSwap(t)).threads[t];
         && th'.pc == Idle && th'.weak == th.weak
         && th'.strong == th.strong + One(s.refs > -1) && s'.refs == s.refs + One(s.refs > -1)
  {
    ReachableInv(s);
  }

  ghost predicate OthersOnly(acts: seq<Action>, t: nat) {
    forall i :: 0 <= i < |acts| ==> acts[i].t != t
  }

  lemma OtherStep(s: State, a: Action, t: nat)
    requires Enabled(s, a) && t < |s.threads| && a.t != t
    ensures |Next(s, a).threads| == |s.threads| && Next(s, a).threads[t].pc == s.threads[t].pc
  {
  }

  /** What the other threads do leaves a thread where it stands. */
  lemma {:induction false} StandsStill(s: State, acts: seq<Action>, s': State, t: nat)
    requires t < |s.threads| && IsRun(s, acts, s') && OthersOnly(acts, t)
    ensures t < |s'.threads| && s'.threads[t].pc == s.threads[t].pc
    decreases |acts|
  {
    if acts != [] {
      var n := |acts| - 1;
      var m :| IsRun(s, acts[..n], m) && Enabled(m, acts[n]) && s' == Next(m, acts[n]);
      StandsStill(s, acts[..n], m, t);
      OtherStep(m, acts[n], t);
    }
  }

  /** However many steps of other threads come between: the compare-and-swap gains a reference exactly if
      the counter is what it was at the load and the object was alive then, tries again exactly if the
      object was alive then and the counter has changed, and gives up exactly if the object was dead. */
  lemma {:induction false} UpgradeAcross(s: State, t: nat, acts: seq<Action>, m: State)
    requires Reachable(s) && Enabled(s, Load(t))
    requires IsRun(Next(s, Load(t)), acts, m) && OthersOnly(acts, t)
    ensures Enabled(m, CompareAndSwap(t))
    ensures var s', th, th' := Next(m, CompareAndSwap(t)), m.threads[t], Next(m, CompareAndSwap(t)).threads[t];
      && (th'.pc == Reloading <==> s.refs > -1 && m.refs != s.refs)
      && (th'.pc == Idle || th'.pc == Reloading)
      && th'.strong == th.strong + One(s.refs > -1 && m.refs == s.refs)
      && s'.refs == m.refs + One(s.refs > -1 && m.refs == s.refs)
  {
    ReachableInv(s);
    StandsStill(Next(s, Load(t)), acts, m, t);
  }

  // ----- why the order matters

  /** A release that dropped the object's weak reference before taking the object off the list. */
  function DroppedFirst(s: State): State {
    s.(weakRefs := s.weakRefs - 1, objectWeak := false, freed := s.freed + One(s.weakRefs == 0))
  }

  /** In that order a lookup by name could load from a control block that has been freed. */
  lemma OrderMatters()
    ensures exists s ::
      && Reachable(s) && |s.threads| == 2 && s.threads[0].pc == Destroying
      && s.mutex == None && s.threads[1] == Thread(0, 0, Idle)
      && Enabled(Next(DroppedFirst(s), Lock(1)), Load(1)) && DroppedFirst(s).freed == 1
  {
    var first := State(0, 0, true, true, None, 0, 0, [Thread(1, 0, Idle), Thread(0, 0, Idle)]);
    var s := Next(first, Release(0));
    OneStep(first, Release(0));
    assert Enabled(Next(DroppedFirst(s), Lock(1)), Load(1));
  }

  lemma OneStep(s: State, a: Action)
    requires Initial(s) && Enabled(s, a)
    ensures Reachable(Next(s, a))
  {
    assert [a][..0] == [];
    assert IsRun(s, [], s);
    assert IsRun(s, [a], Next(s, a));
  }
}
