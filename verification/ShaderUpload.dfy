/** Setting shader parameters and sending them to the GPU only when one of them has changed. */
module ShaderUpload {
  import opened Octets
  import opened ConstantBuffer

  /** `gpu` is what the mapped buffer holds; `lost` says that a Map has failed since the buffer was
      last written. */
  datatype Shader = Shader(params: seq<Param>, constantSize: nat, gpu: Bytes, lost: bool)

  datatype Outcome = NotSet | BadSize | MapFailed | Uploaded | Skipped {
    predicate Success() {
      Uploaded? || Skipped?
    }
  }

  datatype Step = SetVal(i: nat, data: Bytes) | Upload(mapOk: bool)

  // ---------------------------------------------------------------- the steps

  predicate Missing(p: Param) {
    p.kind != Texture && p.curValue == []
  }

  predicate Pending(p: Param) {
    p.kind != Texture && p.changed
  }

  /** The parameter at which UpdateParam gives up, or the number of parameters. */
  function FirstUnset(params: seq<Param>): (n: nat)
    ensures n <= |params|
  {
    if params == [] || Missing(params[0]) then 0 else 1 + FirstUnset(params[1..])
  }

  function Cleared(params: seq<Param>, n: nat): (r: seq<Param>)
    requires n <= |params|
    ensures |r| == |params|
    ensures forall i :: 0 <= i < |r| ==>
              r[i] == if i < n && params[i].kind != Texture then params[i].(changed := false) else params[i]
  {
    seq(|params|, i requires 0 <= i < |params| =>
      if i < n && params[i].kind != Texture then params[i].(changed := false) else params[i])
  }

  predicate AnyPending(params: seq<Param>) {
    exists i :: 0 <= i < |params| && Pending(params[i])
  }

  function AfterSet(s: Shader, i: nat, data: Bytes): Shader {
    if i < |s.params| && s.params[i].curValue != data
    then s.(params := s.params[i := s.params[i].(curValue := data, changed := true)])
    else s
  }

  function OutcomeOf(s: Shader, mapOk: bool): Outcome {
    if FirstUnset(s.params) < |s.params| then NotSet
    else if |Assembled(s.params)| != s.constantSize then BadSize
    else if !AnyPending(s.params) then Skipped
    else if mapOk then Uploaded else MapFailed
  }

  function AfterUpload(s: Shader, mapOk: bool): Shader {
    var cleared := Cleared(s.params, FirstUnset(s.params));
    match OutcomeOf(s, mapOk)
    case Uploaded => Shader(cleared, s.constantSize, Assembled(s.params), false)
    case MapFailed => Shader(cleared, s.constantSize, s.gpu, true)
    case _ => Shader(cleared, s.constantSize, s.gpu, s.lost)
  }

  function Next(s: Shader, step: Step): Shader {
    match step
    case SetVal(i, data) => AfterSet(s, i, data)
    case Upload(mapOk) => AfterUpload(s, mapOk)
  }

  ghost function Run(s: Shader, steps: seq<Step>): Shader {
    if steps == [] then s else Next(Run(s, steps[..|steps| - 1]), steps[|steps| - 1])
  }

  // ---------------------------------------------------------------- assembling ignores the flags

  lemma {:induction false} AssembledSame(a: seq<Param>, b: seq<Param>)
    requires |a| == |b|
    requires forall i :: 0 <= i < |a| ==>
               && a[i].kind == b[i].kind
               && (a[i].kind == Texture || (a[i].pos == b[i].pos && a[i].curValue == b[i].curValue))
    ensures Assembled(a) == Assembled(b)
  {
    if a != [] {
      AssembledSame(a[..|a| - 1], b[..|b| - 1]);
    }
  }

  lemma {:induction false} FirstUnsetSame(a: seq<Param>, b: seq<Param>)
    requires |a| == |b|
    requires forall i :: 0 <= i < |a| ==> a[i].kind == b[i].kind && a[i].curValue == b[i].curValue
    ensures FirstUnset(a) == FirstUnset(b)
  {
    if a != [] {
      FirstUnsetSame(a[1..], b[1..]);
    }
  }

  lemma {:induction false} ClearedSame(params: seq<Param>, n: nat)
    requires n <= |params|
    ensures Assembled(Cleared(params, n)) == Assembled(params)
    ensures FirstUnset(Cleared(params, n)) == FirstUnset(params)
  {
    AssembledSame(Cleared(params, n), params);
    FirstUnsetSame(Cleared(params, n), params);
  }

  lemma {:induction false} FirstUnsetIs(params: seq<Param>)
    ensures FirstUnset(params) < |params| ==> Missing(params[FirstUnset(params)])
    ensures forall i :: 0 <= i < FirstUnset(params) ==> !Missing(params[i])
  {
    if params != [] {
      FirstUnsetIs(params[1..]);
    }
  }

  // ---------------------------------------------------------------- when the copy is current

  predicate Complete(s: Shader) {
    (forall i :: 0 <= i < |s.params| ==> !Missing(s.params[i])) && |Assembled(s.params)| == s.constantSize
  }

  /** With nothing pending, the GPU has what the parameters say, unless a Map has failed. */
  ghost predicate Inv(s: Shader) {
    Complete(s) && !AnyPending(s.params) && !s.lost ==> s.gpu == Assembled(s.params)
  }

  lemma SetKeepsInv(s: Shader, i: nat, data: Bytes)
    requires Inv(s)
    ensures Inv(AfterSet(s, i, data))
  {
    var t := AfterSet(s, i, data);
    if t != s {
      if s.params[i].kind == Texture {
        AssembledSame(s.params, t.params);
        if Complete(t) && !AnyPending(t.params) {
          forall k | 0 <= k < |s.params|
            ensures !Missing(s.params[k]) && !Pending(s.params[k])
          {
            assert !Missing(t.params[k]) && !Pending(t.params[k]);
          }
        }
      } else {
        assert Pending(t.params[i]);
      }
    }
  }

  lemma UploadKeepsInv(s: Shader, mapOk: bool)
    requires Inv(s)
    ensures Inv(AfterUpload(s, mapOk))
  {
    var n := FirstUnset(s.params);
    var t := AfterUpload(s, mapOk);
    FirstUnsetIs(s.params);
    AssembledSame(s.params, t.params);
    if n < |s.params| {
      assert Missing(t.params[n]);
    } else if OutcomeOf(s, mapOk) == Skipped {
      forall k | 0 <= k < |s.params|
        ensures !Missing(s.params[k])
      {
      }
    }
  }

  lemma {:induction false} RunInv(s: Shader, steps: seq<Step>)
    requires Inv(s)
    ensures Inv(Run(s, steps))
  {
    if steps != [] {
      var before := Run(s, steps[..|steps| - 1]);
      RunInv(s, steps[..|steps| - 1]);
      match steps[|steps| - 1] {
        case SetVal(i, data) => SetKeepsInv(before, i, data);
        case Upload(mapOk) => UploadKeepsInv(before, mapOk);
      }
    }
  }

  /** A call that succeeds leaves the copy current exactly if it had something to send or the copy was
      current already. */
  lemma SuccessCurrentIff(s: Shader, mapOk: bool)
    requires OutcomeOf(s, mapOk).Success()
    ensures var t := AfterUpload(s, mapOk);
            t.gpu == Assembled(t.params) <==> AnyPending(s.params) || s.gpu == Assembled(s.params)
  {
    ClearedSame(s.params, FirstUnset(s.params));
  }

  lemma SuccessIsCurrent(s: Shader, mapOk: bool)
    requires Inv(s) && !s.lost && OutcomeOf(s, mapOk).Success()
    ensures var t := AfterUpload(s, mapOk); t.gpu == Assembled(t.params)
  {
    FirstUnsetIs(s.params);
    SuccessCurrentIff(s, mapOk);
  }

  /** In every run, a successful call leaves the GPU with the current values, whether it uploads or
      skips, provided no Map has failed since the buffer was last written. */
  lemma {:induction false} CurrentOnSuccess(s: Shader, steps: seq<Step>, mapOk: bool)
    requires Inv(s) && !Run(s, steps).lost && OutcomeOf(Run(s, steps), mapOk).Success()
    ensures var t := AfterUpload(Run(s, steps), mapOk); t.gpu == Assembled(t.params)
  {
    RunInv(s, steps);
    SuccessIsCurrent(Run(s, steps), mapOk);
  }

  /** When a call ends in which way. */
  lemma OutcomeIff(s: Shader, mapOk: bool)
    ensures OutcomeOf(s, mapOk) == NotSet <==> exists i :: 0 <= i < |s.params| && Missing(s.params[i])
    ensures OutcomeOf(s, mapOk).Success() <==> Complete(s) && (AnyPending(s.params) ==> mapOk)
    ensures OutcomeOf(s, mapOk) == Skipped <==> Complete(s) && !AnyPending(s.params)
    ensures OutcomeOf(s, mapOk) == MapFailed <==> Complete(s) && AnyPending(s.params) && !mapOk
  {
    FirstUnsetIs(s.params);
  }

  lemma NothingPending(params: seq<Param>)
    ensures !AnyPending(Cleared(params, |params|))
  {
  }

  // ---------------------------------------------------------------- a shader just built

  function ParamAt(kinds: seq<Kind>, defaults: seq<Bytes>, i: nat): Param
    requires i < |kinds| == |defaults|
  {
    Param(kinds[i], Pos(kinds, i), defaults[i], defaults[i] != [])
  }

  function Built(kinds: seq<Kind>, defaults: seq<Bytes>, unwritten: Bytes): (s: Shader)
    requires |kinds| == |defaults|
    ensures |s.params| == |kinds|
  {
    Shader(seq(|kinds|, i requires 0 <= i < |kinds| => ParamAt(kinds, defaults, i)), End(kinds), unwritten, false)
  }

  lemma {:induction false} NoConstants(params: seq<Param>)
    requires forall i :: 0 <= i < |params| ==> params[i].kind == Texture
    ensures Assembled(params) == []
  {
    if params != [] {
      NoConstants(params[..|params| - 1]);
    }
  }

  /** Whatever a new buffer holds, a shader starts out with everything that is set still to be sent. */
  lemma {:induction false} BuiltInv(kinds: seq<Kind>, defaults: seq<Bytes>, unwritten: Bytes)
    requires |kinds| == |defaults| && |unwritten| == End(kinds)
    ensures Inv(Built(kinds, defaults, unwritten))
  {
    var s := Built(kinds, defaults, unwritten);
    if Complete(s) && !AnyPending(s.params) {
      forall i | 0 <= i < |s.params|
        ensures s.params[i].kind == Texture
      {
        assert s.params[i] == ParamAt(kinds, defaults, i);
        assert !Missing(s.params[i]) && !Pending(s.params[i]);
      }
      NoConstants(s.params);
    }
  }

  lemma BuiltLaid(kinds: seq<Kind>, defaults: seq<Bytes>, unwritten: Bytes)
    requires |kinds| == |defaults|
    requires forall i :: 0 <= i < |kinds| ==> kinds[i] == Texture || Size(kinds[i]) > 0
    ensures Laid(Built(kinds, defaults, unwritten).params)
  {
    var s := Built(kinds, defaults, unwritten);
    assert Kinds(s.params) == kinds;
    forall i | 0 <= i < |s.params|
      ensures Placed(s.params, i)
    {
      assert s.params[i] == ParamAt(kinds, defaults, i);
    }
  }

  lemma {:induction false} RunKeepsLayout(s: Shader, steps: seq<Step>)
    requires Laid(s.params)
    ensures Laid(Run(s, steps).params) && Run(s, steps).constantSize == s.constantSize
    ensures Kinds(Run(s, steps).params) == Kinds(s.params)
  {
    if steps != [] {
      var before := Run(s, steps[..|steps| - 1]);
      RunKeepsLayout(s, steps[..|steps| - 1]);
      NextKeepsPlaces(before, steps[|steps| - 1], Run(s, steps));
      SameLayout(before.params, Run(s, steps).params);
    }
  }

  lemma NextKeepsPlaces(s: Shader, step: Step, t: Shader)
    requires t == Next(s, step)
    ensures t.constantSize == s.constantSize && SamePlaces(s.params, t.params)
  {
  }

  ghost predicate SamePlaces(a: seq<Param>, b: seq<Param>) {
    |b| == |a| && forall i :: 0 <= i < |a| ==> b[i].kind == a[i].kind && b[i].pos == a[i].pos
  }

  lemma SameLayout(before: seq<Param>, after: seq<Param>)
    requires Laid(before) && SamePlaces(before, after)
    ensures Laid(after) && Kinds(after) == Kinds(before)
  {
    assert Kinds(after) == Kinds(before);
    forall i | 0 <= i < |after|
      ensures Placed(after, i)
    {
      assert Placed(before, i);
    }
  }

  lemma {:induction false} BuiltRun(kinds: seq<Kind>, defaults: seq<Bytes>, unwritten: Bytes, steps: seq<Step>)
    requires |kinds| == |defaults| && |unwritten| == End(kinds)
    requires forall k :: 0 <= k < |kinds| ==> kinds[k] == Texture || Size(kinds[k]) > 0
    ensures var s := Run(Built(kinds, defaults, unwritten), steps);
            Inv(s) && Laid(s.params) && Kinds(s.params) == kinds
  {
    var built := Built(kinds, defaults, unwritten);
    BuiltInv(kinds, defaults, unwritten);
    BuiltLaid(kinds, defaults, unwritten);
    assert Kinds(built.params) == kinds;
    RunInv(built, steps);
    RunKeepsLayout(built, steps);
  }

  lemma ValuePlaced(s: Shader, mapOk: bool, i: nat)
    requires Inv(s) && Laid(s.params) && Sized(s.params) && !s.lost && OutcomeOf(s, mapOk).Success()
    requires i < |s.params| && s.params[i].kind != Texture
    ensures LiesAt(AfterUpload(s, mapOk).gpu, s.params[i].pos, s.params[i].curValue)
    ensures |AfterUpload(s, mapOk).gpu| == End(Kinds(s.params))
  {
    SuccessIsCurrent(s, mapOk);
    ClearedSame(s.params, FirstUnset(s.params));
    AssembledAt(s.params, i);
    AssembledLength(s.params);
  }

  /** The whole chain: for numeric, vector, matrix and texture parameters, set to values of their own
      sizes, a successful call leaves every value on the GPU at the place the shader compiler expects. */
  lemma {:induction false} ValuesOnGpu(kinds: seq<Kind>, defaults: seq<Bytes>, unwritten: Bytes,
                                           steps: seq<Step>, mapOk: bool, i: nat)
    requires |kinds| == |defaults| && |unwritten| == End(kinds)
    requires forall k :: 0 <= k < |kinds| ==> kinds[k] == Texture || Size(kinds[k]) > 0
    requires i < |kinds| && kinds[i] != Texture
    requires var s := Run(Built(kinds, defaults, unwritten), steps);
             Sized(s.params) && !s.lost && OutcomeOf(s, mapOk).Success()
    ensures var s := Run(Built(kinds, defaults, unwritten), steps);
            |s.params| == |kinds| && LiesAt(AfterUpload(s, mapOk).gpu, Pos(kinds, i), s.params[i].curValue)
            && |AfterUpload(s, mapOk).gpu| == End(kinds)
  {
    var s := Run(Built(kinds, defaults, unwritten), steps);
    BuiltRun(kinds, defaults, unwritten, steps);
    assert Placed(s.params, i) && Kinds(s.params)[i] == s.params[i].kind;
    ValuePlaced(s, mapOk, i);
  }

  /** Setting a constant to other bytes of its size and calling twice: both calls end well for the
      second one, and the GPU has the new value exactly if the first Map succeeded. */
  lemma CurrentIffMapped(s: Shader, i: nat, data: Bytes, first: bool, second: bool)
    requires Inv(s) && Laid(s.params) && Sized(s.params) && s.constantSize == End(Kinds(s.params))
    requires !AnyPending(s.params) && !s.lost
    requires i < |s.params| && s.params[i].kind != Texture
    requires |data| == Size(s.params[i].kind) && data != s.params[i].curValue
    ensures var changed := AfterSet(s, i, data);
            var once := AfterUpload(changed, first);
            var twice := AfterUpload(once, second);
            && OutcomeOf(once, second).Success()
            && (twice.gpu == Assembled(twice.params) <==> first)
  {
    var changed := AfterSet(s, i, data);
    SizedReady(s);
    AssembledAt(s.params, i);
    LaidAfterSet(s, i, data);
    SizedReady(changed);
    AssembledAt(changed.params, i);
    assert Pending(changed.params[i]);
    assert s.gpu == Assembled(s.params);
    assert OutcomeOf(changed, first) == if first then Uploaded else MapFailed;
    assert Assembled(s.params) != Assembled(changed.params);
    TwoCalls(changed, first, second);
  }

  lemma ClearedLaid(params: seq<Param>, n: nat)
    requires Laid(params) && Sized(params) && n <= |params|
    ensures var cleared := Cleared(params, n);
            Laid(cleared) && Sized(cleared) && Kinds(cleared) == Kinds(params)
  {
    SameLayout(params, Cleared(params, n));
  }

  /** A complete shader with nothing to send and a current copy. */
  ghost predicate Settled(s: Shader) {
    && Laid(s.params) && Sized(s.params) && s.constantSize == End(Kinds(s.params))
    && !AnyPending(s.params) && !s.lost && s.gpu == Assembled(s.params)
  }

  /** A complete shader always uploads or skips, and the change marks are gone. */
  lemma CompleteUpload(s: Shader)
    requires FirstUnset(s.params) == |s.params| && |Assembled(s.params)| == s.constantSize
    ensures var t := AfterUpload(s, true);
            && OutcomeOf(s, true).Success() && t.params == Cleared(s.params, |s.params|)
            && t.constantSize == s.constantSize && (t.lost ==> s.lost)
  {
  }

  lemma UploadSettles(s: Shader)
    requires Inv(s) && Laid(s.params) && Sized(s.params) && s.constantSize == End(Kinds(s.params)) && !s.lost
    ensures Settled(AfterUpload(s, true)) && AfterUpload(s, true).gpu == Assembled(s.params)
    ensures AfterUpload(s, true).params == Cleared(s.params, |s.params|)
  {
    SizedReady(s);
    CompleteUpload(s);
    NothingPending(s.params);
    ClearedSame(s.params, |s.params|);
    ClearedLaid(s.params, |s.params|);
    SuccessIsCurrent(s, true);
  }

  lemma {:induction false} BuiltReady(kinds: seq<Kind>, defaults: seq<Bytes>, unwritten: Bytes)
    requires |kinds| == |defaults| && |unwritten| == End(kinds)
    requires forall k :: 0 <= k < |kinds| ==>
               kinds[k] == Texture || (Size(kinds[k]) > 0 && |defaults[k]| == Size(kinds[k]))
    ensures var s := Built(kinds, defaults, unwritten);
            Inv(s) && Laid(s.params) && Sized(s.params) && Kinds(s.params) == kinds
  {
    BuiltInv(kinds, defaults, unwritten);
    BuiltLaid(kinds, defaults, unwritten);
    assert Kinds(Built(kinds, defaults, unwritten).params) == kinds;
  }

  lemma {:induction false} RunNext(s: Shader, steps: seq<Step>, step: Step)
    ensures Run(s, steps + [step]) == Next(Run(s, steps), step)
  {
    assert (steps + [step])[..|steps|] == steps;
  }

  lemma {:induction false} RunThree(s: Shader, a: Step, b: Step, c: Step)
    ensures Run(s, [a, b, c]) == Next(Next(Next(s, a), b), c)
  {
    RunNext(s, [], a);
    RunNext(s, [a], b);
    RunNext(s, [a, b], c);
    assert [] + [a] == [a] && [a] + [b] == [a, b] && [a, b] + [c] == [a, b, c];
  }

  /** After a failed Map the next call sends nothing, ends well, and leaves the GPU with what it had. */
  lemma FailedMapForgets(s: Shader, i: nat, data: Bytes, mapOk: bool)
    requires Settled(s) && i < |s.params| && s.params[i].kind != Texture
    requires |data| == Size(s.params[i].kind) && data != s.params[i].curValue
    ensures var t := AfterUpload(AfterSet(s, i, data), false);
            && OutcomeOf(t, mapOk) == Skipped && AfterUpload(t, mapOk).gpu == s.gpu
            && s.gpu != Assembled(AfterUpload(t, mapOk).params)
            && |t.params| == |s.params| && t.params[i].curValue == data
  {
    var t := AfterUpload(AfterSet(s, i, data), false);
    CurrentIffMapped(s, i, data, false, mapOk);
    StaleSkips(t, mapOk);
  }

  lemma StaleSkips(s: Shader, mapOk: bool)
    requires OutcomeOf(s, mapOk).Success()
    requires var t := AfterUpload(s, mapOk); t.gpu != Assembled(t.params)
    ensures OutcomeOf(s, mapOk) == Skipped && AfterUpload(s, mapOk).gpu == s.gpu
  {
    SuccessCurrentIff(s, mapOk);
  }

  lemma SettledForgets(s: Shader, sent: Shader, i: nat, data: Bytes, mapOk: bool)
    requires Inv(s) && Laid(s.params) && Sized(s.params) && s.constantSize == End(Kinds(s.params)) && !s.lost
    requires sent == AfterUpload(s, true) && i < |s.params| && s.params[i].kind != Texture
    requires |data| == Size(s.params[i].kind) && data != s.params[i].curValue
    ensures var t := AfterUpload(AfterSet(sent, i, data), false);
            && OutcomeOf(t, mapOk) == Skipped && AfterUpload(t, mapOk).gpu == Assembled(s.params)
            && Assembled(s.params) != Assembled(AfterUpload(t, mapOk).params)
            && |t.params| == |s.params| && t.params[i].curValue == data
  {
    UploadSettles(s);
    FailedMapForgets(sent, i, data, mapOk);
  }

  /** Such a state is reached in every shader that has a constant: the buffer is sent once, the constant is
      set to other bytes, and its Map fails. */
  lemma {:induction false} MapFailureLosesChange(kinds: seq<Kind>, defaults: seq<Bytes>, unwritten: Bytes,
                              i: nat, data: Bytes, mapOk: bool)
    requires |kinds| == |defaults| && |unwritten| == End(kinds)
    requires forall k :: 0 <= k < |kinds| ==>
               kinds[k] == Texture || (Size(kinds[k]) > 0 && |defaults[k]| == Size(kinds[k]))
    requires i < |kinds| && kinds[i] != Texture && |data| == Size(kinds[i]) && data != defaults[i]
    ensures var built := Built(kinds, defaults, unwritten);
            var s := Run(built, [Upload(true), SetVal(i, data), Upload(false)]);
            && OutcomeOf(s, mapOk) == Skipped
            && AfterUpload(s, mapOk).gpu == Assembled(built.params) != Assembled(AfterUpload(s, mapOk).params)
            && |s.params| == |kinds| && s.params[i].curValue == data
  {
    var built := Built(kinds, defaults, unwritten);
    BuiltReady(kinds, defaults, unwritten);
    RunThree(built, Upload(true), SetVal(i, data), Upload(false));
    SettledForgets(built, AfterUpload(built, true), i, data, mapOk);
  }

  lemma LaidAfterSet(s: Shader, i: nat, data: Bytes)
    requires Laid(s.params) && Sized(s.params) && i < |s.params| && |data| == Size(s.params[i].kind)
    ensures var t := AfterSet(s, i, data);
            Laid(t.params) && Sized(t.params) && Kinds(t.params) == Kinds(s.params)
  {
    var t := AfterSet(s, i, data);
    assert Kinds(t.params) == Kinds(s.params);
    forall k | 0 <= k < |t.params|
      ensures Placed(t.params, k)
    {
      assert Placed(s.params, k);
    }
  }

  lemma SizedReady(s: Shader)
    requires Laid(s.params) && Sized(s.params) && s.constantSize == End(Kinds(s.params))
    ensures Complete(s) && FirstUnset(s.params) == |s.params|
  {
    forall k | 0 <= k < |s.params|
      ensures !Missing(s.params[k])
    {
      assert Placed(s.params, k);
    }
    FirstUnsetIs(s.params);
    AssembledLength(s.params);
  }

  /** A complete shader without a pending change sends nothing. */
  lemma UnchangedSkips(s: Shader, mapOk: bool)
    requires FirstUnset(s.params) == |s.params| && |Assembled(s.params)| == s.constantSize && !AnyPending(s.params)
    ensures OutcomeOf(s, mapOk) == Skipped && AfterUpload(s, mapOk).gpu == s.gpu
    ensures Assembled(AfterUpload(s, mapOk).params) == Assembled(s.params)
  {
    ClearedSame(s.params, |s.params|);
  }

  lemma TwoCalls(s: Shader, first: bool, second: bool)
    requires FirstUnset(s.params) == |s.params|
    requires OutcomeOf(s, first) == if first then Uploaded else MapFailed
    ensures var once := AfterUpload(s, first);
            var twice := AfterUpload(once, second);
            && OutcomeOf(once, second) == Skipped
            && twice.gpu == (if first then Assembled(s.params) else s.gpu)
            && Assembled(twice.params) == Assembled(s.params)
  {
    var once := AfterUpload(s, first);
    NothingPending(s.params);
    ClearedSame(s.params, |s.params|);
    assert once.params == Cleared(s.params, |s.params|);
    UnchangedSkips(once, second);
  }
}
