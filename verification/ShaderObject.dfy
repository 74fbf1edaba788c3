/** A Direct3D shader with its parameters, laid out once and uploaded in place. */
module ShaderObject {
  import opened Sequences
  import opened Octets
  import opened ConstantBuffer
  import opened ShaderUpload

  /** The first `n` flags cleared, the loop's view of `Cleared`. */
  lemma ClearOne(params: seq<Param>, i: nat)
    requires i < |params|
    ensures Cleared(params, 0) == params
    ensures Cleared(params, i)[i] == params[i]
    ensures Cleared(params, i + 1) ==
            if params[i].kind == Texture then Cleared(params, i)
            else Cleared(params, i)[i := params[i].(changed := false)]
  {
  }

  lemma AnyPendingNext(params: seq<Param>, i: nat)
    requires i < |params|
    ensures AnyPending(params[..i + 1]) <==> AnyPending(params[..i]) || Pending(params[i])
  {
    var upto := params[..i + 1];
    assert upto[i] == params[i];
    forall k | 0 <= k < i
      ensures upto[k] == params[..i][k]
    {
    }
  }

  lemma {:induction false} AssembledNext(params: seq<Param>, i: nat)
    requires i < |params|
    ensures Assembled(params[..i + 1]) == Append(Assembled(params[..i]), params[i])
  {
    Prefixes(params, i);
  }

  class GsShader {
    var params: seq<Param>
    var constantSize: nat
    var gpu: Bytes
    ghost var lost: bool

    ghost function Abs(): Shader
      reads this
    {
      Shader(params, constantSize, gpu, lost)
    }

    /** BuildConstantBuffer for the parameters of a parsed shader; a new buffer holds `unwritten`. */
    constructor (kinds: seq<Kind>, defaults: seq<Bytes>, unwritten: Bytes)
      requires |kinds| == |defaults| && |unwritten| == End(kinds)
      ensures Abs() == Built(kinds, defaults, unwritten)
    {
      params := seq(|kinds|, i requires 0 <= i < |kinds| => Param(kinds[i], 0, [], false));
      constantSize, lost, gpu := 0, false, unwritten;
      new;
      PlaceParams(kinds);
      for i := 0 to |kinds|
        invariant |params| == |kinds| && constantSize == End(kinds) && gpu == unwritten && !lost
        invariant forall k :: 0 <= k < |kinds| ==>
                    params[k] == if k < i then ParamAt(kinds, defaults, k)
                                 else Param(kinds[k], Pos(kinds, k), [], false)
      {
        if defaults[i] != [] {
          SetVal(i, defaults[i]);
        }
      }
    }

    method PlaceParams(kinds: seq<Kind>)
      requires |params| == |kinds| && constantSize == 0
      requires forall i :: 0 <= i < |kinds| ==> params[i] == Param(kinds[i], 0, [], false)
      modifies this`params, this`constantSize
      ensures constantSize == End(kinds) && |params| == |kinds|
      ensures forall i {:trigger params[i]} :: 0 <= i < |kinds| ==>
                params[i] == Param(kinds[i], Pos(kinds, i), [], false)
    {
      for i := 0 to |kinds|
        invariant constantSize == End(kinds[..i]) && |params| == |kinds|
        invariant forall k {:trigger params[k]} :: 0 <= k < |kinds| ==>
                    params[k] == Param(kinds[k], if k < i then Pos(kinds, k) else 0, [], false)
      {
        Prefixes(kinds, i);
        if Size(kinds[i]) != 0 {
          PlaceParam(i, Size(kinds[i]));
        }
      }
      assert kinds[..|kinds|] == kinds;
    }

    /** One constant: at the next register if it does not fit behind the others. */
    method PlaceParam(i: nat, size: nat)
      requires i < |params|
      modifies this`params, this`constantSize
      ensures params == old(params)[i := old(params)[i].(pos := Start(old(constantSize), size))]
      ensures constantSize == Start(old(constantSize), size) + size
    {
      if constantSize % 16 != 0 {
        var alignMax := (constantSize + 15) / 16 * 16;
        if size + constantSize > alignMax {
          constantSize := alignMax;
        }
      }
      params := params[i := params[i].(pos := constantSize)];
      constantSize := constantSize + size;
    }

    /** shader_setval_inline */
    method SetVal(i: nat, data: Bytes)
      requires i < |params|
      modifies this`params
      ensures Abs() == AfterSet(old(Abs()), i, data)
    {
      var sizeChanged := |params[i].curValue| != |data|;
      if sizeChanged || params[i].curValue != data {
        params := params[i := params[i].(curValue := data, changed := true)];
      }
    }

    /** UpdateParam for a constant that is set: pad, append, and note and forget its change. */
    method UpdateParam(i: nat, constData: Bytes, upload: bool) returns (data: Bytes, changed: bool)
      requires i < |params| && !Missing(params[i])
      modifies this`params
      ensures data == Append(constData, old(params[i])) && (changed <==> upload || Pending(old(params[i])))
      ensures params == if old(params[i]).kind == Texture then old(params)
                        else old(params)[i := old(params[i]).(changed := false)]
    {
      data, changed := constData, upload;
      var param := params[i];
      if param.kind != Texture {
        if param.pos > |data| {
          data := data + Padding(param.pos - |data|);
        }
        data := data + param.curValue;
        if param.changed {
          changed := true;
          params := params[i := param.(changed := false)];
        }
      }
    }

    /** The loop of UploadParams, up to the first constant that was never set. */
    method UpdateParams() returns (n: nat, constData: Bytes, upload: bool)
      modifies this`params
      ensures n == FirstUnset(old(params)) && params == Cleared(old(params), n)
      ensures constData == Assembled(old(params)[..n])
      ensures upload <==> AnyPending(old(params)[..n])
    {
      constData, upload, n := [], false, 0;
      ghost var all := params;
      FirstUnsetIs(all);
      while n < |params|
        invariant n <= FirstUnset(all) && |params| == |all| && params == Cleared(all, n)
        invariant constData == Assembled(all[..n]) && (upload <==> AnyPending(all[..n]))
      {
        ClearOne(all, n);
        if params[n].kind != Texture && params[n].curValue == [] {
          break;
        }
        AnyPendingNext(all, n);
        AssembledNext(all, n);
        constData, upload := UpdateParam(n, constData, upload);
        n := n + 1;
      }
    }

    /** UploadParams; `mapOk` says whether the buffer can be mapped. */
    method UploadParams(mapOk: bool) returns (outcome: Outcome)
      modifies this
      ensures outcome == OutcomeOf(old(Abs()), mapOk)
      ensures Abs() == AfterUpload(old(Abs()), mapOk)
    {
      var n, constData, upload := UpdateParams();
      if n < |params| {
        return NotSet;
      }
      assert old(params)[..n] == old(params);
      if |constData| != constantSize {
        return BadSize;
      }
      if upload {
        if !mapOk {
          lost := true;
          return MapFailed;
        }
        gpu := constData;
        lost := false;
        return Uploaded;
      }
      return Skipped;
    }
  }
}
