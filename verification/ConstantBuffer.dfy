/** Where a shader's parameters lie in its constant buffer, and when their bytes reach the GPU. */
module ConstantBuffer {
  import opened Octets

  datatype Kind = Bool | Float | Int | Text | Vec2 | Vec3 | Vec4 | Matrix4x4 | Texture | Unknown

  /** The bytes a parameter takes in the buffer; textures, strings and unknown types take none. */
  function Size(k: Kind): nat {
    match k
    case Bool => 4
    case Int => 4
    case Float => 4
    case Vec2 => 8
    case Vec3 => 12
    case Vec4 => 16
    case Matrix4x4 => 64
    case Texture => 0
    case Text => 0
    case Unknown => 0
  }

  /** The 32-bit numbers that a value consists of. */
  function Components(k: Kind): nat {
    match k
    case Bool | Int | Float => 1
    case Vec2 => 2
    case Vec3 => 3
    case Vec4 => 4
    case Matrix4x4 => 4 * 4
    case Texture | Text | Unknown => 0
  }

  lemma SizeCounts(k: Kind)
    ensures Size(k) == 4 * Components(k)
  {
  }

  // ---------------------------------------------------------------- layout

  function AlignUp(n: nat): nat {
    (n + 15) / 16 * 16
  }

  function Start(end: nat, size: nat): nat {
    if end % 16 != 0 && size + end > AlignUp(end) then AlignUp(end) else end
  }

  /** The buffer size once `kinds` have been laid out. */
  function End(kinds: seq<Kind>): nat {
    if kinds == [] then 0
    else
      var before := End(kinds[..|kinds| - 1]);
      var size := Size(kinds[|kinds| - 1]);
      if size == 0 then before else Start(before, size) + size
  }

  function Pos(kinds: seq<Kind>, i: nat): nat
    requires i < |kinds|
  {
    if Size(kinds[i]) == 0 then 0 else Start(End(kinds[..i]), Size(kinds[i]))
  }

  /** The rule of shader compilers: a constant lies within one 16-byte register or starts a new one. */
  predicate Fits(pos: nat, size: nat) {
    pos % 16 == 0 || pos % 16 + size <= 16
  }

  /** The position is the first one behind the previous constants that obeys the rule. */
  lemma StartIsFirstFit(end: nat, size: nat)
    requires size > 0
    ensures end <= Start(end, size) < end + 16 && Fits(Start(end, size), size)
    ensures forall p: nat :: end <= p < Start(end, size) ==> !Fits(p, size)
  {
    forall p: nat | end <= p < Start(end, size)
      ensures !Fits(p, size)
    {
      assert p / 16 == end / 16;
    }
  }

  lemma {:induction false} EndMonotone(kinds: seq<Kind>, i: nat)
    requires i <= |kinds|
    ensures End(kinds[..i]) <= End(kinds)
    decreases |kinds| - i
  {
    if i == |kinds| {
      assert kinds[..i] == kinds;
    } else {
      var next := kinds[..i + 1];
      assert next[..i] == kinds[..i];
      if Size(kinds[i]) > 0 {
        StartIsFirstFit(End(kinds[..i]), Size(kinds[i]));
      }
      EndMonotone(kinds, i + 1);
    }
  }

  lemma PosEnds(kinds: seq<Kind>, i: nat)
    requires i < |kinds| && Size(kinds[i]) > 0
    ensures Pos(kinds, i) + Size(kinds[i]) == End(kinds[..i + 1])
  {
    assert kinds[..i + 1][..i] == kinds[..i];
  }

  /** Constants lie one behind the other, inside the buffer. */
  lemma {:induction false} LayoutDisjoint(kinds: seq<Kind>, i: nat, j: nat)
    requires i < j < |kinds| && Size(kinds[i]) > 0 && Size(kinds[j]) > 0
    ensures Pos(kinds, i) + Size(kinds[i]) <= Pos(kinds, j)
    ensures Pos(kinds, j) + Size(kinds[j]) <= End(kinds)
  {
    PosEnds(kinds, i);
    PosEnds(kinds, j);
    assert kinds[..j][..i + 1] == kinds[..i + 1];
    EndMonotone(kinds[..j], i + 1);
    EndMonotone(kinds, j + 1);
    StartIsFirstFit(End(kinds[..j]), Size(kinds[j]));
  }

  /** None of at most 16 bytes crosses a register, and matrices start on one. */
  lemma LayoutFitsRegisters(kinds: seq<Kind>, i: nat)
    requires i < |kinds| && Size(kinds[i]) > 0
    ensures Size(kinds[i]) <= 16 ==> Pos(kinds, i) / 16 == (Pos(kinds, i) + Size(kinds[i]) - 1) / 16
    ensures kinds[i] == Matrix4x4 ==> Pos(kinds, i) % 16 == 0
  {
    StartIsFirstFit(End(kinds[..i]), Size(kinds[i]));
    FitsOneRegister(Pos(kinds, i), Size(kinds[i]));
  }

  lemma FitsOneRegister(pos: nat, size: nat)
    requires Fits(pos, size) && 0 < size
    ensures size <= 16 ==> pos / 16 == (pos + size - 1) / 16
  {
  }

  // ---------------------------------------------------------------- assembling the bytes

  datatype Param = Param(kind: Kind, pos: nat, curValue: Bytes, changed: bool)

  function Padding(n: nat): (r: Bytes)
    ensures |r| == n && forall i :: 0 <= i < n ==> r[i] == 0
  {
    seq(n, _ => 0)
  }

  function Append(data: Bytes, p: Param): Bytes {
    if p.kind == Texture then data
    else data + Padding(if p.pos > |data| then p.pos - |data| else 0) + p.curValue
  }

  function Assembled(params: seq<Param>): Bytes {
    if params == [] then [] else Append(Assembled(params[..|params| - 1]), params[|params| - 1])
  }

  function Kinds(params: seq<Param>): (r: seq<Kind>)
    ensures |r| == |params| && forall i :: 0 <= i < |r| ==> r[i] == params[i].kind
  {
    seq(|params|, i requires 0 <= i < |params| => params[i].kind)
  }

  ghost predicate Placed(params: seq<Param>, i: nat)
    requires i < |params|
  {
    params[i].kind == Texture || (Size(params[i].kind) > 0 && params[i].pos == Pos(Kinds(params), i))
  }

  /** Every parameter is a texture or a constant at the place that BuildConstantBuffer gives it. */
  ghost predicate Laid(params: seq<Param>) {
    forall i :: 0 <= i < |params| ==> Placed(params, i)
  }

  predicate Sized(params: seq<Param>) {
    forall i :: 0 <= i < |params| ==> params[i].kind == Texture || |params[i].curValue| == Size(params[i].kind)
  }

  lemma {:induction false} LaidPrefix(params: seq<Param>, k: nat)
    requires Laid(params) && k <= |params|
    ensures Laid(params[..k]) && Kinds(params[..k]) == Kinds(params)[..k]
  {
    var init := params[..k];
    assert Kinds(init) == Kinds(params)[..k];
    forall i | 0 <= i < |init|
      ensures Placed(init, i)
    {
      assert Placed(params, i) && Kinds(init)[..i] == Kinds(params)[..i];
    }
  }

  /** With values of their declared sizes the assembled bytes fill the buffer exactly. */
  lemma {:induction false} AssembledLength(params: seq<Param>)
    requires Laid(params) && Sized(params)
    ensures |Assembled(params)| == End(Kinds(params))
  {
    if params != [] {
      LaidPrefix(params, |params| - 1);
      AssembledLength(params[..|params| - 1]);
      assert Placed(params, |params| - 1);
      var p := params[|params| - 1];
      if p.kind != Texture {
        StartIsFirstFit(End(Kinds(params)[..|params| - 1]), Size(p.kind));
      }
    }
  }

  predicate LiesAt(data: Bytes, pos: nat, value: Bytes) {
    pos + |value| <= |data| && data[pos..pos + |value|] == value
  }

  /** ... and every value lies at its position. */
  lemma {:induction false} AssembledAt(params: seq<Param>, i: nat)
    requires Laid(params) && Sized(params) && i < |params| && params[i].kind != Texture
    ensures LiesAt(Assembled(params), params[i].pos, params[i].curValue)
  {
    var upto := params[..i + 1];
    LaidPrefix(params, i + 1);
    assert upto[..i] == params[..i] && upto[i] == params[i];
    LastBehind(upto);
    AppendPlaces(Assembled(params[..i]), params[i]);
    assert Assembled(upto) == Append(Assembled(params[..i]), params[i]);
    LaterKeep(params, i + 1, params[i].pos, params[i].curValue);
  }

  lemma {:induction false} LaterKeep(params: seq<Param>, k: nat, pos: nat, value: Bytes)
    requires k <= |params| && LiesAt(Assembled(params[..k]), pos, value)
    ensures LiesAt(Assembled(params), pos, value)
    decreases |params| - k
  {
    if k == |params| {
      assert params[..k] == params;
    } else {
      assert params[..k + 1][..k] == params[..k];
      AppendKeeps(Assembled(params[..k]), params[k], pos, value);
      LaterKeep(params, k + 1, pos, value);
    }
  }

  lemma {:induction false} LastBehind(params: seq<Param>)
    requires Laid(params) && Sized(params) && params != []
    ensures var last := |params| - 1; params[last].kind != Texture ==> |Assembled(params[..last])| <= params[last].pos
  {
    var last := |params| - 1;
    LaidPrefix(params, last);
    AssembledLength(params[..last]);
    assert Placed(params, last);
    if params[last].kind != Texture {
      StartIsFirstFit(End(Kinds(params)[..last]), Size(params[last].kind));
    }
  }

  lemma AppendPlaces(data: Bytes, p: Param)
    requires p.kind != Texture && p.pos >= |data|
    ensures LiesAt(Append(data, p), p.pos, p.curValue)
  {
  }

  lemma AppendKeeps(data: Bytes, p: Param, pos: nat, value: Bytes)
    requires LiesAt(data, pos, value)
    ensures LiesAt(Append(data, p), pos, value)
  {
  }
}
