/** Searching an H.264 byte stream for start codes, four bytes at a time. */
module AvcStartCode {
  import opened Octets

  /** The three bytes 00 00 01. */
  predicate CodeAt(d: Bytes, i: nat) {
    i + 2 < |d| && d[i] == 0 && d[i + 1] == 0 && d[i + 2] == 1
  }

  /** The least start code that is followed by at least one byte, else the end of the data. */
  function Code(d: Bytes): (r: nat)
    ensures r <= |d|
    ensures r < |d| ==> r + 3 < |d| && CodeAt(d, r)
    ensures forall i: nat :: i < r && i + 3 < |d| ==> !CodeAt(d, i)
  {
    if |d| <= 3 then |d|
    else if CodeAt(d, 0) then 0
    else
      var r := Code(d[1..]);
      assert forall i: nat :: 0 < i && i + 3 < |d| ==> (CodeAt(d, i) <==> CodeAt(d[1..], i - 1));
      r + 1
  }

  lemma {:induction false} CodeIs(d: Bytes, r: nat)
    requires r <= |d|
    requires r < |d| ==> r + 3 < |d| && CodeAt(d, r)
    requires forall i: nat :: i < r && i + 3 < |d| ==> !CodeAt(d, i)
    ensures Code(d) == r
  {
    var c := Code(d);
    assert r < c && r < |d| ==> !CodeAt(d, r);
  }

  // ----- the zero-byte test

  /** The word at an aligned address on a little-endian machine. */
  function Word(b0: bv8, b1: bv8, b2: bv8, b3: bv8): bv32 {
    (b0 as bv32) | ((b1 as bv32) << 8) | ((b2 as bv32) << 16) | ((b3 as bv32) << 24)
  }

  function WordAt(d: Bytes, p: nat): bv32
    requires p + 3 < |d|
  {
    Word(d[p] as bv8, d[p + 1] as bv8, d[p + 2] as bv8, d[p + 3] as bv8)
  }

  function ZeroMask(x: bv32): bv32 {
    (x - 0x01010101) & !x & 0x80808080
  }

  lemma ZeroMaskDetects(b0: bv8, b1: bv8, b2: bv8, b3: bv8)
    ensures ZeroMask(Word(b0, b1, b2, b3)) != 0 <==> b0 == 0 || b1 == 0 || b2 == 0 || b3 == 0
  {
  }

  lemma ZeroByte(b: byte)
    ensures (b as bv8) == 0 <==> b == 0
  {
  }

  /** The test on a word of the data sees exactly whether one of its four bytes is zero. */
  lemma ZeroMaskAt(d: Bytes, p: nat)
    requires p + 3 < |d|
    ensures ZeroMask(WordAt(d, p)) != 0 <==> d[p] == 0 || d[p + 1] == 0 || d[p + 2] == 0 || d[p + 3] == 0
  {
    ZeroBytes(d[p], d[p + 1], d[p + 2], d[p + 3], d[p] as bv8, d[p + 1] as bv8, d[p + 2] as bv8, d[p + 3] as bv8);
  }

  lemma ZeroBytes(c0: byte, c1: byte, c2: byte, c3: byte, b0: bv8, b1: bv8, b2: bv8, b3: bv8)
    requires b0 == c0 as bv8 && b1 == c1 as bv8 && b2 == c2 as bv8 && b3 == c3 as bv8
    ensures ZeroMask(Word(b0, b1, b2, b3)) != 0 <==> c0 == 0 || c1 == 0 || c2 == 0 || c3 == 0
  {
    ZeroByte(c0);
    ZeroByte(c1);
    ZeroByte(c2);
    ZeroByte(c3);
    ZeroMaskDetects(b0, b1, b2, b3);
  }

  /** No start code begins in a word without a zero byte, or in one on which the four tests fail. */
  lemma NothingInWord(d: Bytes, p: nat)
    requires p + 6 < |d|
    requires d[p] == 0 || d[p + 1] == 0 || d[p + 2] == 0 || d[p + 3] == 0 ==>
      && (d[p + 1] == 0 ==> !(d[p] == 0 && d[p + 2] == 1) && !(d[p + 2] == 0 && d[p + 3] == 1))
      && (d[p + 3] == 0 ==> !(d[p + 2] == 0 && d[p + 4] == 1) && !(d[p + 4] == 0 && d[p + 5] == 1))
    ensures forall i: nat :: p <= i < p + 4 ==> !CodeAt(d, i)
  {
  }

  method WordHasZeroByte(d: Bytes, p: nat) returns (hit: bool)
    requires p + 3 < |d|
    ensures hit <==> d[p] == 0 || d[p + 1] == 0 || d[p + 2] == 0 || d[p + 3] == 0
  {
    var x := WordAt(d, p);
    hit := ZeroMask(x) != 0;
    ZeroMaskAt(d, p);
  }

  // ----- the search

  /** ff_avc_find_startcode_internal on the data from p to its end, where `base` is the address of
      the first byte: byte steps up to an aligned address, word steps, then byte steps. */
  method FindStartcodeInternal(d: Bytes, base: nat, p0: nat) returns (r: nat)
    requires p0 <= |d|
    ensures p0 <= r <= |d|
    ensures r < |d| ==> r + 3 < |d| && CodeAt(d, r)
    ensures forall i: nat :: p0 <= i < r && i + 3 < |d| ==> !CodeAt(d, i)
  {
    var p := p0;
    var a := p + 4 - (base + p) % 4;
    var end := |d| - 3;
    while p < a && p < end
      invariant p0 <= p <= |d|
      invariant forall i: nat :: p0 <= i < p ==> !CodeAt(d, i)
    {
      if d[p] == 0 && d[p + 1] == 0 && d[p + 2] == 1 {
        return p;
      }
      p := p + 1;
    }
    end := end - 3;
    while p < end
      invariant p0 <= p <= |d|
      invariant end == |d| - 6
      invariant forall i: nat :: p0 <= i < p ==> !CodeAt(d, i)
    {
      var hit := WordHasZeroByte(d, p);
      if hit {
        if d[p + 1] == 0 {
          if d[p] == 0 && d[p + 2] == 1 {
            return p;
          }
          if d[p + 2] == 0 && d[p + 3] == 1 {
            return p + 1;
          }
        }
        if d[p + 3] == 0 {
          if d[p + 2] == 0 && d[p + 4] == 1 {
            return p + 2;
          }
          if d[p + 4] == 0 && d[p + 5] == 1 {
            return p + 3;
          }
        }
      }
      NothingInWord(d, p);
      p := p + 4;
    }
    end := end + 3;
    while p < end
      invariant p0 <= p <= |d|
      invariant end == |d| - 3
      invariant forall i: nat :: p0 <= i < p ==> !CodeAt(d, i)
    {
      if d[p] == 0 && d[p + 1] == 0 && d[p + 2] == 1 {
        return p;
      }
      p := p + 1;
    }
    return end + 3;
  }
}
