/** One settings item: a single allocation that holds, behind the header and the name, the user
    value, the default and the autoselect value packed one after the other. */
module DataItem {
  import opened Octets

  /** What an item stands for; an empty value is an absent one. */
  datatype Value = Value(user: Bytes, default: Bytes, autoselect: Bytes) {
    /** The value a getter sees. */
    function Effective(): Bytes {
      if user != [] then user else if default != [] then default else autoselect
    }
  }

  /** get_align_size: round up to a multiple of the alignment by clearing the low bits of
      size + alignment - 1, that is, by subtracting its remainder. */
  function AlignSize(size: nat, alignment: nat): (r: nat)
    requires alignment > 0
  {
    var n := size + alignment - 1;
    n - n % alignment
  }

  /** Any rounding that keeps zero and never shrinks a size will do for the item. */
  ghost predicate Aligner(align: nat -> nat) {
    align(0) == 0 && forall n: nat :: align(n) >= n
  }

  /** The result is the least multiple of the alignment that is not below the size. */
  lemma AlignSizeRoundsUp(alignment: nat)
    requires alignment > 0
    ensures forall n: nat ::
      AlignSize(n, alignment) % alignment == 0 && n <= AlignSize(n, alignment) < n + alignment
    ensures Aligner((n: nat) => if alignment > 0 then AlignSize(n, alignment) else n)
  {
    forall n: nat
      ensures AlignSize(n, alignment) % alignment == 0 && n <= AlignSize(n, alignment) < n + alignment
    {
      MultipleBelow(n + alignment - 1, alignment);
    }
    assert (alignment - 1) % alignment == alignment - 1;
  }

  lemma MultipleBelow(n: nat, a: nat)
    requires a > 0
    ensures (n - n % a) % a == 0
  {
    var m := n - n % a;
    var k := n / a - m / a;
    assert a * k == m % a;
    ProductSize(a, k);
    ProductSize(a, -k);
  }

  lemma ProductSize(a: nat, k: int)
    ensures k >= 1 ==> a * k >= a
  {
    if k >= 1 {
      assert a * k == a * (k - 1) + a;
    }
  }

  /** The five lengths that say where the sections are. */
  datatype Layout = Layout(dataLen: nat, dataSize: nat, defaultLen: nat, defaultSize: nat, autoselectSize: nat) {
    function WithUser(size: nat, align: nat -> nat): Layout {
      this.(dataSize := size,
            dataLen := if defaultSize > 0 || autoselectSize > 0 then align(size) else size)
    }

    function WithDefault(size: nat, align: nat -> nat): Layout {
      this.(defaultSize := size,
            defaultLen := if autoselectSize > 0 then align(size) else size,
            dataLen := if dataSize > 0 then align(dataSize) else 0)
    }

    function WithAutoselect(size: nat, align: nat -> nat): Layout {
      this.(autoselectSize := size,
            dataLen := if dataSize > 0 then align(dataSize) else 0,
            defaultLen := if defaultSize > 0 then align(defaultSize) else 0)
    }

    /** Each section is at least as long as its value, and padded whenever something follows it. */
    ghost predicate Valid(align: nat -> nat) {
      && Fits()
      && (defaultSize > 0 || autoselectSize > 0 ==> dataLen == align(dataSize))
      && (autoselectSize > 0 ==> defaultLen == align(defaultSize))
    }

    ghost predicate Fits() {
      && dataSize <= dataLen && (dataSize == 0 ==> dataLen == 0)
      && defaultSize <= defaultLen && (defaultSize == 0 ==> defaultLen == 0)
    }
  }

  /** Recomputing lengths keeps the sections in place; while the default or the autoselect value is
      there, the sections in front of it do not change their length. */
  lemma LayoutKept(l: Layout, size: nat, align: nat -> nat)
    requires Aligner(align) && l.Valid(align)
    ensures l.WithUser(size, align).Valid(align)
    ensures l.WithDefault(size, align).Valid(align)
    ensures l.WithAutoselect(size, align).Valid(align)
    ensures l.autoselectSize > 0 || l.defaultSize > 0 ==> l.WithDefault(size, align).dataLen == l.dataLen
    ensures l.defaultSize > 0 ==> l.WithAutoselect(size, align).dataLen == l.dataLen
  {
  }

  lemma LayoutWithout(l: Layout, align: nat -> nat)
    requires Aligner(align) && l.Valid(align)
    ensures l.(dataLen := 0, dataSize := 0).Valid(align)
    ensures l.(defaultLen := 0, defaultSize := 0).Valid(align)
    ensures l.(autoselectSize := 0).Valid(align)
  {
  }

  class Item {
    const align: nat -> nat         // get_align_size
    const headerSize: nat           // the struct and the name
    var mem: array<byte>            // the allocation behind them
    var capacity: nat
    var dataLen: nat
    var dataSize: nat
    var defaultLen: nat
    var defaultSize: nat
    var autoselectSize: nat
    ghost var view: Value           // the record the item stands for

    function TotalSize(): nat
      reads this`dataLen, this`defaultLen, this`autoselectSize
    {
      headerSize + dataLen + defaultLen + autoselectSize
    }

    ghost function Shape(): Layout
      reads this`dataLen, this`dataSize, this`defaultLen, this`defaultSize, this`autoselectSize
    {
      Layout(dataLen, dataSize, defaultLen, defaultSize, autoselectSize)
    }

    /** The bytes of a value lie at a position of the allocation. */
    ghost predicate At(pos: nat, v: Bytes)
      reads this`mem, mem
    {
      pos + |v| <= mem.Length && forall i :: 0 <= i < |v| ==> mem[pos + i] == v[i]
    }

    ghost predicate Sized()
      reads this`mem, this`capacity
      reads this`dataLen, this`dataSize, this`defaultLen, this`defaultSize, this`autoselectSize
    {
      && Aligner(align)
      && capacity == headerSize + mem.Length
      && TotalSize() <= capacity
      && Shape().Valid(align)
    }

    /** The sections fit in the allocation and hold the three values of the record. */
    ghost predicate Valid()
      reads this, mem
    {
      && Sized()
      && dataSize == |view.user| && At(0, view.user)
      && defaultSize == |view.default| && At(dataLen, view.default)
      && autoselectSize == |view.autoselect| && At(dataLen + defaultLen, view.autoselect)
    }

    /** obs_data_item_create with a user value. */
    constructor (align: nat -> nat, headerSize: nat, data: Bytes)
      requires Aligner(align)
      ensures Valid() && fresh(mem) && view == Value(data, [], [])
    {
      this.align, this.headerSize := align, headerSize;
      mem := new byte[|data|](i requires 0 <= i < |data| => data[i]);
      capacity := headerSize + |data|;
      dataLen, dataSize := |data|, |data|;
      defaultLen, defaultSize, autoselectSize := 0, 0, 0;
      view := Value(data, [], []);
    }

    constructor WithDefault(align: nat -> nat, headerSize: nat, data: Bytes)
      requires Aligner(align)
      ensures Valid() && fresh(mem) && view == Value([], data, [])
    {
      this.align, this.headerSize := align, headerSize;
      mem := new byte[|data|](i requires 0 <= i < |data| => data[i]);
      capacity := headerSize + |data|;
      defaultLen, defaultSize := |data|, |data|;
      dataLen, dataSize, autoselectSize := 0, 0, 0;
      view := Value([], data, []);
    }

    constructor WithAutoselect(align: nat -> nat, headerSize: nat, data: Bytes)
      requires Aligner(align)
      ensures Valid() && fresh(mem) && view == Value([], [], data)
    {
      this.align, this.headerSize := align, headerSize;
      mem := new byte[|data|](i requires 0 <= i < |data| => data[i]);
      capacity := headerSize + |data|;
      autoselectSize := |data|;
      dataLen, dataSize, defaultLen, defaultSize := 0, 0, 0, 0;
      view := Value([], [], data);
    }

    /** obs_data_item_ensure_capacity: a reallocation keeps the old bytes. */
    method EnsureCapacity()
      requires capacity == headerSize + mem.Length
      modifies this`mem, this`capacity
      ensures capacity == headerSize + mem.Length && TotalSize() <= capacity
      ensures mem == old(mem) || fresh(mem)
      ensures old(mem.Length) <= mem.Length
      ensures forall i :: 0 <= i < old(mem.Length) ==> mem[i] == old(mem[i])
    {
      var newSize := TotalSize();
      if capacity >= newSize {
        return;
      }
      var m := new byte[newSize - headerSize](i requires 0 <= i < newSize - headerSize reads this, mem =>
        if i < mem.Length then mem[i] else 0);
      mem, capacity := m, newSize;
    }

    /** memmove inside the allocation; the ranges may overlap. */
    method MemMove(dst: nat, src: nat, len: nat)
      requires dst + len <= mem.Length && src + len <= mem.Length
      modifies mem
      ensures forall i :: 0 <= i < mem.Length ==>
        mem[i] == if dst <= i < dst + len then old(mem[i - dst + src]) else old(mem[i])
    {
      forall i | dst <= i < dst + len {
        mem[i] := mem[i - dst + src];
      }
    }

    method MemCopy(dst: nat, data: Bytes)
      requires dst + |data| <= mem.Length
      modifies mem
      ensures forall i :: 0 <= i < mem.Length ==>
        mem[i] == if dst <= i < dst + |data| then data[i - dst] else old(mem[i])
    {
      forall i | dst <= i < dst + |data| {
        mem[i] := data[i - dst];
      }
    }

    /** Copying a value in leaves two values that lie elsewhere in place. */
    method Store(dst: nat, data: Bytes, ghost p: nat, ghost v: Bytes, ghost q: nat, ghost w: Bytes)
      requires dst + |data| <= mem.Length && At(p, v) && At(q, w)
      requires p + |v| <= dst || dst + |data| <= p
      requires q + |w| <= dst || dst + |data| <= q
      modifies mem
      ensures At(dst, data) && At(p, v) && At(q, w)
    {
      MemCopy(dst, data);
    }

    /** Grow to the new total size, then move a block to its new place: a value in front of that place
        stays where it is, and two values inside the block move with it. */
    method Relocate(to: nat, from: nat, n: nat, ghost kept: Bytes,
                    ghost p: nat, ghost v: Bytes, ghost q: nat, ghost w: Bytes)
      requires capacity == headerSize + mem.Length
      requires from + n <= mem.Length && headerSize + to + n <= TotalSize()
      requires At(0, kept) && |kept| <= to
      requires At(p, v) && from <= p && p + |v| <= from + n
      requires At(q, w) && from <= q && q + |w| <= from + n
      modifies this`mem, this`capacity, mem
      ensures capacity == headerSize + mem.Length && TotalSize() <= capacity
      ensures mem == old(mem) || fresh(mem)
      ensures At(0, kept) && At(p - from + to, v) && At(q - from + to, w)
    {
      EnsureCapacity();
      if n > 0 {
        MemMove(to, from, n);
      }
    }

    method ResizeUser(size: nat)
      requires Sized()
      modifies this`dataSize, this`dataLen
      ensures dataSize == size && Shape().Valid(align)
    {
      LayoutKept(Shape(), size, align);
      dataSize := size;
      dataLen := if defaultSize > 0 || autoselectSize > 0 then align(size) else size;
      assert Shape() == old(Shape()).WithUser(size, align);
    }

    /** The first half of obs_data_item_setdata: grow, then move everything behind the user value. */
    method ReserveUser(size: nat)
      requires Valid()
      modifies this`dataSize, this`dataLen, this`mem, this`capacity, mem
      ensures Sized() && dataSize == size && (mem == old(mem) || fresh(mem))
      ensures At(dataLen, view.default) && At(dataLen + defaultLen, view.autoselect)
    {
      var oldDefaultPos := dataLen;
      ResizeUser(size);
      Relocate(dataLen, oldDefaultPos, defaultLen + autoselectSize, [],
               oldDefaultPos, view.default, oldDefaultPos + defaultLen, view.autoselect);
    }

    /** obs_data_item_setdata */
    method SetData(data: Bytes)
      requires Valid()
      modifies this, mem
      ensures Valid() && (mem == old(mem) || fresh(mem))
      ensures view == old(view).(user := data)
    {
      ReserveUser(|data|);
      Store(0, data, dataLen, view.default, dataLen + defaultLen, view.autoselect);
      view := view.(user := data);
    }

    method ResizeDefault(size: nat)
      requires Sized()
      modifies this`dataLen, this`defaultSize, this`defaultLen
      ensures defaultSize == size && Shape().Valid(align)
      ensures old(defaultSize) > 0 || autoselectSize > 0 ==> dataLen == old(dataLen)
    {
      LayoutKept(Shape(), size, align);
      defaultSize := size;
      defaultLen := if autoselectSize > 0 then align(size) else size;
      dataLen := if dataSize > 0 then align(dataSize) else 0;
      assert Shape() == old(Shape()).WithDefault(size, align);
    }

    /** The first half of obs_data_item_set_default_data: grow, then move the autoselect value. */
    method ReserveDefault(size: nat)
      requires Valid()
      modifies this`dataLen, this`defaultSize, this`defaultLen, this`mem, this`capacity, mem
      ensures Sized() && defaultSize == size && (mem == old(mem) || fresh(mem))
      ensures At(0, view.user) && At(dataLen + defaultLen, view.autoselect)
    {
      var oldAutoselect := dataLen + defaultLen;
      ResizeDefault(size);
      Relocate(dataLen + defaultLen, oldAutoselect, autoselectSize, view.user,
               oldAutoselect, view.autoselect, oldAutoselect, view.autoselect);
    }

    /** obs_data_item_set_default_data */
    method SetDefaultData(data: Bytes)
      requires Valid()
      modifies this, mem
      ensures Valid() && (mem == old(mem) || fresh(mem))
      ensures view == old(view).(default := data)
    {
      ReserveDefault(|data|);
      Store(dataLen, data, 0, view.user, dataLen + defaultLen, view.autoselect);
      view := view.(default := data);
    }

    /** The first half of obs_data_item_set_autoselect_data: grow; nothing has to move. */
    method ReserveAutoselect(size: nat)
      requires Valid()
      modifies this`dataLen, this`defaultLen, this`autoselectSize, this`mem, this`capacity
      ensures Sized() && autoselectSize == size && (mem == old(mem) || fresh(mem))
      ensures At(0, view.user) && At(dataLen, view.default)
    {
      LayoutKept(Shape(), size, align);
      autoselectSize := size;
      dataLen := if dataSize > 0 then align(dataSize) else 0;
      defaultLen := if defaultSize > 0 then align(defaultSize) else 0;
      assert Shape() == old(Shape()).WithAutoselect(size, align);
      EnsureCapacity();
    }

    /** obs_data_item_set_autoselect_data */
    method SetAutoselectData(data: Bytes)
      requires Valid()
      modifies this, mem
      ensures Valid() && (mem == old(mem) || fresh(mem))
      ensures view == old(view).(autoselect := data)
    {
      ReserveAutoselect(|data|);
      Store(dataLen + defaultLen, data, 0, view.user, dataLen, view.default);
      view := view.(autoselect := data);
    }

    /** obs_data_item_unset_user_value */
    method UnsetUserValue()
      requires Valid()
      modifies this`dataSize, this`dataLen, this`view, mem
      ensures Valid() && view == old(view).(user := [])
    {
      if dataSize == 0 {
        return;
      }
      LayoutWithout(Shape(), align);
      var oldNonUser := dataLen;
      dataSize, dataLen := 0, 0;
      if defaultSize > 0 || autoselectSize > 0 {
        MemMove(dataLen, oldNonUser, defaultLen + autoselectSize);
      }
      view := view.(user := []);
    }

    /** obs_data_item_unset_default_value */
    method UnsetDefaultValue()
      requires Valid()
      modifies this`defaultSize, this`defaultLen, this`view, mem
      ensures Valid() && view == old(view).(default := [])
    {
      if defaultSize == 0 {
        return;
      }
      LayoutWithout(Shape(), align);
      var oldAutoselect := dataLen + defaultLen;
      defaultSize, defaultLen := 0, 0;
      if autoselectSize > 0 {
        MemMove(dataLen + defaultLen, oldAutoselect, autoselectSize);
      }
      view := view.(default := []);
    }

    /** obs_data_item_unset_autoselect_value */
    method UnsetAutoselectValue()
      requires Valid()
      modifies this`autoselectSize, this`view
      ensures Valid() && view == old(view).(autoselect := [])
    {
      if autoselectSize == 0 {
        return;
      }
      autoselectSize := 0;
      view := view.(autoselect := []);
    }

    /** clear_item */
    method Clear()
      requires Valid()
      modifies this`dataSize, this`dataLen, this`view, mem
      ensures Valid() && view == old(view).(user := [])
    {
      if dataLen > 0 {
        LayoutWithout(Shape(), align);
        var size := defaultLen + autoselectSize;
        if size > 0 {
          MemMove(0, dataLen, size);
        }
        dataSize, dataLen := 0, 0;
        view := view.(user := []);
      }
    }

    /** get_item_data: no pointer for an item without any value, else the start of the packed
        sections, where the effective value lies. */
    method GetItemData() returns (found: bool, pos: nat)
      requires Valid()
      ensures found <==> view.Effective() != []
      ensures found ==> At(pos, view.Effective())
    {
      if dataSize == 0 && defaultSize == 0 && autoselectSize == 0 {
        return false, 0;
      }
      return true, 0;
    }

    /** get_item_default_data */
    method GetItemDefaultData() returns (found: bool, pos: nat)
      requires Valid()
      ensures found <==> view.default != []
      ensures found ==> At(pos, view.default)
    {
      return defaultSize > 0, dataLen;
    }

    /** get_item_autoselect_data */
    method GetItemAutoselectData() returns (found: bool, pos: nat)
      requires Valid()
      ensures found <==> view.autoselect != []
      ensures found ==> At(pos, view.autoselect)
    {
      return autoselectSize > 0, dataLen + defaultLen;
    }
  }
}
