/** `IOVecBlock` (storage/volume.cc): a 4 KB block kept as four components of 1 KB that are allocated when
    they are first written, or as one component of 4 KB after it was read back from a volume. */
module IOVec {
  import opened Bytes

  type Component = seq<Byte>

  function Zeros(n: nat): (s: seq<Byte>)
    ensures |s| == n && forall i :: 0 <= i < n ==> s[i] == 0
  {
    seq(n, _ => 0)
  }

  /** A component that was never allocated counts as zeros: what `resize` makes of it, and what the volume
      writes for it. */
  function Pad(c: Component): Component
  {
    if |c| == 0 then Zeros(1024) else c
  }

  predicate IsWhole(data: seq<Component>)
  {
    |data| == 4 && |data[0]| == 4096 && |data[1]| == 0 && |data[2]| == 0 && |data[3]| == 0
  }

  /** The first `n` components are allocated. */
  predicate IsScattered(data: seq<Component>, n: nat)
  {
    |data| == 4 && n <= 4 && forall c :: 0 <= c < 4 ==> |data[c]| == if c < n then 1024 else 0
  }

  /** The block as one flat buffer. */
  function Flat(data: seq<Component>): seq<Byte>
    requires |data| == 4
  {
    if |data[0]| == 4096 then data[0] else Pad(data[0]) + Pad(data[1]) + Pad(data[2]) + Pad(data[3])
  }

  /** Byte `k` of a scattered block is in component k / 1024. */
  lemma FlatAt(data: seq<Component>, n: nat, c: nat, i: nat)
    requires IsScattered(data, n) && c < 4 && i < 1024
    ensures |Flat(data)| == 4096 && Flat(data)[1024 * c + i] == Pad(data[c])[i]
  {
  }

  lemma Split1024(k: nat)
    requires k <= 4096
    ensures k == 1024 * (k / 1024) + k % 1024 && k % 1024 < 1024 && (k / 1024 < 4 <==> k < 4096)
  {
  }

  /** Overwriting part of one component. */
  function Overwrite(s: seq<Byte>, at: nat, more: seq<Byte>): (r: seq<Byte>)
    requires at + |more| <= |s|
    ensures |r| == |s|
  {
    s[..at] + more + s[at + |more|..]
  }

  lemma FlatOverwrite(data: seq<Component>, n: nat, c: nat, i: nat, more: seq<Byte>)
    requires IsScattered(data, n) && c < n && i + |more| <= 1024
    ensures IsScattered(data[c := Overwrite(data[c], i, more)], n)
    ensures |Flat(data)| == 4096 && Flat(data[c := Overwrite(data[c], i, more)]) ==
            Overwrite(Flat(data), 1024 * c + i, more)
  {
    hide Flat;
    var data' := data[c := Overwrite(data[c], i, more)];
    FlatAt(data, n, 0, 0);
    FlatAt(data', n, 0, 0);
    forall k | 0 <= k < 4096
      ensures Flat(data')[k] == Overwrite(Flat(data), 1024 * c + i, more)[k]
    {
      Split1024(k);
      OverwriteAt(data, n, c, i, more, k / 1024, k % 1024);
    }
  }

  lemma OverwriteAt(data: seq<Component>, n: nat, c: nat, i: nat, more: seq<Byte>, c': nat, i': nat)
    requires IsScattered(data, n) && c < n && i + |more| <= 1024 && c' < 4 && i' < 1024 && |Flat(data)| == 4096
    ensures IsScattered(data[c := Overwrite(data[c], i, more)], n)
    ensures |Flat(data[c := Overwrite(data[c], i, more)])| == 4096
    ensures Flat(data[c := Overwrite(data[c], i, more)])[1024 * c' + i'] ==
            Overwrite(Flat(data), 1024 * c + i, more)[1024 * c' + i']
  {
    hide Flat;
    FlatAt(data[c := Overwrite(data[c], i, more)], n, c', i');
    FlatAt(data, n, c', i');
  }

  lemma FlatWhole(data: seq<Component>)
    ensures IsWhole(data) ==> Flat(data) == data[0] && |Flat(data)| == 4096
  {
  }

  lemma FlatLength(data: seq<Component>, n: nat)
    ensures IsScattered(data, n) ==> |Flat(data)| == 4096
  {
  }

  lemma TwoParts(s: seq<Byte>, i: nat, j: nat, k: nat)
    requires i <= j <= k <= |s|
    ensures s[i..k] == s[i..j] + s[j..k]
  {
  }

  /** Allocating the next component changes no byte. */
  lemma FlatAllocate(data: seq<Component>, n: nat)
    requires IsScattered(data, n) && n < 4
    ensures IsScattered(data[n := Zeros(1024)], n + 1) && Flat(data[n := Zeros(1024)]) == Flat(data)
  {
  }

  /** `put(u8)` as a value: the component at `pos` is allocated first if it does not exist. */
  function Placed(data: seq<Component>, pos: nat, val: Byte): seq<Component>
    requires |data| == 4 && pos < 4096 && |data[pos / 1024]| in {0, 1024}
  {
    var c := pos / 1024;
    data[c := Overwrite(if |data[c]| == 0 then Zeros(1024) else data[c], pos % 1024, [val])]
  }

  /** A block being written: `bytes` were put behind the first `start` bytes. */
  ghost predicate Holds(data: seq<Component>, n: nat, start: nat, bytes: seq<Byte>)
  {
    && IsScattered(data, n) && start + |bytes| <= 1024 * n && |Flat(data)| == 4096
    && Flat(data)[start..start + |bytes|] == bytes
  }

  lemma PlacedFlat(data: seq<Component>, n: nat, pos: nat, val: Byte)
    requires IsScattered(data, n) && pos < 4096 && pos <= 1024 * n
    ensures pos / 1024 < 4 && |data[pos / 1024]| in {0, 1024} && |Flat(data)| == 4096
    ensures var n' := if pos / 1024 == n then n + 1 else n;
            && IsScattered(Placed(data, pos, val), n') && pos < 1024 * n'
            && Flat(Placed(data, pos, val)) == Overwrite(Flat(data), pos, [val])
  {
    hide Flat, Overwrite;
    Split1024(pos);
    var c, i := pos / 1024, pos % 1024;
    if c == n {
      FlatAllocate(data, n);
      FlatOverwrite(data[n := Zeros(1024)], n + 1, c, i, [val]);
      assert data[n := Zeros(1024)][c := Overwrite(Zeros(1024), i, [val])] ==
          data[c := Overwrite(Zeros(1024), i, [val])];
    } else {
      FlatOverwrite(data, n, c, i, [val]);
    }
    FlatLength(data, n);
  }

  lemma HoldsMore(data: seq<Component>, n: nat, start: nat, bytes: seq<Byte>, val: Byte)
    requires Holds(data, n, start, bytes) && start + |bytes| < 4096
    ensures |data| == 4 && (start + |bytes|) / 1024 < 4 && |data[(start + |bytes|) / 1024]| in {0, 1024}
    ensures Holds(Placed(data, start + |bytes|, val), if (start + |bytes|) / 1024 == n then n + 1
                  else n, start, bytes + [val])
  {
    hide Flat, Placed;
    var pos := start + |bytes|;
    PlacedFlat(data, n, pos, val);
    PlacedBehind(Flat(data), start, pos, val);
  }

  lemma PlacedBehind(flat: seq<Byte>, start: nat, pos: nat, val: Byte)
    requires start <= pos < |flat|
    ensures Overwrite(flat, pos, [val])[start..pos + 1] == flat[start..pos] + [val]
  {
  }

  lemma HoldsLess(data: seq<Component>, n: nat, start: nat, bytes: seq<Byte>, k: nat)
    requires Holds(data, n, start, bytes) && k <= |bytes|
    ensures Holds(data, n, start, bytes[..k])
  {
    hide Flat;
    assert Flat(data)[start..start + k] == Flat(data)[start..start + |bytes|][..k];
  }

  /** Writing at the write position appends to the contents. */
  lemma Appended(flat: seq<Byte>, pos: nat, more: seq<Byte>)
    requires pos + |more| <= |flat|
    ensures Overwrite(flat, pos, more)[..pos + |more|] == flat[..pos] + more
  {
  }

  class IOVecBlock {
    var data: seq<Component>
    var pos: nat
    /** The number of allocated components of a scattered block. */
    ghost var n: nat

    /** A block being written: the write position is inside or just behind the allocated components. */
    ghost predicate Writable()
      reads this
    {
      IsScattered(data, n) && pos <= 1024 * n
    }

    ghost predicate Valid()
      reads this
    {
      (IsWhole(data) && pos <= 4096) || Writable()
    }

    /** What has been written so far. */
    ghost function Contents(): seq<Byte>
      reads this
      requires Valid()
    {
      Flat(data)[..pos]
    }

    constructor ()
      ensures Writable() && pos == 0 && Contents() == []
    {
      data, pos, n := [[], [], [], []], 0, 0;
    }

    /** `IOVecBlock(bool)` filled by `Volume::read_block`. */
    constructor Load(bytes: seq<Byte>)
      requires |bytes| == 4096
      ensures Valid() && IsWhole(data) && data == Loaded(bytes) && pos == 4096
    {
      data, pos, n := Loaded(bytes), 4096, 0;
    }

    function SpaceLeft(): int
      reads this
    {
      4096 - pos
    }

    /** The component at the write position exists. */
    method Ensure()
      requires Writable() && pos < 4096
      modifies `data, `n
      ensures Writable() && pos / 1024 < n && Contents() == old(Contents()) && Flat(data) == old(Flat(data))
    {
      Split1024(pos);
      var c := pos / 1024;
      if |data[c]| == 0 {
        FlatAllocate(data, n);
        data := data[c := Zeros(1024)];
        n := n + 1;
      }
    }

    /** `put(u8)`. */
    method Put(val: Byte)
      requires Writable() && pos < 4096
      modifies this
      ensures Writable() && Contents() == old(Contents()) + [val] && pos == old(pos) + 1
    {
      hide Flat, Placed, Overwrite;
      PlacedFlat(data, n, pos, val);
      Appended(Flat(data), pos, [val]);
      data := Placed(data, pos, val);
      n := if pos / 1024 == n then n + 1 else n;
      pos := pos + 1;
    }

    /** `safe_put`: refused exactly when the block is full. */
    method SafePut(val: Byte) returns (ok: bool)
      requires Writable()
      modifies this
      ensures Writable() && (ok <==> old(SpaceLeft()) > 0)
      ensures Contents() == old(Contents()) + if ok then [val] else []
    {
      Split1024(pos);
      if pos / 1024 >= 4 {
        return false;
      }
      Put(val);
      return true;
    }

    /** `get`: from either layout. */
    method Get(offset: nat) returns (val: Byte)
      requires Valid() && offset < pos
      ensures val == Contents()[offset]
    {
      if |data[0]| == 4096 {
        val := data[0][offset];
      } else {
        Split1024(offset);
        FlatAt(data, n, offset / 1024, offset % 1024);
        val := data[offset / 1024][offset % 1024];
      }
    }

    /** `allocate`: reserves bytes at the write position, but never across components. */
    method Allocate(size: nat) returns (ok: bool)
      requires Writable()
      modifies this
      ensures Writable() && (ok <==> old(pos) < 4096 && old(pos) % 1024 + size <= 1024)
      ensures ok ==> pos == old(pos) + size && Contents()[..old(pos)] == old(Contents())
      ensures !ok ==> pos == old(pos) && Contents() == old(Contents())
    {
      Split1024(pos);
      if pos / 1024 >= 4 {
        return false;
      }
      Ensure();
      if 1024 - pos % 1024 < size {
        return false;
      }
      pos := pos + size;
      return true;
    }

    /** `append_chunk`: up to 1 KB, written into one or two components. A scattered block refuses a chunk
        that would fill it to the last byte. */
    method AppendChunk(source: seq<Byte>) returns (newPos: nat)
      requires Writable() && 0 < |source| <= 1024
      modifies this
      ensures Writable() && (newPos != 0 <==> old(pos) + |source| < 4096)
      ensures newPos != 0 ==> newPos == pos < 1024 * n
      ensures if newPos != 0 then newPos == old(pos) + |source| &&
              Contents() == old(Contents()) + source else Contents() == old(Contents())
    {
      hide Flat;
      Split1024(pos);
      var ixbegin, offbegin, end := pos / 1024, pos % 1024, pos + |source|;
      var ixend := end / 1024;
      if ixbegin >= 4 || ixend >= 4 {
        return 0;
      }
      Ensure();
      if ixbegin == ixend {
        WriteInto(ixbegin, offbegin, source);
      } else {
        var l1 := 1024 - offbegin;
        assert source == source[..l1] + source[l1..];
        WriteInto(ixbegin, offbegin, source[..l1]);
        Ensure();
        WriteInto(ixend, 0, source[l1..]);
      }
      Split1024(end);
      newPos := pos;
    }

    /** `memcpy` into one allocated component at the write position. */
    method WriteInto(c: nat, i: nat, more: seq<Byte>)
      requires Writable() && c < n && pos == 1024 * c + i && i + |more| <= 1024
      modifies this
      ensures Writable() && Contents() == old(Contents()) + more && pos == old(pos) + |more| && n == old(n)
    {
      FlatOverwrite(data, n, c, i, more);
      Appended(Flat(data), pos, more);
      data := data[c := Overwrite(data[c], i, more)];
      pos := pos + |more|;
    }

    /** `read_chunk`. A chunk of a scattered block may span two components; it must not end with the block.
        One that ends with the last allocated component is reported as missing. */
    method ReadChunk(offset: nat, size: nat) returns (count: nat, dest: seq<Byte>)
      requires Valid() && 0 < size <= 1024 && offset + size <= pos && (IsWhole(data) || offset + size < 4096)
      ensures count == if !IsWhole(data) && offset + size == 1024 * n then 0 else size
      ensures count == size ==> dest == Contents()[offset..offset + size]
    {
      hide Flat;
      FlatWhole(data);
      FlatLength(data, n);
      assert Contents()[offset..offset + size] == Flat(data)[offset..offset + size];
      if |data[0]| == 4096 {
        return size, data[0][offset..offset + size];
      }
      count, dest := ReadScattered(offset, size);
    }

    method ReadScattered(offset: nat, size: nat) returns (count: nat, dest: seq<Byte>)
      requires Writable() && 0 < size <= 1024 && offset + size <= pos && offset + size < 4096 && |Flat(data)| == 4096
      ensures count == if offset + size == 1024 * n then 0 else size
      ensures count == size ==> dest == Flat(data)[offset..offset + size]
    {
      hide Flat, IsScattered;
      Split1024(offset);
      Split1024(offset + size);
      var ixbegin, offbegin, ixend := offset / 1024, offset % 1024, (offset + size) / 1024;
      ComponentSizes(data, n, ixbegin);
      if ixbegin == ixend {
        SliceOf(data, n, ixbegin, offbegin, size);
        dest := data[ixbegin][offbegin..offbegin + size];
      } else {
        var l1 := 1024 - offbegin;
        dest := data[ixbegin][offbegin..offbegin + l1];
        ComponentSizes(data, n, ixend);
        if |data[ixend]| == 0 {
          return 0, dest;
        }
        TwoSlices(data, n, ixbegin, offbegin, size - l1);
        dest := dest + data[ixend][0..size - l1];
      }
      count := size;
    }

    /** `copy_from`: a block read back from a volume is cut into four components again; of a scattered block
        the components up to the first unallocated one are copied. */
    method CopyFrom(other: IOVecBlock)
      requires other != this && other.Valid() && Writable()
      modifies this
      ensures Writable() && pos == old(pos)
      ensures IsWhole(other.data) ==> n == 4 && Flat(data) == Flat(other.data)
      ensures !IsWhole(other.data) ==> n == if old(n) < other.n then other.n else old(n)
      ensures !IsWhole(other.data) ==> forall c :: 0 <= c < 4 ==>
              data[c] == if c < other.n then other.data[c] else old(data[c])
      ensures !IsWhole(other.data) && old(n) <= other.n ==> Flat(data) == Flat(other.data)
    {
      if |other.data[0]| == 4096 {
        CutUp(other.data[0]);
      } else {
        CopyComponents(other.data, other.n);
      }
    }

    method CutUp(whole: Component)
      requires Writable() && |whole| == 4096
      modifies this
      ensures Writable() && pos == old(pos) && n == 4 && Flat(data) == whole
    {
      for i := 0 to 4
        invariant IsScattered(data, n) && n >= i && pos == old(pos) && n >= old(n)
        invariant forall c {:trigger data[c]} :: 0 <= c < i ==> data[c] == whole[1024 * c..1024 * c + 1024]
      {
        data := data[i := whole[1024 * i..1024 * i + 1024]];
        n := if n == i then n + 1 else n;
      }
    }

    method CopyComponents(source: seq<Component>, ghost m: nat)
      requires Writable() && IsScattered(source, m)
      modifies this
      ensures Writable() && pos == old(pos) && n == if old(n) < m then m else old(n)
      ensures forall c :: 0 <= c < 4 ==> data[c] == if c < m then source[c] else old(data[c])
      ensures old(n) <= m ==> Flat(data) == Flat(source)
    {
      for i := 0 to 4
        invariant i <= m && pos == old(pos) && |data| == 4 && n == if old(n) < i then i else old(n)
        invariant forall c {:trigger data[c]} :: 0 <= c < 4 ==> data[c] == if c < i then source[c] else old(data[c])
      {
        if |source[i]| == 0 {
          break;
        }
        data := data[i := source[i]];
        n := if n == i then n + 1 else n;
      }
      assert old(n) <= m ==> forall c :: 0 <= c < 4 ==> Pad(data[c]) == Pad(source[c]);
    }
  }

  lemma ComponentSizes(data: seq<Component>, n: nat, c: nat)
    requires IsScattered(data, n) && c < 4
    ensures |data| == 4 && n <= 4 && |data[c]| == if c < n then 1024 else 0
  {
  }

  lemma TwoSlices(data: seq<Component>, n: nat, c: nat, i: nat, more: nat)
    requires IsScattered(data, n) && c + 1 < n && i <= 1024 && more <= 1024
    ensures |Flat(data)| == 4096 && Flat(data)[1024 * c + i..1024 * c + 1024 + more] ==
            data[c][i..1024] + data[c + 1][0..more]
  {
    hide Flat;
    SliceOf(data, n, c, i, 1024 - i);
    SliceOf(data, n, c + 1, 0, more);
    TwoParts(Flat(data), 1024 * c + i, 1024 * c + 1024, 1024 * c + 1024 + more);
  }

  lemma SliceOf(data: seq<Component>, n: nat, c: nat, i: nat, size: nat)
    requires IsScattered(data, n) && c < n && i + size <= 1024
    ensures |Flat(data)| == 4096 && Flat(data)[1024 * c + i..1024 * c + i + size] == data[c][i..i + size]
  {
    hide Flat;
    FlatLength(data, n);
    var a, b := Flat(data)[1024 * c + i..1024 * c + i + size], data[c][i..i + size];
    forall k | 0 <= k < size
      ensures a[k] == b[k]
    {
      FlatAt(data, n, c, i + k);
    }
  }

  // ---- A volume ------------------------------------------------------------------------------------

  /** `Volume::append_block(const IOVecBlock*)`: the first kilobyte of every component, zeros for a missing one. */
  function Stored(data: seq<Component>): seq<Byte>
    requires |data| == 4 && forall c :: 0 <= c < 4 ==> |data[c]| == 0 || |data[c]| >= 1024
  {
    Pad(data[0])[..1024] + Pad(data[1])[..1024] + Pad(data[2])[..1024] + Pad(data[3])[..1024]
  }

  /** `Volume::read_block`: one component of 4 KB. */
  function Loaded(bytes: seq<Byte>): seq<Component>
  {
    [bytes, [], [], []]
  }

  /** A scattered block that is stored and read back holds the same 4096 bytes. */
  lemma StoreRoundTrip(data: seq<Component>, n: nat)
    requires IsScattered(data, n)
    ensures IsWhole(Loaded(Stored(data))) && Flat(Loaded(Stored(data))) == Flat(data)
  {
    assert forall c :: 0 <= c < 4 ==> Pad(data[c])[..1024] == Pad(data[c]);
  }

  /** Storing a block that was read back keeps only its first kilobyte. */
  lemma StoreWhole(data: seq<Component>)
    requires IsWhole(data)
    ensures Stored(data) == Flat(data) <==> forall k :: 1024 <= k < 4096 ==> data[0][k] == 0
  {
    var s := Stored(data);
    assert |s| == 4096 && s[..1024] == data[0][..1024];
    assert forall k :: 1024 <= k < 4096 ==> s[k] == 0;
    if forall k :: 1024 <= k < 4096 ==> data[0][k] == 0 {
      forall k | 0 <= k < 4096
        ensures s[k] == data[0][k]
      {
        assert k < 1024 ==> s[k] == s[..1024][k] == data[0][..1024][k];
      }
    }
    if s == data[0] {
      assert forall k :: 1024 <= k < 4096 ==> data[0][k] == s[k];
    }
  }

  /** Such a block: one byte behind the first kilobyte, and it is gone. */
  lemma StoreWholeLoses()
    ensures var data: seq<Component> := [Zeros(4096)[2000 := 7], [], [], []];
            IsWhole(data) && Flat(data)[2000] == 7 && |Stored(data)| == 4096 && Stored(data)[2000] == 0
  {
  }

  /** A flat 4 KB buffer takes a chunk whenever it fits. */
  predicate FlatAccepts(pos: nat, size: nat)
  {
    pos + size <= 4096
  }

  predicate ScatteredAccepts(pos: nat, size: nat)
  {
    pos / 1024 < 4 && (pos + size) / 1024 < 4
  }

  /** The scattered block decides like a flat one except for a chunk that ends exactly with the block. */
  lemma AcceptsLikeFlat(pos: nat, size: nat)
    requires pos <= 4096 && 0 < size
    ensures FlatAccepts(pos, size) == ScatteredAccepts(pos, size) <==> pos + size != 4096
  {
  }

  /** The last byte of a block: a flat buffer takes it, the scattered block refuses it. */
  lemma LastByteIsRefused()
    ensures FlatAccepts(4095, 1) && !ScatteredAccepts(4095, 1)
  {
  }

  /** A chunk, also one across a component boundary, reads back the same from the block it was appended to
      and from the block that a volume returns for it. */
  method AppendAndRead(block: IOVecBlock, chunk: seq<Byte>) returns (before: seq<Byte>, after: seq<Byte>)
    requires block.Writable() && 0 < |chunk| <= 1024 && block.pos + |chunk| < 4096
    modifies block
    ensures before == chunk == after
  {
    hide Flat;
    var at := block.pos;
    var newPos := block.AppendChunk(chunk);
    var count;
    FlatLength(block.data, block.n);
    count, before := block.ReadChunk(at, |chunk|);
    StoreRoundTrip(block.data, block.n);
    FlatWhole(Loaded(Stored(block.data)));
    var read := new IOVecBlock.Load(Stored(block.data));
    count, after := read.ReadChunk(at, |chunk|);
    assert read.Contents()[at..at + |chunk|] == Flat(block.data)[at..at + |chunk|] ==
        block.Contents()[at..at + |chunk|];
  }
}
