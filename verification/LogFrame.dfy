/** The flexible frame of the input log (`MutableEntry`, storage/input_log.cc): blobs grow from the front of
    one buffer, 16-byte index entries from its end. */
module LogFrame {
  import opened Bytes

  const DATA_SIZE: nat := 8168

  const TWO_32: nat := 0x1_0000_0000

  datatype Entry = Entry(id: U64, blob: seq<Byte>)

  function Total(es: seq<Entry>): nat
  {
    if |es| == 0 then 0 else Total(es[..|es| - 1]) + |es[|es| - 1].blob|
  }

  lemma TotalSnoc(es: seq<Entry>, e: Entry)
    ensures Total(es + [e]) == Total(es) + |e.blob|
  {
    assert (es + [e])[..|es|] == es;
  }

  lemma {:induction false} TotalPrefix(es: seq<Entry>, i: nat)
    requires i < |es|
    ensures Total(es[..i]) + |es[i].blob| == Total(es[..i + 1]) <= Total(es)
    decreases |es|
  {
    TotalSnoc(es[..i], es[i]);
    assert es[..i + 1] == es[..i] + [es[i]];
    if i + 1 < |es| {
      TotalPrefix(es[..|es| - 1], i);
      assert es[..|es| - 1][..i + 1] == es[..i + 1] && es[..|es| - 1][..i] == es[..i];
    } else {
      assert es[..i + 1] == es;
    }
  }

  /** The index entry: id, length, offset. */
  function Index(e: Entry, off: nat): (s: seq<Byte>)
    ensures |s| == 16
  {
    LE(e.id, 8) + (LE(|e.blob|, 4) + LE(off, 4))
  }

  /** Where index entry `i` starts. */
  function IndexAt(i: nat): int
  {
    8168 - 16 * (i + 1)
  }

  predicate HasEntry(data: seq<Byte>, i: nat, e: Entry, off: nat)
  {
    && |data| == 8168 && off + |e.blob| <= 8168 && 0 <= IndexAt(i)
    && data[off..off + |e.blob|] == e.blob
    && data[IndexAt(i)..IndexAt(i) + 16] == Index(e, off)
  }

  /** The buffer holds these entries: the blobs end before the index starts. */
  predicate Holds(data: seq<Byte>, es: seq<Entry>)
  {
    && |data| == 8168 && Total(es) + 16 * |es| <= 8168
    && forall i :: 0 <= i < |es| ==> HasEntry(data, i, es[i], Total(es[..i]))
  }

  // ---- Reading an entry --------------------------------------------------------------------------

  function LenAt(data: seq<Byte>, i: nat): nat
    requires |data| == 8168 && 0 <= IndexAt(i)
  {
    FromLE(data[IndexAt(i) + 8..IndexAt(i) + 12])
  }

  function OffAt(data: seq<Byte>, i: nat): nat
    requires |data| == 8168 && 0 <= IndexAt(i)
  {
    FromLE(data[IndexAt(i) + 12..IndexAt(i) + 16])
  }

  function IdAt(data: seq<Byte>, i: nat): nat
    requires |data| == 8168 && 0 <= IndexAt(i)
  {
    FromLE(data[IndexAt(i)..IndexAt(i) + 8])
  }

  lemma IndexParts(e: Entry, off: nat)
    ensures Index(e, off)[0..8] == LE(e.id, 8) && Index(e, off)[8..12] == LE(|e.blob|, 4) &&
            Index(e, off)[12..16] == LE(off, 4)
  {
    hide LE;
  }

  /** The id comes first, then the length at byte 8 and the offset at byte 12, each with its least byte first. */
  lemma IndexPlaces(e: Entry, off: nat, i: nat)
    requires i < 16
    ensures Index(e, off)[i] == (if i < 8 then ShiftRight(e.id, i) else if i < 12 then ShiftRight(|e.blob|, i - 8)
                 else ShiftRight(off, i - 12)) % 256
  {
    hide LE, ShiftRight;
    if i < 8 {
      LEAt(e.id, 8, i);
    } else if i < 12 {
      LEAt(|e.blob|, 4, i - 8);
    } else {
      LEAt(off, 4, i - 12);
    }
  }

  lemma PartOf(data: seq<Byte>, at: nat, i: nat, j: nat)
    requires at + 16 <= |data| && i <= j <= 16
    ensures data[at..at + 16][i..j] == data[at + i..at + j]
  {
    var part := data[at..at + 16];
    forall k | i <= k < j
      ensures part[k] == data[at + k]
    {
    }
    assert part[i..j] == data[at + i..at + j];
  }

  lemma EntryReadsBack(data: seq<Byte>, i: nat, e: Entry, off: nat)
    requires HasEntry(data, i, e, off)
    ensures LenAt(data, i) == |e.blob| && OffAt(data, i) == off && IdAt(data, i) == e.id
  {
    hide LE, FromLE, Index;
    var at := IndexAt(i);
    var index := data[at..at + 16];
    IndexParts(e, off);
    PartOf(data, at, 0, 8);
    PartOf(data, at, 8, 12);
    PartOf(data, at, 12, 16);
    Pow256Of8();
    Pow256Of4();
    LERoundTrip(e.id, 8);
    LERoundTrip(|e.blob|, 4);
    LERoundTrip(off, 4);
  }

  lemma Pow256Of4()
    ensures Pow256(4) == TWO_32
  {
  }

  // ---- Appending ---------------------------------------------------------------------------------

  function Put(data: seq<Byte>, at: nat, s: seq<Byte>): (r: seq<Byte>)
    requires at + |s| <= |data|
    ensures |r| == |data|
  {
    data[..at] + s + data[at + |s|..]
  }

  lemma PutRead(data: seq<Byte>, at: nat, s: seq<Byte>)
    requires at + |s| <= |data|
    ensures Put(data, at, s)[at..at + |s|] == s
  {
  }

  lemma PutElsewhere(data: seq<Byte>, at: nat, s: seq<Byte>, i: nat, j: nat)
    requires at + |s| <= |data| && i <= j <= |data| && (j <= at || at + |s| <= i)
    ensures Put(data, at, s)[i..j] == data[i..j]
  {
  }

  lemma PutNothing(data: seq<Byte>, at: nat)
    requires at <= |data|
    ensures Put(data, at, []) == data
  {
  }

  lemma PutOneMore(data: seq<Byte>, at: nat, s: seq<Byte>, i: nat)
    requires at + |s| <= |data| && i < |s|
    ensures Put(data, at, s[..i])[at + i := s[i]] == Put(data, at, s[..i + 1])
  {
  }

  lemma PutTwice(data: seq<Byte>, at: nat, s: seq<Byte>, t: seq<Byte>)
    requires at + |s| + |t| <= |data|
    ensures Put(Put(data, at + |s|, t), at, s) == Put(data, at, s + t)
  {
  }

  /** What `append` writes as entry number `size`. */
  function Appended(data: seq<Byte>, size: nat, off: nat, e: Entry): (r: seq<Byte>)
    requires |data| == 8168 && off + |e.blob| <= 8168 && 0 <= IndexAt(size)
    ensures |r| == 8168
  {
    Put(Put(data, off, e.blob), IndexAt(size), Index(e, off))
  }

  /** Room for a blob after `used` bytes and for its index entry after `size` of them. */
  predicate Fits(used: nat, size: nat, len: nat)
  {
    used + len + 16 * (size + 1) <= 8168
  }

  lemma EntrySurvives(data: seq<Byte>, size: nat, off: nat, e: Entry, i: nat, e': Entry, off': nat)
    requires |data| == 8168 && Fits(off, size, |e.blob|) && i < size
    requires HasEntry(data, i, e', off') && off' + |e'.blob| <= off
    ensures HasEntry(Appended(data, size, off, e), i, e', off')
  {
    hide Index, Put;
    var d1 := Put(data, off, e.blob);
    PutElsewhere(data, off, e.blob, off', off' + |e'.blob|);
    PutElsewhere(data, off, e.blob, IndexAt(i), IndexAt(i) + 16);
    PutElsewhere(d1, IndexAt(size), Index(e, off), off', off' + |e'.blob|);
    PutElsewhere(d1, IndexAt(size), Index(e, off), IndexAt(i), IndexAt(i) + 16);
  }

  lemma NewEntry(data: seq<Byte>, size: nat, off: nat, e: Entry)
    requires |data| == 8168 && Fits(off, size, |e.blob|)
    ensures HasEntry(Appended(data, size, off, e), size, e, off)
  {
    hide Index, Put;
    var d1 := Put(data, off, e.blob);
    PutRead(data, off, e.blob);
    PutElsewhere(d1, IndexAt(size), Index(e, off), off, off + |e.blob|);
    PutRead(d1, IndexAt(size), Index(e, off));
  }

  /** Every earlier entry survives an append that fits. */
  lemma AppendedHolds(data: seq<Byte>, es: seq<Entry>, e: Entry)
    requires Holds(data, es) && Fits(Total(es), |es|, |e.blob|)
    ensures Holds(Appended(data, |es|, Total(es), e), es + [e])
  {
    TotalSnoc(es, e);
    hide HasEntry, Appended, Total;
    forall i | 0 <= i < |es + [e]|
      ensures HasEntry(Appended(data, |es|, Total(es), e), i, (es + [e])[i], Total((es + [e])[..i]))
    {
      AppendedAt(data, es, e, i);
    }
  }

  lemma AppendedAt(data: seq<Byte>, es: seq<Entry>, e: Entry, i: nat)
    requires Holds(data, es) && Fits(Total(es), |es|, |e.blob|) && i <= |es|
    ensures HasEntry(Appended(data, |es|, Total(es), e), i, (es + [e])[i], Total((es + [e])[..i]))
  {
    hide HasEntry, Appended, Total;
    assert (es + [e])[..i] == es[..i];
    if i < |es| {
      TotalPrefix(es, i);
      EntrySurvives(data, |es|, Total(es), e, i, es[i], Total(es[..i]));
    } else {
      assert es[..i] == es;
      NewEntry(data, |es|, Total(es), e);
    }
  }

  // ---- The guard ---------------------------------------------------------------------------------

  /** `get_space_and_offset`, second part: `used` is the end of the last blob. */
  function SpaceLeft(used: nat, size: nat): nat
  {
    if size == 0 then 8152
    else
      var spaceUsed := used + 16 * size + 16;
      if 8152 < spaceUsed then 0 else 8152 - spaceUsed
  }

  /** `can_write`. */
  predicate CanWrite(used: nat, size: nat, len: nat)
  {
    len <= SpaceLeft(used, size)
  }

  /** What the guard counts: the blobs, the new one, and 16 bytes for every entry, for the new one and for one more. An
      empty frame takes up to 8152 bytes, and an empty blob is always let through. */
  lemma GuardCount(used: nat, size: nat, len: nat)
    ensures CanWrite(used, size, len) <==>
            if size == 0 then len <= 8152 else len == 0 || used + len + 16 * (size + 2) <= 8168
  {
  }

  /** The guard lets through a blob that does not fit in one case only: an empty blob when not even an index
      entry is left. */
  lemma GuardExact(used: nat, size: nat, len: nat)
    requires size == 0 ==> used == 0
    ensures CanWrite(used, size, len) && !Fits(used, size, len) <==>
            len == 0 && size > 0 && used + 16 * (size + 1) > 8168
  {
  }

  /** Such an append destroys an entry. */
  lemma EmptyBlobDestroys(data: seq<Byte>)
    requires Holds(data, [Entry(1, seq(8152, _ => 255))])
    ensures CanWrite(8152, 1, 0) && !Fits(8152, 1, 0)
    ensures !Holds(Appended(data, 1, 8152, Entry(2, [])), [Entry(1, seq(8152, _ => 255))])
  {
    var first, e := Entry(1, seq(8152, _ => 255)), Entry(2, []);
    var data' := Appended(data, 1, 8152, e);
    var es := [first];
    PutRead(Put(data, 8152, []), 8136, Index(e, 8152));
    assert data'[8136] == data'[8136..8152][0] == Index(e, 8152)[0] == LE(2, 8)[0] == 2;
    assert data'[0..8152][8136] != first.blob[8136];
    assert es[..0] == [] && es[0] == first;
    assert !HasEntry(data', 0, es[0], Total(es[..0]));
  }

  /** `append_blob` flushes once fewer than this many bytes are left. */
  const SIZE_THRESHOLD: nat := 64

  /** While a frame can still take the threshold, the guard is sound for every blob. */
  lemma ThresholdMakesGuardSound(used: nat, size: nat, len: nat)
    requires (size == 0 ==> used == 0) && CanWrite(used, size, SIZE_THRESHOLD) && CanWrite(used, size, len)
    ensures Fits(used, size, len)
  {
  }

  class MutableEntry {
    const data: array<Byte>
    var size: nat
    ghost var entries: seq<Entry>

    ghost predicate Valid()
      reads this, data
    {
      data.Length == 8168 && size == |entries| && Holds(data[..], entries)
    }

    constructor ()
      ensures Valid() && entries == [] && fresh(data)
    {
      data := new Byte[8168](_ => 0);
      size := 0;
      entries := [];
    }

    method GetSpaceAndOffset() returns (writeOffset: nat, spaceLeft: nat)
      requires Valid()
      ensures writeOffset == Total(entries) && spaceLeft == SpaceLeft(writeOffset, size)
      ensures size > 0 ==> spaceLeft == if writeOffset + 16 * size < 8136 then 8136 - writeOffset - 16 * size else 0
    {
      hide HasEntry, LenAt, OffAt;
      writeOffset, spaceLeft := 0, DATA_SIZE - 16;
      if size > 0 {
        var index := size - 1;
        TotalPrefix(entries, index);
        assert entries[..index + 1] == entries;
        EntryReadsBack(data[..], index, entries[index], Total(entries[..index]));
        writeOffset := (OffAt(data[..], index) + LenAt(data[..], index)) % TWO_32;
        var spaceUsed := writeOffset + size * 16 + 16;
        spaceLeft := if spaceLeft < spaceUsed then 0 else spaceLeft - spaceUsed;
      }
    }

    method CanWriteNow(len: nat) returns (ok: bool)
      requires Valid()
      ensures ok == CanWrite(Total(entries), size, len)
      ensures ok <==> if entries == [] then len <= 8152
              else len == 0 || Total(entries) + len + 16 * (|entries| + 2) <= 8168
    {
      var writeOffset, spaceLeft := GetSpaceAndOffset();
      ok := len <= spaceLeft;
    }

    /** `memcpy` into the frame. */
    method Copy(at: nat, s: seq<Byte>)
      requires at + |s| <= data.Length
      modifies data
      ensures data[..] == Put(old(data[..]), at, s)
    {
      PutNothing(data[..], at);
      hide Put;
      for i := 0 to |s|
        invariant data[..] == Put(old(data[..]), at, s[..i])
      {
        PutOneMore(old(data[..]), at, s, i);
        data[at + i] := s[i];
      }
      assert s[..|s|] == s;
    }

    method Append(id: U64, blob: seq<Byte>)
      requires Valid() && CanWrite(Total(entries), size, |blob|)
      requires |blob| > 0 || size == 0 || Total(entries) + 16 * (size + 1) <= 8168
      modifies this, data
      ensures Valid() && entries == old(entries) + [Entry(id, blob)]
    {
      hide HasEntry, Put, LE;
      var writeOffset, spaceLeft := GetSpaceAndOffset();
      ghost var was, e := data[..], Entry(id, blob);
      GuardExact(writeOffset, size, |blob|);
      AppendedHolds(data[..], entries, e);
      Copy(writeOffset, blob);
      ghost var d1 := data[..];
      Copy(DATA_SIZE - 16 * size - 8, LE(|blob|, 4) + LE(writeOffset, 4));
      Copy(DATA_SIZE - 16 * size - 16, LE(id, 8));
      PutTwice(d1, DATA_SIZE - 16 * size - 16, LE(id, 8), LE(|blob|, 4) + LE(writeOffset, 4));
      assert data[..] == Appended(was, size, writeOffset, e);
      size := size + 1;
      entries := entries + [e];
    }

    method ReadString(ix: nat) returns (id: nat, blob: seq<Byte>)
      requires Valid() && ix < size
      ensures id == entries[ix].id && blob == entries[ix].blob
    {
      hide LE, FromLE;
      EntryReadsBack(data[..], ix, entries[ix], Total(entries[..ix]));
      var off, len := OffAt(data[..], ix), LenAt(data[..], ix);
      id := IdAt(data[..], ix);
      blob := data[off..off + len];
      assert blob == data[..][off..off + len];
    }

    /** `read_array`: the blob as 64-bit words. */
    method ReadArray(ix: nat) returns (id: nat, words: seq<U64>)
      requires Valid() && ix < size
      ensures id == entries[ix].id && words == Words(entries[ix].blob, |entries[ix].blob| / 8)
    {
      hide Words, FromLE;
      var blob;
      id, blob := ReadString(ix);
      words := [];
      NoWords(blob);
      for i := 0 to |blob| / 8
        invariant words == Words(blob, i)
      {
        OneWord(blob, i);
        words := words + [FromLE(blob[8 * i..8 * i + 8])];
      }
    }
  }

  /** The first `n` words of a blob. */
  function Words(blob: seq<Byte>, n: nat): (ws: seq<U64>)
    requires 8 * n <= |blob|
    ensures |ws| == n
  {
    if n == 0 then []
    else
      WordBound(blob[8 * (n - 1)..8 * n]);
      Words(blob, n - 1) + [FromLE(blob[8 * (n - 1)..8 * n])]
  }

  lemma NoWords(blob: seq<Byte>)
    ensures Words(blob, 0) == []
  {
  }

  lemma OneWord(blob: seq<Byte>, i: nat)
    requires 8 * (i + 1) <= |blob|
    ensures FromLE(blob[8 * i..8 * i + 8]) < TWO_64 &&
            Words(blob, i + 1) == Words(blob, i) + [FromLE(blob[8 * i..8 * i + 8])]
  {
    WordBound(blob[8 * i..8 * i + 8]);
  }

  function WordBytes(ws: seq<U64>): seq<Byte>
  {
    if |ws| == 0 then [] else WordBytes(ws[..|ws| - 1]) + LE(ws[|ws| - 1], 8)
  }

  lemma {:induction false} WordBytesLength(ws: seq<U64>)
    ensures |WordBytes(ws)| == 8 * |ws|
  {
    hide LE;
    if |ws| > 0 {
      WordBytesLength(ws[..|ws| - 1]);
    }
  }

  lemma {:induction false} WordAt(ws: seq<U64>, i: nat)
    requires 8 * (i + 1) <= |WordBytes(ws)|
    ensures i < |ws| && FromLE(WordBytes(ws)[8 * i..8 * i + 8]) == ws[i]
  {
    hide LE, FromLE;
    WordBytesLength(ws);
    var n := |ws| - 1;
    WordBytesLength(ws[..n]);
    if i < n {
      WordAt(ws[..n], i);
      assert WordBytes(ws)[8 * i..8 * i + 8] == WordBytes(ws[..n])[8 * i..8 * i + 8];
    } else {
      assert WordBytes(ws)[8 * i..8 * i + 8] == LE(ws[n], 8);
      Pow256Of8();
      LERoundTrip(ws[n], 8);
    }
  }

  /** Rescue points written as a blob read back as the same points. */
  lemma {:induction false} WordsReadBack(ws: seq<U64>, n: nat)
    requires n <= |ws|
    ensures |WordBytes(ws)| == 8 * |ws| && Words(WordBytes(ws), n) == ws[..n]
  {
    hide FromLE, WordBytes;
    WordBytesLength(ws);
    if n > 0 {
      WordsReadBack(ws, n - 1);
      WordAt(ws, n - 1);
      assert ws[..n] == ws[..n - 1] + [ws[n - 1]];
    }
  }

  lemma {:induction false} FromLEBound(s: seq<Byte>)
    ensures FromLE(s) < Pow256(|s|)
  {
    if |s| > 0 {
      FromLEBound(s[1..]);
    }
  }

  lemma WordBound(s: seq<Byte>)
    requires |s| == 8
    ensures FromLE(s) < TWO_64
  {
    FromLEBound(s);
    Pow256Of8();
  }
}
