/** The block stores of storage/block_store.cc: a ring of volumes that is overwritten round by round
    (`FixedSizeFileStorage`) and one that grows (`ExpandableFileStorage`).

    A logical address is generation << 32 | block. Volumes hold between 1 and 2^20 blocks, and generations
    stay below 2^32. */
module BlockRing {
  import opened Bytes

  const MAX_BLOCKS: nat := 0x10_0000
  const TWO_32: nat := 0x1_0000_0000

  datatype Option<T> = None | Some(value: T)

  /** A volume with its record in the meta-volume: `generation`, and `nblocks` as the length of `blocks`. */
  datatype Volume<D> = Volume(capacity: nat, gen: nat, blocks: seq<D>)

  /** `make_logic`, `extract_gen` and `extract_vol`. */
  function MakeLogic(gen: nat, block: nat): nat
  {
    gen * TWO_32 + block
  }

  function ExtractGen(addr: nat): nat { addr / TWO_32 }

  function ExtractVol(addr: nat): nat { addr % TWO_32 }

  lemma LogicRoundTrip(gen: nat, block: nat)
    requires block < TWO_32
    ensures ExtractGen(MakeLogic(gen, block)) == gen && ExtractVol(MakeLogic(gen, block)) == block
  {
  }

  /** The generation is in the upper 32 bits. */
  lemma LogicParts(gen: nat, block: nat)
    ensures MakeLogic(gen, block) == 0x1_0000_0000 * gen + block
  {
  }

  /** One block that was written: where, and what. */
  datatype Issue<D> = Issue(gen: nat, block: nat, data: D)

  function AddrOf<D>(i: Issue<D>): nat
  {
    MakeLogic(i.gen, i.block)
  }

  function Total<D>(fills: seq<seq<D>>): nat
  {
    if |fills| == 0 then 0 else Total(fills[..|fills| - 1]) + |fills[|fills| - 1]|
  }

  /** `issued[k]` is the k-th block written. `fills` has one entry per time a volume was filled: generation g
      is the g-th fill. */
  ghost predicate IssueOk<D>(issued: seq<Issue<D>>, fills: seq<seq<D>>, k: nat)
    requires k < |issued|
  {
    var i := issued[k];
    && i.gen < |fills| && i.block < |fills[i.gen]| && fills[i.gen][i.block] == i.data
    && Total(fills[..i.gen]) + i.block == k
  }

  ghost predicate IssuedOk<D>(issued: seq<Issue<D>>, fills: seq<seq<D>>)
  {
    && |issued| == Total(fills)
    && (forall k {:trigger IssueOk(issued, fills, k)} :: 0 <= k < |issued| ==> IssueOk(issued, fills, k))
    && (forall k {:trigger Later(issued, k)} :: 0 < k < |issued| ==> Later(issued, k))
  }

  ghost predicate Later<D>(issued: seq<Issue<D>>, k: int)
  {
    0 < k < |issued| && AddrOf(issued[k - 1]) < AddrOf(issued[k])
  }

  lemma {:induction false} AddressesIncrease<D>(issued: seq<Issue<D>>, fills: seq<seq<D>>, j: nat, k: nat)
    requires IssuedOk(issued, fills) && j < k < |issued|
    ensures AddrOf(issued[j]) < AddrOf(issued[k])
    decreases k
  {
    assert Later(issued, k);
    if j < k - 1 {
      AddressesIncrease(issued, fills, j, k - 1);
    }
  }

  lemma {:induction false} TotalSteps<D>(fills: seq<seq<D>>, g: nat, h: nat)
    requires g < h <= |fills|
    ensures Total(fills[..g]) + |fills[g]| <= Total(fills[..h])
  {
    assert fills[..h][..h - 1] == fills[..h - 1];
    if g < h - 1 {
      TotalSteps(fills, g, h - 1);
    }
  }

  /** Every block of every fill was issued. */
  lemma WasIssued<D>(issued: seq<Issue<D>>, fills: seq<seq<D>>, gen: nat, block: nat) returns (k: nat)
    requires IssuedOk(issued, fills) && gen < |fills| && block < |fills[gen]|
    ensures k < |issued| && issued[k] == Issue(gen, block, fills[gen][block])
  {
    hide Total;
    k := Total(fills[..gen]) + block;
    TotalSteps(fills, gen, |fills|);
    assert fills[..|fills|] == fills;
    assert IssueOk(issued, fills, k);
    var g := issued[k].gen;
    if g < gen {
      TotalSteps(fills, g, gen);
    } else if gen < g {
      TotalSteps(fills, gen, g);
    }
  }

  // ---- Arithmetic of the ring --------------------------------------------------------------------

  lemma ModAdd(g: nat, n: nat)
    requires n > 0
    ensures (g + n) % n == g % n
  {
    var q, r := g / n, g % n;
    assert g == n * q + r;
    assert g + n == n * (q + 1) + r;
    ModUnique(g + n, n, q + 1, r);
  }

  /** `(current_volume_ + 1) % volumes_.size()` follows the generation. */
  lemma ModNext(g: nat, n: nat)
    requires n > 0
    ensures (g % n + 1) % n == (g + 1) % n
  {
    var q, r := g / n, g % n;
    assert g == n * q + r;
    if r + 1 < n {
      ModUnique(g + 1, n, q, r + 1);
      ModUnique(r + 1, n, 0, r + 1);
    } else {
      assert g + 1 == n * (q + 1) + 0;
      ModUnique(g + 1, n, q + 1, 0);
      ModUnique(r + 1, n, 1, 0);
    }
  }

  /** Generations less than a round apart live in different volumes. */
  lemma ModDistinct(a: nat, b: nat, n: nat)
    requires n > 0 && b < a && a - b < n
    ensures a % n != b % n
  {
    var q, r := b / n, b % n;
    assert b == n * q + r;
    if r + (a - b) < n {
      ModUnique(a, n, q, r + (a - b));
    } else {
      assert a == n * (q + 1) + (r + (a - b) - n);
      ModUnique(a, n, q + 1, r + (a - b) - n);
    }
  }

  lemma ModSmall(g: nat, n: nat)
    requires g < n
    ensures g % n == g
  {
    ModUnique(g, n, 0, g);
  }

  // ---- The fixed ring ----------------------------------------------------------------------------

  /** Generation `g` is one of the last `n` fills. */
  predicate InWindow(g: int, last: nat, n: nat)
  {
    0 <= g <= last && last - g < n
  }

  /** Volumes of a fresh ring that has been filled `|fills|` times, the last one maybe partly. */
  ghost predicate RingOk<D>(volumes: seq<Volume<D>>, fills: seq<seq<D>>)
  {
    && |volumes| > 0 && |fills| > 0
    && (forall i :: 0 <= i < |volumes| ==> 1 <= volumes[i].capacity <= MAX_BLOCKS)
    && (forall g {:trigger SlotOk(volumes, fills, g)} :: InWindow(g, |fills| - 1, |volumes|) ==>
        SlotOk(volumes, fills, g))
    && (forall i :: |fills| <= i < |volumes| ==> volumes[i].gen == i && |volumes[i].blocks| == 0)
    && (forall g {:trigger FillOk(volumes, fills, g)} :: 0 <= g < |fills| ==> FillOk(volumes, fills, g))
  }

  ghost predicate SlotOk<D>(volumes: seq<Volume<D>>, fills: seq<seq<D>>, g: int)
    requires |volumes| > 0
  {
    0 <= g < |fills| && volumes[g % |volumes|].gen == g && volumes[g % |volumes|].blocks == fills[g]
  }

  /** Every fill but the last is complete. */
  ghost predicate FillOk<D>(volumes: seq<Volume<D>>, fills: seq<seq<D>>, g: int)
    requires |volumes| > 0
  {
    && 0 <= g < |fills|
    && if g < |fills| - 1 then |fills[g]| == volumes[g % |volumes|].capacity
       else |fills[g]| <= volumes[g % |volumes|].capacity
  }

  /** Volume i's generation is always congruent to i. */
  lemma GenerationOfVolume<D>(volumes: seq<Volume<D>>, fills: seq<seq<D>>, i: nat)
    requires RingOk(volumes, fills) && i < |volumes|
    ensures volumes[i].gen % |volumes| == i
  {
    var n, last := |volumes|, |fills| - 1;
    if i > last {
      ModSmall(i, n);
    } else {
      var g := Latest(i, last, n);
      assert SlotOk(volumes, fills, g);
    }
  }

  /** The last generation that went to volume `i`. */
  lemma {:induction false} Latest(i: nat, last: nat, n: nat) returns (g: nat)
    requires i < n && i <= last
    ensures InWindow(g, last, n) && g % n == i
    decreases last
  {
    if last < n {
      g := i;
      ModSmall(i, n);
    } else if last - n >= i {
      g := Latest(i, last - n, n);
      ModAdd(g, n);
      g := g + n;
    } else {
      g := i + n;
      ModSmall(i, n);
      ModAdd(i, n);
      if !InWindow(g, last, n) {
        g := i;
      }
    }
  }

  /** One more block in the current volume. */
  lemma SameFill<D>(volumes: seq<Volume<D>>, fills: seq<seq<D>>, data: D)
    requires RingOk(volumes, fills)
    requires var last := |fills| - 1; |volumes[last % |volumes|].blocks| < volumes[last % |volumes|].capacity
    ensures var last := |fills| - 1;
            var c := last % |volumes|;
            RingOk(volumes[c := volumes[c].(blocks := volumes[c].blocks + [data])], fills[last := fills[last] + [data]])
  {
    var last, n := |fills| - 1, |volumes|;
    var c := last % n;
    var volumes', fills' := volumes[c := volumes[c].(blocks := volumes[c].blocks + [data])],
        fills[last := fills[last] + [data]];
    assert SlotOk(volumes, fills, last);
    forall g | InWindow(g, last, n)
      ensures SlotOk(volumes', fills', g)
    {
      assert SlotOk(volumes, fills, g);
      if g < last {
        ModDistinct(last, g, n);
      }
    }
    forall g | 0 <= g < |fills'|
      ensures FillOk(volumes', fills', g)
    {
      assert FillOk(volumes, fills, g);
    }
    if last < n {
      ModSmall(last, n);
    }
  }

  /** The next volume after a transition, and the generation it is filled with. */
  lemma NextVolume<D>(volumes: seq<Volume<D>>, fills: seq<seq<D>>)
    requires RingOk(volumes, fills) && |fills[|fills| - 1]| == volumes[(|fills| - 1) % |volumes|].capacity
    ensures var next := |fills| % |volumes|;
            if |volumes[next].blocks| != 0 then volumes[next].gen + |volumes| == |fills|
                else volumes[next].gen == |fills|
  {
    var next, n := |fills|, |volumes|;
    if next < n {
      ModSmall(next, n);
    } else {
      ModAdd(next - n, n);
      assert InWindow(next - n, |fills| - 1, n);
      assert SlotOk(volumes, fills, next - n);
      assert FillOk(volumes, fills, next - n);
    }
  }

  /** A fresh fill in the next volume. */
  lemma NewFill<D>(volumes: seq<Volume<D>>, fills: seq<seq<D>>, data: D)
    requires RingOk(volumes, fills) && |fills[|fills| - 1]| == volumes[(|fills| - 1) % |volumes|].capacity
    ensures var c := |fills| % |volumes|;
            RingOk(volumes[c := Volume(volumes[c].capacity, |fills|, [data])], fills + [[data]])
  {
    var next, n := |fills|, |volumes|;
    var c := next % n;
    var volumes', fills' := volumes[c := Volume(volumes[c].capacity, next, [data])], fills + [[data]];
    forall g | InWindow(g, next, n)
      ensures SlotOk(volumes', fills', g)
    {
      if g < next {
        ModDistinct(next, g, n);
        assert InWindow(g, |fills| - 1, n);
        assert SlotOk(volumes, fills, g);
      }
    }
    forall g | 0 <= g < |fills'|
      ensures FillOk(volumes', fills', g)
    {
      if g < next {
        assert FillOk(volumes, fills, g);
      }
    }
    if next < n {
      ModSmall(next, n);
    }
  }

  lemma LaterAddress(gen: nat, block: nat, gen': nat, block': nat)
    requires block < TWO_32 && (gen < gen' || (gen == gen' && block < block'))
    ensures MakeLogic(gen, block) < MakeLogic(gen', block')
  {
  }

  /** One more block at the end of the last fill, or as the start of a new one. */
  ghost predicate OneMore<D>(fills: seq<seq<D>>, fills': seq<seq<D>>, data: D)
  {
    |fills| > 0 &&
    (fills' == fills[|fills| - 1 := fills[|fills| - 1] + [data]] || fills' == fills + [[data]])
  }

  lemma TotalMore<D>(fills: seq<seq<D>>, fills': seq<seq<D>>, data: D)
    requires OneMore(fills, fills', data)
    ensures var last := |fills'| - 1;
            && Total(fills') == Total(fills) + 1 && |fills'[last]| > 0 && fills'[last][|fills'[last]| - 1] == data
            && Total(fills'[..last]) + |fills'[last]| == Total(fills')
  {
    var n, last := |fills| - 1, |fills'| - 1;
    if last == n {
      assert fills'[..n] == fills[..n];
    } else {
      assert fills'[..last] == fills;
    }
  }

  lemma IssueKept<D>(issued: seq<Issue<D>>, fills: seq<seq<D>>, fills': seq<seq<D>>, data: D, issue: Issue<D>, k: nat)
    requires OneMore(fills, fills', data) && k < |issued| && IssueOk(issued, fills, k)
    ensures IssueOk(issued + [issue], fills', k)
  {
    assert fills'[..issued[k].gen] == fills[..issued[k].gen];
  }

  lemma IssueMore<D>(issued: seq<Issue<D>>, fills: seq<seq<D>>, fills': seq<seq<D>>, data: D)
    requires IssuedOk(issued, fills) && OneMore(fills, fills', data)
    requires forall g :: 0 <= g < |fills| ==> |fills[g]| <= MAX_BLOCKS
    ensures var last := |fills'| - 1;
            |fills'[last]| > 0 && IssuedOk(issued + [Issue(last, |fills'[last]| - 1, data)], fills')
  {
    TotalMore(fills, fills', data);
    var last := |fills'| - 1;
    var issue := Issue(last, |fills'[last]| - 1, data);
    var issued' := issued + [issue];
    forall k | 0 <= k < |issued'|
      ensures IssueOk(issued', fills', k)
    {
      if k < |issued| {
        assert IssueOk(issued, fills, k);
        IssueKept(issued, fills, fills', data, issue, k);
      }
    }
    forall k | 0 < k < |issued'|
      ensures Later(issued', k)
    {
      if k < |issued| {
        assert Later(issued, k);
      } else {
        var before := issued[k - 1];
        assert IssueOk(issued, fills, k - 1);
        LaterAddress(before.gen, before.block, issue.gen, issue.block);
      }
    }
  }

  lemma {:induction false} TotalOfFull<D>(fills: seq<seq<D>>, g: nat, cap: nat)
    requires g <= |fills| && forall i :: 0 <= i < g ==> |fills[i]| == cap
    ensures Total(fills[..g]) == cap * g
  {
    if g > 0 {
      TotalOfFull(fills, g - 1, cap);
      assert fills[..g][..g - 1] == fills[..g - 1];
      assert cap * g == cap * (g - 1) + cap;
    }
  }

  /** With equal capacities, the latest (n - 1) * capacity blocks are always in one of the last n fills. */
  lemma LatestReadable<D>(volumes: seq<Volume<D>>, fills: seq<seq<D>>, issued: seq<Issue<D>>, cap: nat, k: nat)
    requires RingOk(volumes, fills) && IssuedOk(issued, fills) && k < |issued| && |issued| <= k + (|volumes| - 1) * cap
    requires forall i :: 0 <= i < |volumes| ==> volumes[i].capacity == cap
    ensures |fills| - 1 - issued[k].gen < |volumes|
  {
    var n, last, g := |volumes|, |fills| - 1, issued[k].gen;
    assert IssueOk(issued, fills, k);
    forall i | 0 <= i < last
      ensures |fills[i]| == cap
    {
      assert FillOk(volumes, fills, i);
    }
    assert FillOk(volumes, fills, g);
    TotalOfFull(fills, g, cap);
    TotalOfFull(fills, last, cap);
    if last - g >= n {
      MulLess(cap, g, g + 1);
      assert cap * last == cap * (g + 1) + cap * (last - g - 1);
      MulMonotone(cap, n - 1, last - g - 1);
    }
  }

  lemma MulMonotone(a: nat, x: nat, y: nat)
    requires x <= y
    ensures x * a <= a * y
  {
    assert a * y == a * x + a * (y - x);
  }

  /** `FixedSizeFileStorage`. */
  class FixedSizeStorage<D(!new)> {
    var volumes: seq<Volume<D>>
    var currentVolume: nat
    var currentGen: nat
    ghost var fills: seq<seq<D>>
    ghost var issued: seq<Issue<D>>

    ghost predicate Valid()
      reads this
    {
      && RingOk(volumes, fills) && currentGen == |fills| - 1 && currentVolume == currentGen % |volumes|
      && IssuedOk(issued, fills)
    }

    /** A freshly created ring: volume i starts with generation i. */
    constructor (capacities: seq<nat>)
      requires |capacities| > 0 && forall i :: 0 <= i < |capacities| ==> 1 <= capacities[i] <= MAX_BLOCKS
      ensures Valid() && issued == [] && |volumes| == |capacities| && currentGen == 0
      ensures forall i :: 0 <= i < |volumes| ==> volumes[i] == Volume(capacities[i], i, [])
    {
      volumes := seq(|capacities|, i requires 0 <= i < |capacities| => Volume(capacities[i], i, []));
      currentVolume, currentGen := 0, 0;
      fills, issued := [[]], [];
      new;
      ModSmall(0, |volumes|);
      assert SlotOk(volumes, fills, 0) && FillOk(volumes, fills, 0);
    }

    /** `handle_volume_transition`: on to the next volume; if it was used before, it starts over with a
        generation one round later. */
    method HandleVolumeTransition()
      requires Valid() && |volumes[currentVolume].blocks| == volumes[currentVolume].capacity
      modifies `volumes, `currentVolume, `currentGen
      ensures |volumes| == |old(volumes)| && currentGen == |fills| && currentVolume == |fills| % |volumes|
      ensures volumes == old(volumes)[currentVolume := Volume(old(volumes)[currentVolume].capacity, |fills|, [])]
    {
      var n := |volumes|;
      ModNext(currentGen, n);
      assert SlotOk(volumes, fills, |fills| - 1);
      NextVolume(volumes, fills);
      currentVolume := (currentVolume + 1) % n;
      currentGen := volumes[currentVolume].gen;
      if |volumes[currentVolume].blocks| != 0 {
        currentGen := currentGen + n;
        volumes := volumes[currentVolume := volumes[currentVolume].(gen := currentGen, blocks := [])];
      }
    }

    /** Write the block into the current volume, or into the next one if that is full. */
    method PlaceBlock(data: D) returns (block: nat)
      requires Valid() && currentGen + 1 < TWO_32
      modifies this
      ensures RingOk(volumes, fills) && currentGen == |fills| - 1 && currentVolume == currentGen % |volumes|
      ensures OneMore(old(fills), fills, data) && currentGen >= old(currentGen)
      ensures fills[currentGen] != [] && block == |fills[currentGen]| - 1 && issued == old(issued) &&
              |volumes| == |old(volumes)|
    {
      CurrentFill(volumes, fills);
      hide RingOk;
      ghost var v0 := volumes;
      if |volumes[currentVolume].blocks| < volumes[currentVolume].capacity {
        SameFill(volumes, fills, data);
        fills := fills[currentGen := fills[currentGen] + [data]];
      } else {
        NewFill(volumes, fills, data);
        HandleVolumeTransition();
        fills := fills + [[data]];
      }
      block := |volumes[currentVolume].blocks|;
      volumes := volumes[currentVolume := volumes[currentVolume].(blocks := volumes[currentVolume].blocks + [data])];
      if currentGen != old(currentGen) {
        assert volumes[currentVolume].blocks == [data];
        assert volumes == v0[currentVolume := Volume(v0[currentVolume].capacity, currentGen, [data])];
      } else {
        assert volumes == v0[currentVolume := v0[currentVolume].(blocks := v0[currentVolume].blocks + [data])];
      }
    }

    /** `append_block`: every address is later than all addresses before. */
    method AppendBlock(data: D) returns (addr: nat)
      requires Valid() && currentGen + 1 < TWO_32
      modifies this
      ensures Valid() && |issued| == |old(issued)| + 1 && issued[..|old(issued)|] == old(issued)
      ensures addr == AddrOf(issued[|old(issued)|]) && issued[|old(issued)|].data == data
      ensures addr == 0x1_0000_0000 * issued[|old(issued)|].gen + issued[|old(issued)|].block
      ensures forall k :: 0 <= k < |old(issued)| ==> AddrOf(issued[k]) < addr
      ensures currentGen >= old(currentGen) && |volumes| == |old(volumes)|
    {
      FillsBounded(volumes, fills);
      hide RingOk;
      hide MakeLogic;
      hide Total;
      ghost var fills0 := fills;
      var block := PlaceBlock(data);
      IssueMore(issued, fills0, fills, data);
      issued := issued + [Issue(currentGen, block, data)];
      addr := MakeLogic(currentGen, block);
      LogicParts(currentGen, block);
      forall k | 0 <= k < |issued| - 1
        ensures AddrOf(issued[k]) < addr
      {
        AddressesIncrease(issued, fills, k, |issued| - 1);
      }
    }

    /** `read_iovec_block`: an issued address reads back its own block while its generation is one of the
        last n, and is unavailable from then on. */
    method ReadBlock(addr: nat) returns (block: Option<D>)
      requires Valid()
      ensures forall k :: 0 <= k < |issued| && AddrOf(issued[k]) == addr ==>
                block == if currentGen - issued[k].gen < |volumes| then Some(issued[k].data) else None
      ensures block.Some? ==> exists k :: 0 <= k < |issued| && AddrOf(issued[k]) == addr
    {
      var gen, vol := ExtractGen(addr), ExtractVol(addr);
      var volix := gen % |volumes|;
      if volumes[volix].gen != gen || vol >= |volumes[volix].blocks| {
        block := None;
      } else {
        block := Some(volumes[volix].blocks[vol]);
        HoldsFill(volumes, fills, volix);
        ghost var k := WasIssued(issued, fills, gen, vol);
        SplitAddress(addr);
        assert AddrOf(issued[k]) == addr;
      }
      forall k | 0 <= k < |issued| && AddrOf(issued[k]) == addr
        ensures block == if currentGen - issued[k].gen < |volumes| then Some(issued[k].data) else None
      {
        assert IssueOk(issued, fills, k);
        ReadIssue(volumes, fills, issued[k]);
      }
    }
  }

  /** The current volume holds the last fill. */
  lemma CurrentFill<D>(volumes: seq<Volume<D>>, fills: seq<seq<D>>)
    requires RingOk(volumes, fills)
    ensures |volumes| > 0 && |fills| > 0
    ensures var v := volumes[(|fills| - 1) % |volumes|];
            v.blocks == fills[|fills| - 1] && v.gen == |fills| - 1 && |v.blocks| <= v.capacity
  {
    assert SlotOk(volumes, fills, |fills| - 1) && FillOk(volumes, fills, |fills| - 1);
  }

  lemma FillsBounded<D>(volumes: seq<Volume<D>>, fills: seq<seq<D>>)
    requires RingOk(volumes, fills)
    ensures forall g :: 0 <= g < |fills| ==> |fills[g]| <= MAX_BLOCKS
  {
    forall g | 0 <= g < |fills|
      ensures |fills[g]| <= MAX_BLOCKS
    {
      assert FillOk(volumes, fills, g);
    }
  }

  lemma ReadIssue<D>(volumes: seq<Volume<D>>, fills: seq<seq<D>>, issue: Issue<D>)
    requires RingOk(volumes, fills)
    requires issue.gen < |fills| && issue.block < |fills[issue.gen]| && fills[issue.gen][issue.block] == issue.data
    ensures ExtractGen(AddrOf(issue)) == issue.gen && ExtractVol(AddrOf(issue)) == issue.block
    ensures var v := volumes[issue.gen % |volumes|];
            if |fills| - 1 - issue.gen < |volumes| then v.gen == issue.gen && issue.block < |v.blocks| &&
                v.blocks[issue.block] == issue.data
            else v.gen != issue.gen
  {
    var n, last := |volumes|, |fills| - 1;
    FillsBounded(volumes, fills);
    LogicRoundTrip(issue.gen, issue.block);
    if last - issue.gen < n {
      assert SlotOk(volumes, fills, issue.gen);
    } else {
      var i := issue.gen % n;
      var g := Latest(i, last, n);
      assert SlotOk(volumes, fills, g);
    }
  }

  lemma SplitAddress(addr: nat)
    ensures MakeLogic(ExtractGen(addr), ExtractVol(addr)) == addr
  {
  }

  /** A volume that is not empty holds the fill of its generation. */
  lemma HoldsFill<D>(volumes: seq<Volume<D>>, fills: seq<seq<D>>, i: nat)
    requires RingOk(volumes, fills) && i < |volumes| && |volumes[i].blocks| > 0
    ensures volumes[i].gen < |fills| && volumes[i].blocks == fills[volumes[i].gen]
  {
    if i < |fills| {
      var g := Latest(i, |fills| - 1, |volumes|);
      assert SlotOk(volumes, fills, g);
    }
  }

  // ---- The expandable store ----------------------------------------------------------------------

  /** Volume i has generation i for ever; volumes behind the current one are empty. */
  ghost predicate GrowOk<D>(volumes: seq<Volume<D>>, fills: seq<seq<D>>)
  {
    && 0 < |fills| <= |volumes|
    && (forall i :: 0 <= i < |volumes| ==>
        volumes[i].gen == i && 1 <= volumes[i].capacity <= MAX_BLOCKS && |volumes[i].blocks| <= volumes[i].capacity)
    && (forall i :: 0 <= i < |fills| ==> volumes[i].blocks == fills[i])
    && (forall i :: |fills| <= i < |volumes| ==> |volumes[i].blocks| == 0)
  }

  /** `ExpandableFileStorage`. */
  class ExpandableStorage<D(!new)> {
    var volumes: seq<Volume<D>>
    var currentVolume: nat
    var currentGen: nat
    ghost var fills: seq<seq<D>>
    ghost var issued: seq<Issue<D>>

    ghost predicate Valid()
      reads this
    {
      GrowOk(volumes, fills) && currentGen == currentVolume == |fills| - 1 && IssuedOk(issued, fills)
    }

    constructor (capacities: seq<nat>)
      requires |capacities| > 0 && forall i :: 0 <= i < |capacities| ==> 1 <= capacities[i] <= MAX_BLOCKS
      ensures Valid() && issued == [] && |volumes| == |capacities| && currentGen == 0
    {
      volumes := seq(|capacities|, i requires 0 <= i < |capacities| => Volume(capacities[i], i, []));
      currentVolume, currentGen := 0, 0;
      fills, issued := [[]], [];
    }

    /** `adjust_current_volume` and the rest of `handle_volume_transition`: a new volume is as large as the
        one before it, and the next volume is never used, so nothing is reset. */
    method HandleVolumeTransition()
      requires Valid()
      modifies `volumes, `currentVolume, `currentGen
      ensures GrowOk(volumes, fills) && |fills| < |volumes| && currentGen == currentVolume == |fills|
    {
      currentVolume := currentVolume + 1;
      if currentVolume >= |volumes| {
        volumes := volumes + [Volume(volumes[currentVolume - 1].capacity, currentVolume, [])];
      }
      currentGen := volumes[currentVolume].gen;
      if |volumes[currentVolume].blocks| != 0 {
        assert false;
      }
    }

    method AppendBlock(data: D) returns (addr: nat)
      requires Valid() && currentGen + 1 < TWO_32
      modifies this
      ensures Valid() && |issued| == |old(issued)| + 1 && issued[..|old(issued)|] == old(issued)
      ensures addr == AddrOf(issued[|old(issued)|]) && issued[|old(issued)|].data == data
      ensures addr == 0x1_0000_0000 * issued[|old(issued)|].gen + issued[|old(issued)|].block
      ensures forall k :: 0 <= k < |old(issued)| ==> AddrOf(issued[k]) < addr
    {
      hide MakeLogic;
      hide Total;
      ghost var fills0 := fills;
      if |volumes[currentVolume].blocks| >= volumes[currentVolume].capacity {
        HandleVolumeTransition();
        fills := fills + [[data]];
        assert volumes[currentVolume].blocks + [data] == [data];
      } else {
        fills := fills[currentGen := fills[currentGen] + [data]];
      }
      var block := |volumes[currentVolume].blocks|;
      volumes := volumes[currentVolume := volumes[currentVolume].(blocks := volumes[currentVolume].blocks + [data])];
      IssueMore(issued, fills0, fills, data);
      issued := issued + [Issue(currentGen, block, data)];
      addr := MakeLogic(currentGen, block);
      LogicParts(currentGen, block);
      forall k | 0 <= k < |issued| - 1
        ensures AddrOf(issued[k]) < addr
      {
        AddressesIncrease(issued, fills, k, |issued| - 1);
      }
    }

    /** No issued address ever becomes unavailable. */
    method ReadBlock(addr: nat) returns (block: Option<D>)
      requires Valid()
      ensures forall k :: 0 <= k < |issued| && AddrOf(issued[k]) == addr ==> block == Some(issued[k].data)
      ensures block.Some? ==> exists k :: 0 <= k < |issued| && AddrOf(issued[k]) == addr
    {
      var gen, vol := ExtractGen(addr), ExtractVol(addr);
      if gen >= |volumes| || volumes[gen].gen != gen || vol >= |volumes[gen].blocks| {
        block := None;
      } else {
        block := Some(volumes[gen].blocks[vol]);
        ghost var k := WasIssued(issued, fills, gen, vol);
        SplitAddress(addr);
        assert AddrOf(issued[k]) == addr;
      }
      forall k | 0 <= k < |issued| && AddrOf(issued[k]) == addr
        ensures block == Some(issued[k].data)
      {
        assert IssueOk(issued, fills, k);
        LogicRoundTrip(issued[k].gen, issued[k].block);
      }
    }
  }
}
