/** How many nodes are collected on every level of a column, and how high it grows: a node that holds 32 references is
    committed when one more is pushed. */
module Heights {
  import opened TreeStore
  import opened Column

  /** The number of references in the open node of every level. */
  function Shape(c: Col): (s: seq<nat>)
    ensures |s| == |c.ext| && forall i :: 0 <= i < |s| ==> s[i] == |Refs(c.ext[i])|
  {
    seq(|c.ext|, i requires 0 <= i < |c.ext| => |Refs(c.ext[i])|)
  }

  /** One more reference on level `lvl`: 32 of them are taken up to the next level first, and there may be none yet. */
  function Bump(s: seq<nat>, lvl: nat): (r: seq<nat>)
    requires lvl <= |s|
    ensures lvl < |r| && |s| <= |r| <= |s| + 1
    decreases |s| - lvl
  {
    if lvl == |s| then s + [1] else if s[lvl] < 32 then s[lvl := s[lvl] + 1] else Bump(s, lvl + 1)[lvl := 1]
  }

  lemma {:induction false} BumpKeeps(s: seq<nat>, lvl: nat)
    requires lvl <= |s|
    ensures forall i :: 0 <= i < lvl ==> Bump(s, lvl)[i] == s[i]
    decreases |s| - lvl
  {
    if lvl < |s| && s[lvl] >= 32 {
      BumpKeeps(s, lvl + 1);
    }
  }

  /** What a push does to the shape ... */
  ghost predicate PushedShape(a: Col, b: Col, lvl: nat)
  {
    lvl <= |a.ext| && Shape(b) == Bump(Shape(a), lvl)
  }

  /** ... and a commit, which leaves a fresh node. */
  ghost predicate CommittedShape(a: Col, b: Col, lvl: nat)
  {
    lvl < |a.ext| && Shape(b) == Bump(Shape(a), lvl + 1)[lvl := 0]
  }

  lemma NewTopShape(a: Col, pl: SubtreeRef)
    ensures PushedShape(a, NewTop(a, pl), |a.ext|)
  {
  }

  lemma RoomShape(a: Col, lvl: nat, pl: SubtreeRef)
    requires HasRoom(a, lvl)
    ensures PushedShape(a, a.(ext := a.ext[lvl := AddRef(a.ext[lvl], pl)]), lvl)
  {
  }

  lemma FullShape(a: Col, c: Col, lvl: nat, pl: SubtreeRef)
    requires CommittedShape(a, c, lvl) && |Refs(a.ext[lvl])| >= 32 && lvl < |c.ext| && c.ext[lvl].SBlockExtent?
    ensures PushedShape(a, c.(ext := c.ext[lvl := AddRef(c.ext[lvl], pl)]), lvl)
  {
  }

  lemma CommitShaped(a: Col, lvl: nat, st: seq<Block>, c: Col, addr: LogicAddr)
    requires lvl < |a.ext| && lvl < |c.ext| && PushedShape(a.(st := st), c, lvl + 1)
    ensures CommittedShape(a, c.(ext := c.ext[lvl := Reset(c.ext[lvl], addr)]), lvl)
  {
    assert Shape(a.(st := st)) == Shape(a);
  }

  // ---- The height of a column --------------------------------------------------------------------

  /** Every level above the leaves holds between 1 and 32 references, as in a column that was created empty. */
  predicate Digits(s: seq<nat>)
  {
    |s| >= 1 && s[0] == 0 && forall k :: 1 <= k < |s| ==> 1 <= s[k] <= 32
  }

  /** The leaves under the levels from `k` on: a reference of one level is worth 32 of the level below. */
  function Weight(s: seq<nat>, k: nat): nat
    decreases |s| - k
  {
    if k >= |s| then 0 else s[k] + 32 * Weight(s, k + 1)
  }

  /** The smallest number of leaves that needs `m` levels above them: 0, 1, 33, 1057, ... */
  function FirstWith(m: nat): nat
  {
    if m == 0 then 0 else 1 + 32 * FirstWith(m - 1)
  }

  lemma {:induction false} WeightSame(s: seq<nat>, r: seq<nat>, k: nat)
    requires |s| == |r| && forall i :: k <= i < |s| ==> s[i] == r[i]
    ensures Weight(s, k) == Weight(r, k)
    decreases |s| - k
  {
    if k < |s| {
      WeightSame(s, r, k + 1);
    }
  }

  /** A push counts one. */
  lemma {:induction false} BumpCounts(s: seq<nat>, lvl: nat)
    requires Digits(s) && 1 <= lvl <= |s|
    ensures var r := Bump(s, lvl);
            && Weight(r, lvl) == Weight(s, lvl) + 1 && Digits(r)
            && forall i :: 0 <= i < lvl ==> r[i] == s[i]
    decreases |s| - lvl
  {
    var r := Bump(s, lvl);
    if lvl == |s| {
      assert Weight(r, lvl + 1) == 0;
    } else if s[lvl] < 32 {
      WeightSame(s, r, lvl + 1);
    } else {
      BumpCounts(s, lvl + 1);
      WeightSame(Bump(s, lvl + 1), r, lvl + 1);
    }
  }

  lemma {:induction false} WeightBounds(s: seq<nat>, k: nat)
    requires Digits(s) && 1 <= k <= |s|
    ensures FirstWith(|s| - k) <= Weight(s, k) < FirstWith(|s| - k + 1)
    decreases |s| - k
  {
    if k < |s| {
      WeightBounds(s, k + 1);
    } else {
      assert FirstWith(1) == 1 + 32 * FirstWith(0);
    }
  }

  /** The number of leaves says how many levels there are: two up to 32 leaves, three up to 1056. */
  lemma HeightOf(s: seq<nat>, n: nat)
    requires Digits(s) && n == Weight(s, 1)
    ensures FirstWith(|s| - 1) <= n < FirstWith(|s|)
    ensures (|s| == 1 <==> n == 0) && (|s| == 2 <==> 1 <= n <= 32) && (|s| == 3 <==> 33 <= n <= 1056)
  {
    WeightBounds(s, 1);
    FirstFew();
    if |s| > 3 {
      FirstGrows(3, |s| - 1);
    }
  }

  lemma FirstFew()
    ensures FirstWith(0) == 0 && FirstWith(1) == 1 && FirstWith(2) == 33 && FirstWith(3) == 1057
  {
    assert FirstWith(2) == 1 + 32 * FirstWith(1) && FirstWith(3) == 1 + 32 * FirstWith(2);
  }

  lemma {:induction false} FirstGrows(j: nat, k: nat)
    requires j <= k
    ensures FirstWith(j) <= FirstWith(k)
    decreases k - j
  {
    if j < k {
      FirstGrows(j, k - 1);
    }
  }

  /** A column that was created empty, and `n` leaves were committed since. */
  ghost predicate Counting(c: Col, n: nat)
  {
    if c.ext == [] then n == 0 else Digits(Shape(c)) && Weight(Shape(c), 1) == n
  }

  lemma CountOne(a: Col, b: Col, n: nat)
    requires Counting(a, n) && |a.ext| >= 1 && Shape(b) == Bump(Shape(a), 1)
    ensures Counting(b, n + 1)
  {
    BumpCounts(Shape(a), 1);
  }

  lemma CountNone(a: Col, b: Col, n: nat)
    requires Counting(a, n) && Shape(b) == if a.ext == [] then [0] else Shape(a)
    ensures Counting(b, n)
  {
    assert Weight([0], 1) == 0;
  }
}
