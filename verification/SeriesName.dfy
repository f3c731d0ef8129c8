/** The canonical form of a series name (`SeriesParser::to_canonical_form`, index/seriesparser.cc): metric name,
    then the tags sorted by tag name, one space between. */
module SeriesName {

  /** `char`, which is signed. */
  type Char = c: int | -128 <= c < 128

  type Text = seq<Char>

  const SPACE: Char := 32
  const TAB: Char := 9
  const EQUALS: Char := 61
  const ESC_CHAR: Char := 92

  const LIMITS_MAX_SNAME: nat := 0x1000
  const LIMITS_MAX_TAGS: nat := 32

  predicate Blank(c: Char)
  {
    c == SPACE || c == TAB
  }

  // ---- Tokens ------------------------------------------------------------------------------------

  function SkipBlank(s: Text, p: nat): (q: nat)
    requires p <= |s|
    ensures p <= q <= |s| && (q < |s| ==> !Blank(s[q])) && (p < |s| && Blank(s[p]) ==> q > p)
    decreases |s| - p
  {
    if p < |s| && Blank(s[p]) then SkipBlank(s, p + 1) else p
  }

  /** The first position from `q` at which a token ends: a space that is not escaped, or the end. */
  function Stop(s: Text, q: nat): (e: nat)
    requires 0 < q <= |s|
    ensures q <= e <= |s| && (e < |s| ==> s[e] == SPACE && s[e - 1] != ESC_CHAR)
    decreases |s| - q
  {
    if q == |s| || (s[q] == SPACE && s[q - 1] != ESC_CHAR) then q else Stop(s, q + 1)
  }

  function TokenAt(s: Text, p: nat): Text
    requires p < |s|
  {
    s[p..Stop(s, p + 1)]
  }

  function Tokens(s: Text, p: nat): seq<Text>
    requires p <= |s|
    decreases |s| - p
  {
    var q := SkipBlank(s, p);
    if q == |s| then [] else [TokenAt(s, q)] + Tokens(s, Stop(s, q + 1))
  }

  /** The position of the first '='. */
  function EqualsAt(w: Text): (i: nat)
    ensures i <= |w| && (i < |w| ==> w[i] == EQUALS) && forall j :: 0 <= j < i ==> w[j] != EQUALS
  {
    if |w| == 0 || w[0] == EQUALS then 0 else 1 + EqualsAt(w[1..])
  }

  /** A tag has a name and an '='. */
  predicate IsTag(w: Text)
  {
    0 < EqualsAt(w) < |w|
  }

  function TagName(w: Text): Text
  {
    w[..EqualsAt(w)]
  }

  // ---- Scanning ----------------------------------------------------------------------------------

  method SkipSpace(s: Text, p: nat) returns (q: nat)
    requires p <= |s|
    ensures q == SkipBlank(s, p)
  {
    q := p;
    while q < |s| && (s[q] == SPACE || s[q] == TAB)
      invariant p <= q <= |s| && SkipBlank(s, q) == SkipBlank(s, p)
    {
      q := q + 1;
    }
  }

  /** `copy_until` with a space as the pattern. */
  method CopyUntil(s: Text, begin: nat, out: Text) returns (q: nat, out': Text)
    requires begin <= |s|
    ensures begin == |s| ==> q == begin && out' == out
    ensures begin < |s| ==> q == Stop(s, begin + 1) && out' == out + TokenAt(s, begin)
  {
    q, out' := begin, out;
    if begin == |s| {
      return;
    }
    var escapeChar := if s[begin] == ESC_CHAR then begin else -1;
    while true
      invariant begin <= q < |s| && out' == out + s[begin..q]
      invariant Stop(s, q + 1) == Stop(s, begin + 1)
      invariant escapeChar == q <==> s[q] == ESC_CHAR
      invariant escapeChar <= q
      decreases |s| - q
    {
      out' := out' + [s[q]];
      assert s[begin..q + 1] == s[begin..q] + [s[q]];
      q := q + 1;
      if q == |s| {
        break;
      }
      if s[q] == SPACE {
        if q - 1 != escapeChar {
          break;
        }
      } else if s[q] == ESC_CHAR {
        escapeChar := q;
      }
    }
  }

  /** `skip_tag`: past the token at `begin`, or an error when it is not a tag. */
  method SkipTag(s: Text, begin: nat) returns (q: nat, error: bool)
    requires begin < |s| && s[begin] != SPACE
    ensures error <==> !IsTag(TokenAt(s, begin))
    ensures q == if error then |s| else Stop(s, begin + 1)
  {
    hide *;
    var p, escapeChar := SkipName(s, begin);
    NameEnds(s, begin, p);
    if p == begin || p == |s| || s[p] != EQUALS {
      return |s|, true;
    }
    var c := SkipValue(s, p, escapeChar);
    return c, c == p;
  }

  /** The first loop of `skip_tag`: up to '=' or the end of the token. */
  method SkipName(s: Text, begin: nat) returns (p: nat, escapeChar: int)
    requires begin < |s| && s[begin] != SPACE
    ensures begin <= p <= |s| && forall k :: begin <= k < p ==> s[k] != EQUALS
    ensures p == |s| || s[p] == EQUALS || (p > begin && s[p] == SPACE && s[p - 1] != ESC_CHAR)
    ensures p > begin ==> Stop(s, p) == Stop(s, begin + 1) && (escapeChar == p - 1 <==> s[p - 1] == ESC_CHAR)
    ensures escapeChar < p
  {
    p, escapeChar := begin, -1;
    while p < |s|
      invariant begin <= p <= |s| && escapeChar < p
      invariant p > begin ==> (escapeChar == p - 1 <==> s[p - 1] == ESC_CHAR)
      invariant p > begin ==> Stop(s, p) == Stop(s, begin + 1)
      invariant forall k :: begin <= k < p ==> s[k] != EQUALS
    {
      if s[p] == EQUALS {
        break;
      } else if s[p] == SPACE {
        if p - 1 != escapeChar {
          break;
        }
      } else if s[p] == ESC_CHAR {
        escapeChar := p;
      }
      p := p + 1;
    }
  }

  /** The second loop: up to the end of the token. */
  method SkipValue(s: Text, p: nat, escape: int) returns (c: nat)
    requires 0 < p < |s| && s[p] == EQUALS && escape < p && (escape == p - 1 <==> s[p - 1] == ESC_CHAR)
    ensures c == Stop(s, p) && c > p
  {
    c := p;
    var escapeChar := escape;
    while c < |s|
      invariant p <= c <= |s| && escapeChar < c
      invariant escapeChar == c - 1 <==> s[c - 1] == ESC_CHAR
      invariant Stop(s, c) == Stop(s, p)
    {
      if s[c] == SPACE {
        if c - 1 != escapeChar {
          break;
        }
      } else if s[c] == ESC_CHAR {
        escapeChar := c;
      }
      c := c + 1;
    }
  }

  lemma NameEnds(s: Text, begin: nat, p: nat)
    requires begin <= p <= |s| && begin < |s| && s[begin] != SPACE && forall k :: begin <= k < p ==> s[k] != EQUALS
    requires p > begin ==> Stop(s, p) == Stop(s, begin + 1)
    requires p == |s| || s[p] == EQUALS || (p > begin && s[p] == SPACE && s[p - 1] != ESC_CHAR)
    ensures IsTag(TokenAt(s, begin)) <==> p > begin && p < |s| && s[p] == EQUALS
  {
    var w := TokenAt(s, begin);
    var e := EqualsAt(w);
    assert forall k :: 0 <= k < |w| ==> w[k] == s[begin + k];
    if p < |s| && s[p] == EQUALS {
      if p > begin {
        assert Stop(s, p) == Stop(s, p + 1) > p;
      }
      assert w[p - begin] == EQUALS;
      assert e == p - begin;
    } else {
      assert Stop(s, p) == p;
      assert e == |w|;
    }
  }

  // ---- Sorting -----------------------------------------------------------------------------------

  /** The texts agree up to position `k`, and there `a` ends or has the smaller character. */
  predicate LessAt(a: Text, b: Text, k: nat)
  {
    k <= |a| && k < |b| && a[..k] == b[..k] && (k == |a| || a[k] < b[k])
  }

  /** Dictionary order: a text comes before those it is a prefix of, and otherwise the first difference decides. */
  predicate Less(a: Text, b: Text)
  {
    exists k: nat :: k < |b| && LessAt(a, b, k)
  }

  lemma AgreeTo(a: Text, b: Text, j: nat, k: nat)
    requires j <= k <= |a| && k <= |b| && a[..k] == b[..k]
    ensures a[..j] == b[..j] && (j < k ==> a[j] == b[j])
  {
    assert a[..k][..j] == a[..j] && b[..k][..j] == b[..j];
    assert j < k ==> a[..k][j] == a[j] && b[..k][j] == b[j];
  }

  lemma LessTrans(a: Text, b: Text, c: Text)
    requires Less(a, b) && Less(b, c)
    ensures Less(a, c)
  {
    var j: nat :| j < |b| && LessAt(a, b, j);
    var k: nat :| k < |c| && LessAt(b, c, k);
    var m := if j < k then j else k;
    AgreeTo(a, b, m, j);
    AgreeTo(b, c, m, k);
    assert LessAt(a, c, m);
  }

  lemma LessAsym(a: Text, b: Text)
    ensures !(Less(a, b) && Less(b, a))
  {
    if Less(a, b) && Less(b, a) {
      var j: nat :| j < |b| && LessAt(a, b, j);
      var k: nat :| k < |a| && LessAt(b, a, k);
      var m := if j < k then j else k;
      AgreeTo(a, b, m, j);
      AgreeTo(b, a, m, k);
    }
  }

  lemma {:induction false} LessFrom(a: Text, b: Text, k: nat)
    requires k <= |a| && k <= |b| && a[..k] == b[..k]
    ensures Less(a, b) || a == b || Less(b, a)
    decreases |a| - k
  {
    if k < |a| && k < |b| && a[k] == b[k] {
      assert a[..k + 1] == a[..k] + [a[k]] && b[..k + 1] == b[..k] + [b[k]];
      LessFrom(a, b, k + 1);
    } else if k == |a| == |b| {
      assert a == a[..k] && b == b[..k];
    } else {
      assert LessAt(a, b, k) || LessAt(b, a, k);
    }
  }

  lemma LessTotal(a: Text, b: Text)
    ensures Less(a, b) || a == b || Less(b, a)
  {
    LessFrom(a, b, 0);
  }

  /** A proper prefix comes first. */
  lemma PrefixFirst(a: Text, b: Text)
    requires a < b
    ensures Less(a, b) && !Less(b, a)
  {
    assert LessAt(a, b, |a|);
    LessAsym(a, b);
  }

  predicate NameLess(v: Text, w: Text)
  {
    Less(TagName(v), TagName(w))
  }

  predicate SortedTags(ws: seq<Text>)
  {
    forall i, j :: 0 <= i < j < |ws| ==> !NameLess(ws[j], ws[i])
  }

  /** Neither token reaches the other. */
  predicate Apart(s: Text, t: nat, u: nat)
    requires t < |s| && u < |s|
  {
    (t < u ==> Stop(s, t + 1) <= u) && (u < t ==> Stop(s, u + 1) <= t)
  }

  predicate TagsOk(s: Text, tags: seq<nat>)
  {
    && (forall i :: 0 <= i < |tags| ==> tags[i] < |s| && IsTag(TokenAt(s, tags[i])))
    && (forall i, j :: 0 <= i < j < |tags| ==> tags[i] != tags[j] && Apart(s, tags[i], tags[j]))
  }

  lemma NameChars(s: Text, t: nat, i: nat)
    requires t < |s| && IsTag(TokenAt(s, t)) && i <= |TagName(TokenAt(s, t))|
    ensures t + i < Stop(s, t + 1) <= |s| && (s[t + i] == EQUALS <==> i == |TagName(TokenAt(s, t))|)
    ensures i < |TagName(TokenAt(s, t))| ==> TagName(TokenAt(s, t))[i] == s[t + i]
  {
  }

  /** The comparison that `std::sort` is given; `lhs` and `rhs` are two different tags. */
  method SortPred(s: Text, lhs: nat, rhs: nat) returns (less: bool)
    requires lhs != rhs && lhs < |s| && rhs < |s| && Apart(s, lhs, rhs)
    requires IsTag(TokenAt(s, lhs)) && IsTag(TokenAt(s, rhs))
    ensures less == NameLess(TokenAt(s, lhs), TokenAt(s, rhs))
  {
    ghost var l, r := TagName(TokenAt(s, lhs)), TagName(TokenAt(s, rhs));
    hide TokenAt, TagName, Stop, EqualsAt, IsTag;
    var lenl, lenr := if lhs < rhs then rhs - lhs else |s| - lhs, if lhs < rhs then |s| - rhs else lhs - rhs;
    var i := 0;
    while true
      invariant i <= |l| && i <= |r| && l[..i] == r[..i]
      decreases |s| - i
    {
      NameChars(s, lhs, i);
      NameChars(s, rhs, i);
      if i >= lenl || i >= lenr {
        assert false;
      } else if s[lhs + i] == EQUALS || s[rhs + i] == EQUALS {
        Decided(l, r, i);
        return s[lhs + i] == EQUALS && s[rhs + i] != EQUALS;
      } else if s[lhs + i] < s[rhs + i] {
        Decided(l, r, i);
        return true;
      } else if s[lhs + i] > s[rhs + i] {
        Decided(l, r, i);
        return false;
      }
      assert l[..i + 1] == l[..i] + [l[i]] && r[..i + 1] == r[..i] + [r[i]];
      i := i + 1;
    }
  }

  /** The first difference, or the end of one text, decides. */
  lemma Decided(a: Text, b: Text, k: nat)
    requires k <= |a| && k <= |b| && a[..k] == b[..k] && (k < |a| && k < |b| ==> a[k] != b[k])
    ensures Less(a, b) <==> k < |b| && (k == |a| || a[k] < b[k])
  {
    if k < |b| && (k == |a| || a[k] < b[k]) {
      assert LessAt(a, b, k);
    } else if Less(a, b) {
      var j: nat :| j < |b| && LessAt(a, b, j);
      AgreeTo(a, b, if j < k then j else k, if j < k then k else j);
    }
  }

  function WordsAt(s: Text, tags: seq<nat>): (ws: seq<Text>)
    requires forall i :: 0 <= i < |tags| ==> tags[i] < |s|
    ensures |ws| == |tags| && forall i :: 0 <= i < |tags| ==> ws[i] == TokenAt(s, tags[i])
  {
    seq(|tags|, i requires 0 <= i < |tags| => TokenAt(s, tags[i]))
  }

  function Inserted(sorted: seq<nat>, x: nat, k: nat): (r: seq<nat>)
    requires k <= |sorted|
    ensures multiset(r) == multiset(sorted) + multiset{x} && |r| == |sorted| + 1
    ensures r[k] == x && (forall i :: 0 <= i < k ==> r[i] == sorted[i]) &&
            (forall i :: k < i < |r| ==> r[i] == sorted[i - 1])
  {
    assert sorted == sorted[..k] + sorted[k..];
    sorted[..k] + [x] + sorted[k..]
  }

  /** Where a tag goes: before the first one that is greater. */
  method Place(s: Text, sorted: seq<nat>, x: nat) returns (k: nat)
    requires TagsOk(s, sorted) && SortedTags(WordsAt(s, sorted))
    requires x < |s| && IsTag(TokenAt(s, x)) && forall i :: 0 <= i < |sorted| ==>
             sorted[i] != x && Apart(s, x, sorted[i])
    ensures k <= |sorted| && SortedTags(WordsAt(s, Inserted(sorted, x, k)))
  {
    hide TokenAt, NameLess, IsTag, Apart;
    k := 0;
    while k < |sorted|
      invariant k <= |sorted| && forall i :: 0 <= i < k ==> !NameLess(TokenAt(s, x), TokenAt(s, sorted[i]))
    {
      var before := SortPred(s, x, sorted[k]);
      if before {
        break;
      }
      k := k + 1;
    }
    Placed(s, sorted, x, k);
  }

  lemma Placed(s: Text, sorted: seq<nat>, x: nat, k: nat)
    requires x < |s| && k <= |sorted| && (forall i :: 0 <= i < |sorted| ==> sorted[i] < |s|) &&
             SortedTags(WordsAt(s, sorted))
    requires forall i :: 0 <= i < k ==> !NameLess(TokenAt(s, x), TokenAt(s, sorted[i]))
    requires k < |sorted| ==> NameLess(TokenAt(s, x), TokenAt(s, sorted[k]))
    ensures SortedTags(WordsAt(s, Inserted(sorted, x, k)))
  {
    var ws, v := WordsAt(s, Inserted(sorted, x, k)), WordsAt(s, sorted);
    var w := TokenAt(s, x);
    assert k < |sorted| ==> NameLess(w, v[k]);
    assert forall i :: 0 <= i < k ==> !NameLess(w, v[i]);
    assert ws[k] == w && (forall i :: 0 <= i < k ==> ws[i] == v[i]) && (forall i :: k < i < |ws| ==> ws[i] == v[i - 1]);
    hide *;
    AllAfter(v, w, k);
    InsertedSorted(v, w, k, ws);
  }

  lemma AllAfter(v: seq<Text>, w: Text, k: nat)
    requires SortedTags(v) && k <= |v| && (k < |v| ==> NameLess(w, v[k]))
    ensures forall j :: k <= j < |v| ==> !NameLess(v[j], w)
  {
    hide NameLess;
    forall j | k <= j < |v|
      ensures !NameLess(v[j], w)
    {
      NotLessTrans(v[j], w, v[k]);
    }
  }

  lemma InsertedSorted(v: seq<Text>, w: Text, k: nat, ws: seq<Text>)
    requires SortedTags(v) && k <= |v| && |ws| == |v| + 1
    requires ws[k] == w && (forall i :: 0 <= i < k ==> ws[i] == v[i]) &&
             (forall i :: k < i < |ws| ==> ws[i] == v[i - 1])
    requires (forall i :: 0 <= i < k ==> !NameLess(w, v[i])) && (forall j :: k <= j < |v| ==> !NameLess(v[j], w))
    ensures SortedTags(ws)
  {
    hide NameLess;
    forall i, j | 0 <= i < j < |ws|
      ensures !NameLess(ws[j], ws[i])
    {
      if i == k {
        assert ws[i] == w && ws[j] == v[j - 1];
      } else if j == k {
        assert ws[i] == v[i] && ws[j] == w;
      } else {
        assert !NameLess(v[if j < k then j else j - 1], v[if i < k then i else i - 1]);
      }
    }
  }

  lemma NotLessTrans(a: Text, b: Text, c: Text)
    requires NameLess(b, c) && (a == c || !NameLess(a, c))
    ensures !NameLess(a, b)
  {
    LessAsym(TagName(a), TagName(b));
    if NameLess(a, b) {
      LessTrans(TagName(a), TagName(b), TagName(c));
    }
  }

  lemma WordsInserted(s: Text, sorted: seq<nat>, x: nat, k: nat)
    requires x < |s| && k <= |sorted| && forall i :: 0 <= i < |sorted| ==> sorted[i] < |s|
    ensures multiset(WordsAt(s, Inserted(sorted, x, k))) == multiset(WordsAt(s, sorted)) + multiset{TokenAt(s, x)}
  {
    hide TokenAt;
    var v := WordsAt(s, sorted);
    assert WordsAt(s, Inserted(sorted, x, k)) == v[..k] + [TokenAt(s, x)] + v[k..];
    assert v == v[..k] + v[k..];
  }

  lemma InsertedOk(s: Text, sorted: seq<nat>, x: nat, k: nat)
    requires TagsOk(s, sorted) && k <= |sorted|
    requires x < |s| && IsTag(TokenAt(s, x)) && forall i :: 0 <= i < |sorted| ==>
             sorted[i] != x && Apart(s, x, sorted[i])
    ensures TagsOk(s, Inserted(sorted, x, k))
  {
    hide IsTag, TokenAt, Apart;
    ApartSym(s, sorted, x);
    var r := Inserted(sorted, x, k);
    forall i, j | 0 <= i < j < |r|
      ensures r[i] != r[j] && Apart(s, r[i], r[j])
    {
      if i == k {
        assert r[j] == sorted[j - 1];
      } else if j == k {
        assert r[i] == sorted[i];
      } else {
        assert r[i] == sorted[if i < k then i else i - 1] && r[j] == sorted[if j < k then j else j - 1];
      }
    }
  }

  lemma ApartSym(s: Text, sorted: seq<nat>, x: nat)
    requires x < |s| && forall i :: 0 <= i < |sorted| ==> sorted[i] < |s| && Apart(s, x, sorted[i])
    ensures forall i :: 0 <= i < |sorted| ==> Apart(s, sorted[i], x)
  {
  }

  /** `std::sort` of the tag pointers: some order in which no tag is less than an earlier one. */
  method Sort(s: Text, tags: seq<nat>) returns (sorted: seq<nat>)
    requires TagsOk(s, tags)
    ensures TagsOk(s, sorted) && multiset(sorted) == multiset(tags)
    ensures multiset(WordsAt(s, sorted)) == multiset(WordsAt(s, tags)) && SortedTags(WordsAt(s, sorted))
  {
    NoWords(s);
    sorted := [];
    assert tags[..0] == [] && SortedPart(s, tags, 0, sorted);
    for i := 0 to |tags|
      invariant SortedPart(s, tags, i, sorted)
    {
      OthersApart(s, tags, i, sorted);
      var k := Place(s, sorted, tags[i]);
      SortStep(s, tags, i, sorted, k);
      sorted := Inserted(sorted, tags[i], k);
    }
    assert tags[..|tags|] == tags;
  }

  /** `sorted` is the first `i` tags in order. */
  ghost predicate SortedPart(s: Text, tags: seq<nat>, i: nat, sorted: seq<nat>)
  {
    && i <= |tags| && TagsOk(s, tags) && TagsOk(s, sorted) && multiset(sorted) == multiset(tags[..i])
    && multiset(WordsAt(s, sorted)) == multiset(WordsAt(s, tags[..i])) && SortedTags(WordsAt(s, sorted))
  }

  lemma SortStep(s: Text, tags: seq<nat>, i: nat, sorted: seq<nat>, k: nat)
    requires SortedPart(s, tags, i, sorted) && i < |tags| && k <= |sorted|
    requires SortedTags(WordsAt(s, Inserted(sorted, tags[i], k)))
    ensures SortedPart(s, tags, i + 1, Inserted(sorted, tags[i], k))
  {
    var x := tags[i];
    OthersApart(s, tags, i, sorted);
    WordsInserted(s, sorted, x, k);
    PrefixWords(s, tags, i);
    InsertedOk(s, sorted, x, k);
    hide IsTag, TokenAt, Apart, NameLess, WordsAt, Inserted, SortedTags, TagsOk;
  }

  lemma PrefixWords(s: Text, tags: seq<nat>, i: nat)
    requires i < |tags| && forall j :: 0 <= j < |tags| ==> tags[j] < |s|
    ensures multiset(tags[..i + 1]) == multiset(tags[..i]) + multiset{tags[i]}
    ensures multiset(WordsAt(s, tags[..i + 1])) == multiset(WordsAt(s, tags[..i])) + multiset{TokenAt(s, tags[i])}
  {
    hide TokenAt;
    assert tags[..i + 1] == tags[..i] + [tags[i]];
    assert WordsAt(s, tags[..i + 1]) == WordsAt(s, tags[..i]) + [TokenAt(s, tags[i])];
  }

  lemma NoWords(s: Text)
    ensures WordsAt(s, []) == []
  {
  }

  lemma OthersApart(s: Text, tags: seq<nat>, i: nat, sorted: seq<nat>)
    requires TagsOk(s, tags) && i < |tags| && multiset(sorted) == multiset(tags[..i])
    ensures forall j :: 0 <= j < |sorted| ==> sorted[j] < |s| && sorted[j] != tags[i] && Apart(s, tags[i], sorted[j])
  {
    hide IsTag, TokenAt;
    forall j | 0 <= j < |sorted|
      ensures sorted[j] < |s| && sorted[j] != tags[i] && Apart(s, tags[i], sorted[j])
    {
      assert sorted[j] in multiset(sorted);
      assert sorted[j] in tags[..i];
      var k :| 0 <= k < i && tags[k] == sorted[j];
    }
  }

  // ---- The canonical form ------------------------------------------------------------------------

  datatype Result = Canonical(out: Text, key: nat) | BadArg | BadData

  /** The tag tokens that are looked at: the first 32. */
  function Used(s: Text): seq<Text>
  {
    var ts := Tokens(s, 0);
    if |ts| <= 1 then [] else if |ts| - 1 <= LIMITS_MAX_TAGS then ts[1..] else ts[1..LIMITS_MAX_TAGS + 1]
  }

  predicate Accepts(s: Text, outSize: nat)
  {
    && |s| <= LIMITS_MAX_SNAME && |s| <= outSize && |Tokens(s, 0)| >= 2
    && forall i :: 0 <= i < |Used(s)| ==> IsTag(Used(s)[i])
  }

  function Flat(ws: seq<Text>): Text
  {
    if |ws| == 0 then [] else Flat(ws[..|ws| - 1]) + ([SPACE] + ws[|ws| - 1])
  }

  /** The metric, then each tag after a space. */
  predicate IsForm(out: Text, metric: Text, ts: seq<Text>)
  {
    out == metric + Flat(ts) && SortedTags(ts)
  }

  lemma TokensSkip(s: Text, p: nat)
    requires p <= |s|
    ensures Tokens(s, p) == Tokens(s, SkipBlank(s, p)) && SkipBlank(s, SkipBlank(s, p)) == SkipBlank(s, p)
  {
  }

  lemma NextToken(s: Text, p: nat)
    requires p < |s| && !Blank(s[p])
    ensures Tokens(s, p) == [TokenAt(s, p)] + Tokens(s, SkipBlank(s, Stop(s, p + 1)))
  {
    TokensSkip(s, Stop(s, p + 1));
  }

  predicate Before(s: Text, tags: seq<nat>, it: nat)
  {
    && TagsOk(s, tags)
    && forall i :: 0 <= i < |tags| ==> Stop(s, tags[i] + 1) <= it && !Blank(s[tags[i]])
  }

  /** The tags found so far: they lie before `it`, and their tokens come first. */
  ghost predicate Parsed(s: Text, start: nat, tags: seq<nat>, it: nat)
  {
    && start <= it <= |s| && (it < |s| ==> !Blank(s[it])) && Before(s, tags, it)
    && Tokens(s, start) == WordsAt(s, tags) + Tokens(s, it)
  }

  lemma ParsedMore(s: Text, start: nat, tags: seq<nat>, it: nat)
    requires Parsed(s, start, tags, it) && it < |s| && IsTag(TokenAt(s, it))
    ensures Parsed(s, start, tags + [it], SkipBlank(s, Stop(s, it + 1)))
  {
    NextToken(s, it);
    MoreTags(s, tags, it, SkipBlank(s, Stop(s, it + 1)));
    MoreWords(s, tags, it);
    hide *;
    RegroupWords(WordsAt(s, tags), TokenAt(s, it), Tokens(s, SkipBlank(s, Stop(s, it + 1))));
  }

  lemma MoreWords(s: Text, tags: seq<nat>, it: nat)
    requires it < |s| && forall i :: 0 <= i < |tags| ==> tags[i] < |s|
    ensures WordsAt(s, tags + [it]) == WordsAt(s, tags) + [TokenAt(s, it)]
  {
    hide TokenAt;
  }

  lemma MoreTags(s: Text, tags: seq<nat>, it: nat, next: nat)
    requires Before(s, tags, it) && it < |s| && !Blank(s[it]) && IsTag(TokenAt(s, it)) && it < Stop(s, it + 1) <= next
    ensures Before(s, tags + [it], next)
  {
    hide IsTag, TokenAt, Stop, Inserted, TagsOk;
    EarlierApart(s, tags, it);
    InsertedOk(s, tags, it, |tags|);
    InsertedLast(tags, it);
    var tags' := tags + [it];
    assert forall i :: 0 <= i < |tags| ==> tags'[i] == tags[i];
  }

  lemma EarlierApart(s: Text, tags: seq<nat>, it: nat)
    requires Before(s, tags, it) && it < |s|
    ensures forall i :: 0 <= i < |tags| ==> tags[i] < |s| && tags[i] != it && Apart(s, it, tags[i])
  {
    hide IsTag, TokenAt, Stop;
  }

  lemma InsertedLast(tags: seq<nat>, it: nat)
    ensures Inserted(tags, it, |tags|) == tags + [it]
  {
  }

  lemma RegroupWords(a: seq<Text>, w: Text, b: seq<Text>)
    ensures a + ([w] + b) == (a + [w]) + b
  {
  }

  /** The loop over the tags. */
  method ParseTags(s: Text, start: nat) returns (tags: seq<nat>, error: bool, ghost it: nat)
    requires start < |s| && !Blank(s[start])
    ensures |tags| <= LIMITS_MAX_TAGS && Parsed(s, start, tags, it)
    ensures error ==> |tags| < LIMITS_MAX_TAGS && it < |s| && !IsTag(TokenAt(s, it))
    ensures !error ==> |tags| > 0 && (it < |s| ==> |tags| == LIMITS_MAX_TAGS)
  {
    hide IsTag, TokenAt, Stop, Tokens, WordsAt;
    tags, error := [], false;
    NoWords(s);
    assert [] + Tokens(s, start) == Tokens(s, start);
    var p := start;
    it := p;
    while p < |s| && |tags| < LIMITS_MAX_TAGS
      invariant p == it && |tags| <= LIMITS_MAX_TAGS && !error && Parsed(s, start, tags, p)
      invariant |tags| == 0 ==> p < |s|
      decreases |s| - p
    {
      var q;
      q, error := SkipTag(s, p);
      if !error {
        ParsedMore(s, start, tags, p);
      }
      q := SkipSpace(s, q);
      if error {
        break;
      }
      tags := tags + [p];
      p := q;
      it := p;
    }
  }

  method WriteTags(s: Text, sorted: seq<nat>, metric: Text) returns (out: Text)
    requires forall i :: 0 <= i < |sorted| ==> sorted[i] < |s|
    ensures out == metric + Flat(WordsAt(s, sorted))
  {
    hide TokenAt, WordsAt;
    ghost var ws := WordsAt(s, sorted);
    assert ws[..0] == [];
    out := metric;
    for i := 0 to |sorted|
      invariant out == metric + Flat(ws[..i])
    {
      FlatSnoc(ws, i);
      RegroupText(metric, Flat(ws[..i]), [SPACE], ws[i]);
      out := out + [SPACE];
      var end;
      end, out := CopyUntil(s, sorted[i], out);
    }
    assert ws[..|sorted|] == ws;
  }

  lemma FlatSnoc(ws: seq<Text>, i: nat)
    requires i < |ws|
    ensures Flat(ws[..i + 1]) == Flat(ws[..i]) + ([SPACE] + ws[i])
  {
    assert ws[..i + 1][..i] == ws[..i];
  }

  lemma RegroupText(a: Text, b: Text, c: Text, d: Text)
    ensures a + (b + (c + d)) == ((a + b) + c) + d
  {
  }

  lemma {:induction false} FlatCons(w: Text, ws: seq<Text>)
    ensures Flat([w] + ws) == [SPACE] + (w + Flat(ws))
  {
    var all := [w] + ws;
    if |ws| > 0 {
      var n := |ws| - 1;
      assert all[..|all| - 1] == [w] + ws[..n];
      FlatCons(w, ws[..n]);
      assert ([SPACE] + (w + Flat(ws[..n]))) + ([SPACE] + ws[n]) == [SPACE] + (w + (Flat(ws[..n]) + ([SPACE] + ws[n])));
    } else {
      assert all[..0] == [];
      assert all[0] == w;
    }
  }

  // ---- The form is never longer than the name ----------------------------------------------------

  function Length(ws: seq<Text>): nat
  {
    if |ws| == 0 then 0 else 1 + |ws[0]| + Length(ws[1..])
  }

  lemma HeadTail(ws: seq<Text>)
    requires |ws| > 0
    ensures [ws[0]] + ws[1..] == ws
  {
  }

  lemma LengthCons(w: Text, ws: seq<Text>)
    ensures Length([w] + ws) == 1 + |w| + Length(ws)
  {
    assert ([w] + ws)[1..] == ws;
  }

  lemma {:induction false} FlatLength(ws: seq<Text>)
    ensures |Flat(ws)| == Length(ws)
  {
    if |ws| > 0 {
      FlatLength(ws[1..]);
      FlatCons(ws[0], ws[1..]);
      HeadTail(ws);
    }
  }

  lemma {:induction false} LengthWithout(ws: seq<Text>, k: nat)
    requires k < |ws|
    ensures Length(ws) == 1 + |ws[k]| + Length(ws[..k] + ws[k + 1..])
  {
    if k > 0 {
      LengthWithout(ws[1..], k - 1);
      var rest := ws[..k] + ws[k + 1..];
      assert rest[0] == ws[0] && rest[1..] == ws[1..][..k - 1] + ws[1..][k..];
    } else {
      assert ws[..0] + ws[1..] == ws[1..];
    }
  }

  lemma WithoutSame(a: seq<Text>, b: seq<Text>) returns (k: nat)
    requires multiset(a) == multiset(b) && |a| > 0
    ensures k < |b| && b[k] == a[0] && multiset(a[1..]) == multiset(b[..k] + b[k + 1..])
  {
    assert a[0] in multiset(a);
    assert a[0] in b;
    k :| 0 <= k < |b| && b[k] == a[0];
    Without(a, 0);
    Without(b, k);
    assert a[..0] + a[1..] == a[1..];
    CancelOne(a[0], multiset(a[1..]), multiset(b[..k] + b[k + 1..]));
  }

  lemma Without(ws: seq<Text>, k: nat)
    requires k < |ws|
    ensures multiset(ws) == multiset{ws[k]} + multiset(ws[..k] + ws[k + 1..])
  {
    assert ws == ws[..k] + [ws[k]] + ws[k + 1..];
  }

  lemma CancelOne(w: Text, a: multiset<Text>, b: multiset<Text>)
    requires multiset{w} + a == multiset{w} + b
    ensures a == b
  {
    assert a == (multiset{w} + a) - multiset{w};
    assert b == (multiset{w} + b) - multiset{w};
  }

  lemma {:induction false} LengthSame(a: seq<Text>, b: seq<Text>)
    requires multiset(a) == multiset(b)
    ensures Length(a) == Length(b)
    decreases |a|
  {
    if |a| > 0 {
      var k := WithoutSame(a, b);
      LengthSame(a[1..], b[..k] + b[k + 1..]);
      LengthWithout(b, k);
    } else {
      assert |b| == |multiset(b)| == |multiset(a)| == 0;
    }
  }

  lemma {:induction false} LengthPrefix(ws: seq<Text>, n: nat)
    requires n <= |ws|
    ensures Length(ws[..n]) <= Length(ws)
  {
    if n > 0 {
      LengthPrefix(ws[1..], n - 1);
      assert ws[..n][1..] == ws[1..][..n - 1];
    }
  }

  /** Behind every token boundary there is a blank to pay for the space. */
  lemma {:induction false} TokensFit(s: Text, p: nat)
    requires p <= |s| && (p < |s| ==> Blank(s[p]))
    ensures Length(Tokens(s, p)) <= |s| - p
    decreases |s| - p
  {
    var q := SkipBlank(s, p);
    if q < |s| {
      var e := Stop(s, q + 1);
      assert Tokens(s, p) == [TokenAt(s, q)] + Tokens(s, e) && |TokenAt(s, q)| == e - q;
      TokensFit(s, e);
      hide Tokens, TokenAt, Stop, SkipBlank;
      LengthCons(TokenAt(s, q), Tokens(s, e));
    }
  }

  lemma FormFits(s: Text, ts: seq<Text>)
    requires |Tokens(s, 0)| > 0 && multiset(ts) == multiset(Used(s))
    ensures |Tokens(s, 0)[0]| + |Flat(ts)| <= |s|
  {
    hide *;
    var e := FirstToken(s);
    TokensFit(s, e);
    UsedLength(s);
    LengthSame(ts, Used(s));
    FlatLength(ts);
  }

  lemma FirstToken(s: Text) returns (e: nat)
    requires |Tokens(s, 0)| > 0
    ensures e <= |s| && (e < |s| ==> Blank(s[e])) && |Tokens(s, 0)[0]| <= e && Tokens(s, 0)[1..] == Tokens(s, e)
  {
    var q := SkipBlank(s, 0);
    e := Stop(s, q + 1);
    assert Tokens(s, 0) == [TokenAt(s, q)] + Tokens(s, e);
    hide Tokens, SkipBlank, Stop;
    DropHead(TokenAt(s, q), Tokens(s, e));
  }

  lemma DropHead(w: Text, ws: seq<Text>)
    ensures ([w] + ws)[1..] == ws && ([w] + ws)[0] == w
  {
  }

  lemma UsedLength(s: Text)
    requires |Tokens(s, 0)| > 0
    ensures Length(Used(s)) <= Length(Tokens(s, 0)[1..])
  {
    hide Tokens, Length;
    var all := Tokens(s, 0);
    if |all| - 1 <= LIMITS_MAX_TAGS {
      assert |all| == 1 ==> Used(s) == all[1..];
    } else {
      LengthPrefix(all[1..], LIMITS_MAX_TAGS);
      assert all[1..][..LIMITS_MAX_TAGS] == all[1..LIMITS_MAX_TAGS + 1];
    }
  }

  // ---- `to_canonical_form` -----------------------------------------------------------------------

  lemma FirstTokens(s: Text, q: nat, start: nat)
    requires q == SkipBlank(s, 0) && q < |s| && start == SkipBlank(s, Stop(s, q + 1))
    ensures Tokens(s, 0) == [TokenAt(s, q)] + Tokens(s, start) && (|Tokens(s, 0)| >= 2 <==> start < |s|)
  {
    TokensSkip(s, 0);
    NextToken(s, q);
    if start < |s| {
      NextToken(s, start);
    }
  }

  lemma UsedTags(s: Text, q: nat, start: nat, tags: seq<nat>, it: nat)
    requires q == SkipBlank(s, 0) && q < |s| && start == SkipBlank(s, Stop(s, q + 1)) < |s|
    requires Parsed(s, start, tags, it) && |tags| <= LIMITS_MAX_TAGS
    ensures it < |s| && |tags| < LIMITS_MAX_TAGS ==> |Used(s)| > |tags| && Used(s)[|tags|] == TokenAt(s, it)
    ensures it == |s| || |tags| == LIMITS_MAX_TAGS ==> Used(s) == WordsAt(s, tags)
  {
    FirstTokens(s, q, start);
    var ws, rest := WordsAt(s, tags), Tokens(s, it);
    if it < |s| {
      NextToken(s, it);
    }
    assert it == |s| ==> rest == [];
    hide TokenAt, WordsAt, IsTag, Tokens, Stop, SkipBlank, TagsOk;
    UsedOf(s, TokenAt(s, q), ws, rest);
  }

  lemma UsedOf(s: Text, metric: Text, ws: seq<Text>, rest: seq<Text>)
    requires Tokens(s, 0) == [metric] + (ws + rest) && |ws| <= LIMITS_MAX_TAGS
    ensures |ws| < LIMITS_MAX_TAGS && |rest| > 0 ==> |Used(s)| > |ws| && Used(s)[|ws|] == rest[0]
    ensures |rest| == 0 || |ws| == LIMITS_MAX_TAGS ==> Used(s) == ws
  {
    hide Tokens;
    var all := Tokens(s, 0);
    assert all[1..] == ws + rest;
    assert |all| - 1 > LIMITS_MAX_TAGS ==> all[1..LIMITS_MAX_TAGS + 1] == (ws + rest)[..LIMITS_MAX_TAGS];
    if |all| <= 1 {
      assert ws == [];
    }
  }

  lemma TooFew(s: Text, q: nat)
    requires q == SkipBlank(s, 0) && (q < |s| ==> SkipBlank(s, Stop(s, q + 1)) == |s|)
    ensures |Tokens(s, 0)| < 2
  {
    if q < |s| {
      FirstTokens(s, q, |s|);
    }
  }

  /** A tag starts with neither a blank nor a '='. */
  predicate StartsPlain(ws: seq<Text>)
  {
    forall i :: 0 <= i < |ws| ==> |ws[i]| > 0 && !Blank(ws[i][0])
  }

  lemma ParsedTags(s: Text, start: nat, tags: seq<nat>, it: nat)
    requires Parsed(s, start, tags, it)
    ensures TagsOk(s, tags) && StartsPlain(WordsAt(s, tags))
    ensures forall i :: 0 <= i < |tags| ==> IsTag(WordsAt(s, tags)[i])
  {
  }

  lemma AfterMetric(metric: Text, w: Text, rest: Text)
    requires |w| > 0 && !Blank(w[0])
    ensures SkipBlank(metric + ([SPACE] + (w + rest)), |metric|) == |metric| + 1
  {
    var out, n := metric + ([SPACE] + (w + rest)), |metric|;
    assert out[n] == SPACE && out[n + 1] == w[0];
    assert SkipBlank(out, n) == SkipBlank(out, n + 1);
  }

  lemma KeyStarts(metric: Text, ts: seq<Text>, out: Text)
    requires out == metric + Flat(ts) && |ts| > 0 && StartsPlain(ts)
    ensures |metric| <= |out| && SkipBlank(out, |metric|) == |metric| + 1
  {
    HeadTail(ts);
    FlatCons(ts[0], ts[1..]);
    hide *;
    AfterMetric(metric, ts[0], Flat(ts[1..]));
  }

  lemma {:induction false} PlainSame(a: seq<Text>, b: seq<Text>)
    requires multiset(a) == multiset(b) && StartsPlain(a)
    ensures StartsPlain(b) && |a| == |b|
  {
    assert |a| == |multiset(a)| == |b|;
    forall i | 0 <= i < |b|
      ensures |b[i]| > 0 && !Blank(b[i][0])
    {
      assert b[i] in multiset(b);
      assert b[i] in a;
    }
  }

  lemma SortedPrefixes(out: Text, metric: Text, ts: seq<Text>)
    requires IsForm(out, metric, ts)
    ensures forall i, j :: 0 <= i < j < |ts| ==> !(TagName(ts[j]) < TagName(ts[i]))
  {
    hide TagName, Flat;
    forall i, j | 0 <= i < j < |ts|
      ensures !(TagName(ts[j]) < TagName(ts[i]))
    {
      if TagName(ts[j]) < TagName(ts[i]) {
        PrefixFirst(TagName(ts[j]), TagName(ts[i]));
      }
    }
  }

  lemma UsedCount(s: Text, ts: seq<Text>)
    requires multiset(ts) == multiset(Used(s)) && |Tokens(s, 0)| >= 1
    ensures |ts| == if |Tokens(s, 0)| <= 33 then |Tokens(s, 0)| - 1 else 32
  {
    hide Tokens;
    assert |ts| == |multiset(ts)| == |Used(s)|;
  }

  /** `SeriesParser::to_canonical_form`: the metric and the first 32 tags, sorted by their names; a name comes before
      those it is a prefix of. */
  method ToCanonicalForm(s: Text, outSize: nat) returns (r: Result, ghost ts: seq<Text>)
    ensures r.Canonical? <==> Accepts(s, outSize)
    ensures (r.BadArg? <==> |s| <= 4096 && |s| > outSize) && (|s| > 4096 ==> r.BadData?)
    ensures r.Canonical? ==> multiset(ts) == multiset(Used(s)) && IsForm(r.out, Tokens(s, 0)[0], ts)
    ensures r.Canonical? ==> |ts| == if |Tokens(s, 0)| <= 33 then |Tokens(s, 0)| - 1 else 32
    ensures r.Canonical? ==> forall i, j :: 0 <= i < j < |ts| ==> !(TagName(ts[j]) < TagName(ts[i]))
    ensures r.Canonical? ==> r.key == |Tokens(s, 0)[0]| + 1 && |r.out| <= |s|
  {
    ts := [];
    if |s| > LIMITS_MAX_SNAME {
      return BadData, ts;
    }
    if |s| > outSize {
      return BadArg, ts;
    }
    hide TokenAt, WordsAt, IsTag, Stop, SortedTags, Used, Tokens, Parsed, IsForm, TagsOk, StartsPlain;
    var q := SkipSpace(s, 0);
    var it, metric := CopyUntil(s, q, []);
    it := SkipSpace(s, it);
    if it == |s| {
      TooFew(s, q);
      return BadData, ts;
    }
    assert q < |s|;
    FirstTokens(s, q, it);
    assert metric == [] + TokenAt(s, q) == TokenAt(s, q) == Tokens(s, 0)[0];
    var tags, error, end := ParseTags(s, it);
    UsedTags(s, q, it, tags, end);
    if error || |tags| == 0 {
      return BadData, ts;
    }
    ParsedTags(s, it, tags, end);
    var out, key;
    out, key, ts := Emit(s, metric, tags);
    FormFits(s, ts);
    SortedPrefixes(out, metric, ts);
    UsedCount(s, ts);
    r := Canonical(out, key);
  }

  /** Sort the tags and write the form. */
  method Emit(s: Text, metric: Text, tags: seq<nat>) returns (out: Text, key: nat, ghost ts: seq<Text>)
    requires TagsOk(s, tags) && StartsPlain(WordsAt(s, tags)) && |tags| > 0
    ensures multiset(ts) == multiset(WordsAt(s, tags)) && IsForm(out, metric, ts) && key == |metric| + 1
  {
    hide TokenAt, WordsAt, IsTag, Stop, SortedTags, Flat, StartsPlain;
    var sorted := Sort(s, tags);
    ts := WordsAt(s, sorted);
    out := WriteTags(s, sorted, metric);
    PlainSame(WordsAt(s, tags), ts);
    KeyStarts(metric, ts, out);
    key := SkipSpace(out, |metric|);
  }
}
