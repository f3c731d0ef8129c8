/** What canonical series names are for: one name for every spelling of the same metric and tags. */
module SeriesForm {
  import opened SeriesName

  // ---- One sorted order --------------------------------------------------------------------------

  /** A tag name stands for one tag. */
  ghost predicate DistinctTags(m: multiset<Text>)
  {
    forall v, w :: v in m && w in m && TagName(v) == TagName(w) ==> v == w
  }

  lemma DistinctTail(ws: seq<Text>)
    requires DistinctTags(multiset(ws)) && |ws| > 0
    ensures DistinctTags(multiset(ws[1..]))
  {
    hide TagName;
    HeadRemoved(ws);
  }

  lemma SortedTail(ws: seq<Text>)
    requires SortedTags(ws) && |ws| > 0
    ensures SortedTags(ws[1..])
  {
    hide NameLess;
  }

  lemma SameFirst(a: seq<Text>, b: seq<Text>)
    requires multiset(a) == multiset(b) && SortedTags(a) && SortedTags(b) && DistinctTags(multiset(a)) && |a| > 0 &&
             |b| > 0
    ensures a[0] == b[0]
  {
    var k := WithoutSame(a, b);
    var m := WithoutSame(b, a);
    assert a[0] in multiset(a) && b[0] in multiset(b);
    LessTotal(TagName(a[0]), TagName(b[0]));
    assert m > 0 ==> !NameLess(a[m], a[0]);
    assert k > 0 ==> !NameLess(b[k], b[0]);
  }

  lemma SameRest(a: seq<Text>, b: seq<Text>)
    requires multiset(a) == multiset(b) && |a| > 0 && |b| > 0 && a[0] == b[0]
    ensures multiset(a[1..]) == multiset(b[1..])
  {
    HeadRemoved(a);
    HeadRemoved(b);
    CancelOne(a[0], multiset(a[1..]), multiset(b[1..]));
  }

  lemma HeadRemoved(ws: seq<Text>)
    requires |ws| > 0
    ensures multiset(ws) == multiset{ws[0]} + multiset(ws[1..])
  {
    HeadTail(ws);
  }

  /** There is only one sorted order when no tag name repeats. */
  lemma {:induction false} SortedUnique(a: seq<Text>, b: seq<Text>)
    requires multiset(a) == multiset(b) && SortedTags(a) && SortedTags(b) && DistinctTags(multiset(a))
    ensures a == b
    decreases |a|
  {
    hide SortedTags, DistinctTags;
    assert |a| == |multiset(a)| == |multiset(b)| == |b|;
    if |a| > 0 {
      SameFirst(a, b);
      SameRest(a, b);
      SortedTail(a);
      SortedTail(b);
      DistinctTail(a);
      SortedUnique(a[1..], b[1..]);
      HeadTail(a);
      HeadTail(b);
    }
  }

  /** Two tags of a sorted list that have one name change places. */
  lemma Swapped(a: seq<Text>, i: nat, j: nat) returns (b: seq<Text>)
    requires SortedTags(a) && i < j < |a| && TagName(a[i]) == TagName(a[j])
    ensures multiset(b) == multiset(a) && SortedTags(b) && |b| == |a| && b[i] == a[j]
  {
    hide TagName, Less;
    b := a[i := a[j]][j := a[i]];
    assert forall k :: 0 <= k < |a| ==> TagName(b[k]) == TagName(a[k]);
  }

  /** So there is only one sorted order if and only if no tag name stands for two tags. */
  lemma OneOrder(a: seq<Text>)
    requires SortedTags(a)
    ensures DistinctTags(multiset(a)) <==> forall b :: multiset(b) == multiset(a) && SortedTags(b) ==> b == a
  {
    hide SortedTags, TagName;
    if DistinctTags(multiset(a)) {
      forall b | multiset(b) == multiset(a) && SortedTags(b)
        ensures b == a
      {
        SortedUnique(a, b);
      }
    } else {
      var v, w :| v in multiset(a) && w in multiset(a) && TagName(v) == TagName(w) && v != w;
      var i :| 0 <= i < |a| && a[i] == v;
      var j :| 0 <= j < |a| && a[j] == w;
      var b := Swapped(a, if i < j then i else j, if i < j then j else i);
    }
  }

  // ---- Words and what is between them ------------------------------------------------------------

  predicate Blanks(g: Text)
  {
    forall i :: 0 <= i < |g| ==> Blank(g[i])
  }

  /** A word that is one token up to the end of the text: it starts plainly, and a space in it is escaped. */
  predicate Solid(w: Text)
  {
    |w| > 0 && !Blank(w[0]) && forall k: nat {:trigger Escaped(w, k)} :: k < |w| ==> Escaped(w, k)
  }

  predicate Escaped(s: Text, k: nat)
  {
    0 < k < |s| && s[k] == SPACE ==> s[k - 1] == ESC_CHAR
  }

  /** It ends in an escape character. */
  predicate Open(w: Text)
  {
    |w| > 0 && w[|w| - 1] == ESC_CHAR
  }

  /** Each word with the blanks behind it. */
  function Spaced(ws: seq<Text>, gs: seq<Text>): Text
    requires |ws| == |gs|
  {
    if |ws| == 0 then [] else ws[0] + (gs[0] + Spaced(ws[1..], gs[1..]))
  }

  /** Words with blanks between them, and maybe behind the last; one that blanks follow does not end in an escape. */
  predicate WellSpaced(ws: seq<Text>, gs: seq<Text>)
  {
    && |ws| == |gs|
    && (forall i :: 0 <= i < |ws| ==> Solid(ws[i]) && Blanks(gs[i]) && (|gs[i]| > 0 ==> !Open(ws[i])))
    && (forall i :: 0 <= i < |ws| - 1 ==> |gs[i]| > 0)
  }

  /** The first blank behind every word is a space. */
  predicate SpacesFirst(gs: seq<Text>)
  {
    forall i :: 0 <= i < |gs| ==> |gs[i]| == 0 || gs[i][0] == SPACE
  }

  /** A token ends behind its word at a space or at the end, and goes on over a tab. */
  lemma {:induction false} StopBehind(s: Text, p: nat, w: Text, q: nat)
    requires p + |w| <= |s| && s[p..p + |w|] == w && Solid(w) && p < q <= p + |w|
    requires p + |w| < |s| ==> !Open(w)
    ensures if p + |w| == |s| || s[p + |w|] == SPACE then Stop(s, q) == p + |w| else Stop(s, q) > p + |w|
    decreases p + |w| - q
  {
    assert s[p + |w| - 1] == w[|w| - 1];
    if q < p + |w| {
      assert s[q] == w[q - p] && s[q - 1] == w[q - p - 1] && Escaped(w, q - p);
      StopBehind(s, p, w, q + 1);
    }
  }

  lemma {:induction false} SkipBlanks(s: Text, e: nat, k: nat)
    requires e + k <= |s| && (forall i :: e <= i < e + k ==> Blank(s[i])) && (e + k < |s| ==> !Blank(s[e + k]))
    ensures SkipBlank(s, e) == e + k
    decreases k
  {
    if k > 0 {
      SkipBlanks(s, e + 1, k - 1);
    }
  }

  /** Position `p` of a text where the word `w`, the blanks `g` and then `rest` follow. */
  lemma Pieces(s: Text, p: nat, w: Text, g: Text, rest: Text)
    requires p <= |s| && s[p..] == w + (g + rest)
    ensures var e := p + |w|;
            && e + |g| + |rest| == |s| && s[p..e] == w && s[e + |g|..] == rest
            && (forall i :: e <= i < e + |g| ==> s[i] == g[i - e]) && (|rest| > 0 ==> s[e + |g|] == rest[0])
            && (|w| > 0 ==> s[p] == w[0])
  {
    var t := s[p..];
    assert t[..|w|] == w && t[|w| + |g|..] == rest;
    assert s[p..p + |w|] == t[..|w|] && s[p + |w| + |g|..] == t[|w| + |g|..];
    forall i | p + |w| <= i < p + |w| + |g|
      ensures s[i] == g[i - p - |w|]
    {
      assert s[i] == t[i - p];
    }
    assert |rest| > 0 ==> s[p + |w| + |g|] == t[|w| + |g|];
    assert |w| > 0 ==> s[p] == t[0];
  }

  lemma SpacedStart(ws: seq<Text>, gs: seq<Text>)
    requires WellSpaced(ws, gs)
    ensures |ws| > 0 ==> |Spaced(ws, gs)| > 0 && !Blank(Spaced(ws, gs)[0])
  {
    hide Spaced;
    assert |ws| > 0 ==> Solid(ws[0]);
    SpacedHead(ws, gs);
  }

  lemma SpacedHead(ws: seq<Text>, gs: seq<Text>)
    requires |ws| == |gs|
    ensures |ws| > 0 ==> Spaced(ws, gs) == ws[0] + (gs[0] + Spaced(ws[1..], gs[1..]))
    ensures |ws| > 0 && |ws[0]| > 0 ==> |Spaced(ws, gs)| > 0 && Spaced(ws, gs)[0] == ws[0][0]
    ensures |ws| == 0 ==> Spaced(ws, gs) == []
  {
  }

  lemma WellSpacedTail(ws: seq<Text>, gs: seq<Text>)
    requires WellSpaced(ws, gs) && |ws| > 0
    ensures WellSpaced(ws[1..], gs[1..]) && Solid(ws[0]) && Blanks(gs[0]) && (|gs[0]| > 0 ==> !Open(ws[0]))
    ensures |gs[0]| == 0 ==> |ws| == 1
    ensures SpacesFirst(gs) <==> SpacesFirst(gs[1..]) && (|gs[0]| == 0 || gs[0][0] == SPACE)
  {
    hide Solid, Open, Blanks;
    if SpacesFirst(gs[1..]) && (|gs[0]| == 0 || gs[0][0] == SPACE) {
      forall i | 0 <= i < |gs|
        ensures |gs[i]| == 0 || gs[i][0] == SPACE
      {
        assert i > 0 ==> gs[i] == gs[1..][i - 1];
      }
    }
  }

  /** One token, with what is behind it. */
  lemma TokenStep(s: Text, p: nat, w: Text, g: Text, rest: Text)
    requires p <= |s| && s[p..] == w + (g + rest) && Solid(w) && Blanks(g) && (|g| > 0 ==> !Open(w))
    requires |g| == 0 ==> |rest| == 0
    requires |rest| > 0 ==> !Blank(rest[0])
    ensures p < |s| && p + |w| + |g| <= |s| && s[p + |w| + |g|..] == rest && |Tokens(s, p)| > 0
    ensures |g| == 0 || g[0] == SPACE ==> Tokens(s, p) == [w] + Tokens(s, p + |w| + |g|)
    ensures |g| > 0 && g[0] != SPACE ==> Tokens(s, p)[0] != w
  {
    hide Tokens, Stop, SkipBlank;
    Pieces(s, p, w, g, rest);
    StopBehind(s, p, w, p + 1);
    SkipBlanks(s, p + |w|, |g|);
    NextToken(s, p);
  }

  /** The tokens of such a text are its words exactly when the first blank behind every word is a space. */
  lemma {:induction false} TokensOfSpaced(s: Text, p: nat, ws: seq<Text>, gs: seq<Text>)
    requires p <= |s| && |ws| == |gs| && WellSpaced(ws, gs) && s[p..] == Spaced(ws, gs)
    ensures Tokens(s, p) == ws <==> SpacesFirst(gs)
    decreases |ws|
  {
    hide *;
    SpacedHead(ws, gs);
    if |ws| == 0 {
      NoGaps(gs);
      EndOfTokens(s, p);
    } else {
      WellSpacedTail(ws, gs);
      SpacedHead(ws[1..], gs[1..]);
      SpacedStart(ws[1..], gs[1..]);
      TokenStep(s, p, ws[0], gs[0], Spaced(ws[1..], gs[1..]));
      if |gs[0]| == 0 || gs[0][0] == SPACE {
        var q := p + |ws[0]| + |gs[0]|;
        TokensOfSpaced(s, q, ws[1..], gs[1..]);
        SameHead(ws[0], Tokens(s, q), ws);
      }
    }
  }

  lemma NoGaps(gs: seq<Text>)
    ensures |gs| == 0 ==> SpacesFirst(gs)
  {
  }

  lemma EndOfTokens(s: Text, p: nat)
    requires p <= |s| && s[p..] == []
    ensures Tokens(s, p) == []
  {
  }

  lemma SameHead(w: Text, rest: seq<Text>, ws: seq<Text>)
    requires |ws| > 0 && ws[0] == w
    ensures [w] + rest == ws <==> rest == ws[1..]
  {
    HeadTail(ws);
    DropHead(w, rest);
  }

  /** The same with blanks in front. */
  lemma TokensOfText(lead: Text, ws: seq<Text>, gs: seq<Text>)
    requires Blanks(lead) && |ws| == |gs| && WellSpaced(ws, gs)
    ensures Tokens(lead + Spaced(ws, gs), 0) == ws <==> SpacesFirst(gs)
  {
    hide WellSpaced, SpacesFirst, Spaced, Tokens, SkipBlank;
    var s, body := lead + Spaced(ws, gs), Spaced(ws, gs);
    assert s[|lead|..] == body;
    SpacedStart(ws, gs);
    NoWordsNoText(ws, gs);
    assert |body| > 0 ==> s[|lead|] == body[0];
    SkipBlanks(s, 0, |lead|);
    TokensSkip(s, 0);
    TokensOfSpaced(s, |lead|, ws, gs);
  }

  lemma NoWordsNoText(ws: seq<Text>, gs: seq<Text>)
    requires WellSpaced(ws, gs)
    ensures |ws| == 0 ==> Spaced(ws, gs) == []
  {
  }

  const METRIC: Text := [99]
  const TAG_A: Text := [97, 61, 49]
  const TAG_B: Text := [98, 61, 50]
  const METRIC_AND_A: Text := [99, 9, 97, 61, 49]

  /** A tab that follows a word directly becomes part of it: "c<tab>a=1 b=2" has the metric "c<tab>a=1". */
  lemma TabsDoNotSeparate()
    ensures var ws, gs := [METRIC, TAG_A, TAG_B], [[TAB], [SPACE], []];
            && WellSpaced(ws, gs) && !SpacesFirst(gs) && Tokens(Spaced(ws, gs), 0) == [METRIC_AND_A, TAG_B]
  {
    hide Tokens, Spaced;
    var vs, hs := [METRIC_AND_A, TAG_B], [[SPACE], []];
    assert [[TAB], [SPACE], []][0][0] != SPACE;
    SpellOut();
    assert WellSpaced(vs, hs) && SpacesFirst(hs);
    TokensOfText([], vs, hs);
    assert [] + Spaced(vs, hs) == Spaced(vs, hs);
  }

  lemma SpellOut()
    ensures Spaced([METRIC, TAG_A, TAG_B], [[TAB], [SPACE], []]) == Spaced([METRIC_AND_A, TAG_B], [[SPACE], []])
  {
    var a, b, end := TAG_A, TAG_B, Spaced([TAG_B], [[]]);
    assert [a, b][1..] == [b] && [[SPACE], []][1..] == [[]] && [METRIC_AND_A, b][1..] == [b];
    assert [METRIC, a, b][1..] == [a, b] && [[TAB], [SPACE], []][1..] == [[SPACE], []];
    assert Spaced([METRIC, a, b], [[TAB], [SPACE], []]) == METRIC + ([TAB] + (a + ([SPACE] + end)));
    assert Spaced([METRIC_AND_A, b], [[SPACE], []]) == METRIC_AND_A + ([SPACE] + end);
    assert METRIC + ([TAB] + (a + ([SPACE] + end))) == METRIC_AND_A + ([SPACE] + end);
  }

  // ---- Tokens of a form --------------------------------------------------------------------------

  /** One space behind each of `n` words, and nothing behind the last. */
  function Singles(n: nat): (gs: seq<Text>)
    ensures |gs| == n + 1 && gs[n] == [] && forall i :: 0 <= i < n ==> gs[i] == [SPACE]
  {
    seq(n, _ => [SPACE]) + [[]]
  }

  lemma {:induction false} FlatIsSpaced(w: Text, ts: seq<Text>)
    ensures w + Flat(ts) == Spaced([w] + ts, Singles(|ts|))
    decreases |ts|
  {
    hide Flat, Spaced;
    var ws, gs := [w] + ts, Singles(|ts|);
    SpacedHead(ws, gs);
    DropHead(w, ts);
    if |ts| == 0 {
      assert ws[1..] == [] && gs[1..] == [];
      SpacedHead(ws[1..], gs[1..]);
      FlatNone(ts);
      assert w + ([] + []) == w + [];
    } else {
      HeadTail(ts);
      FlatCons(ts[0], ts[1..]);
      FlatIsSpaced(ts[0], ts[1..]);
      assert gs[1..] == Singles(|ts| - 1);
    }
  }

  lemma FlatNone(ts: seq<Text>)
    ensures |ts| == 0 ==> Flat(ts) == []
  {
  }

  /** Words that stay apart in a form: only the last may end in an escape. */
  predicate StayApart(ws: seq<Text>)
  {
    (forall i :: 0 <= i < |ws| ==> Solid(ws[i])) && forall i :: 0 <= i < |ws| - 1 ==> !Open(ws[i])
  }

  lemma TokensOfForm(out: Text, metric: Text, ts: seq<Text>)
    requires out == metric + Flat(ts) && StayApart([metric] + ts)
    ensures Tokens(out, 0) == [metric] + ts
  {
    hide Tokens, Flat, Spaced, Solid, Open;
    var ws, gs := [metric] + ts, Singles(|ts|);
    FlatIsSpaced(metric, ts);
    assert WellSpaced(ws, gs) && SpacesFirst(gs);
    TokensOfText([], ws, gs);
    assert [] + Spaced(ws, gs) == out;
  }

  // ---- One form for every spelling ---------------------------------------------------------------

  /** A metric and tags, as somebody wrote them down. */
  datatype Spelling = Spelling(lead: Text, words: seq<Text>, gaps: seq<Text>)

  /** Blanks anywhere, as long as a space comes first behind every word. */
  predicate Proper(a: Spelling)
  {
    Blanks(a.lead) && |a.words| == |a.gaps| >= 2 && WellSpaced(a.words, a.gaps) && SpacesFirst(a.gaps)
  }

  function TextOf(a: Spelling): Text
    requires |a.words| == |a.gaps|
  {
    a.lead + Spaced(a.words, a.gaps)
  }

  /** The tags that count: the first 32. */
  function FirstTags(ws: seq<Text>): seq<Text>
    requires |ws| > 0
  {
    if |ws| - 1 <= LIMITS_MAX_TAGS then ws[1..] else ws[1..LIMITS_MAX_TAGS + 1]
  }

  lemma SpellingTokens(a: Spelling)
    requires Proper(a)
    ensures Tokens(TextOf(a), 0) == a.words && Used(TextOf(a)) == FirstTags(a.words) && StayApart(a.words)
  {
    hide Tokens, Spaced, Solid, Open, Blanks;
    TokensOfText(a.lead, a.words, a.gaps);
  }

  predicate Same(a: Spelling, b: Spelling)
  {
    |a.words| > 0 && |b.words| > 0 && a.words[0] == b.words[0] &&
        multiset(FirstTags(a.words)) == multiset(FirstTags(b.words))
  }

  predicate AreTags(ws: seq<Text>)
  {
    forall i :: 0 <= i < |ws| ==> IsTag(ws[i])
  }

  // ---- The form of a form is itself --------------------------------------------------------------

  lemma {:induction false} StopInside(s: Text, q: nat)
    requires 0 < q <= |s|
    ensures forall k: nat {:trigger Escaped(s, k)} :: q <= k < Stop(s, q) ==> Escaped(s, k)
    decreases |s| - q
  {
    if q < |s| && !(s[q] == SPACE && s[q - 1] != ESC_CHAR) {
      StopInside(s, q + 1);
    }
  }

  lemma SolidSlice(s: Text, p: nat, e: nat)
    requires p < e <= |s| && !Blank(s[p]) && forall k: nat {:trigger Escaped(s, k)} :: p < k < e ==> Escaped(s, k)
    ensures Solid(s[p..e]) && (Open(s[p..e]) <==> s[e - 1] == ESC_CHAR)
  {
    var w := s[p..e];
    forall k: nat | k < |w|
      ensures Escaped(w, k)
    {
      assert k > 0 ==> Escaped(s, p + k);
    }
  }

  lemma SolidToken(s: Text, p: nat)
    requires p < |s| && !Blank(s[p])
    ensures Solid(TokenAt(s, p)) && (Open(TokenAt(s, p)) ==> Stop(s, p + 1) == |s|)
  {
    hide Stop, Escaped, Solid, Open;
    StopInside(s, p + 1);
    SolidSlice(s, p, Stop(s, p + 1));
  }

  lemma Unfolded(s: Text, p: nat)
    requires p <= |s|
    ensures var q := SkipBlank(s, p);
            if q == |s| then Tokens(s, p) == []
            else !Blank(s[q]) && Tokens(s, p) == [TokenAt(s, q)] + Tokens(s, Stop(s, q + 1))
  {
  }

  lemma {:induction false} TokensStayApart(s: Text, p: nat)
    requires p <= |s|
    ensures StayApart(Tokens(s, p))
    decreases |s| - p
  {
    hide Solid, Open, Tokens, Stop, SkipBlank, TokenAt;
    Unfolded(s, p);
    var q := SkipBlank(s, p);
    if q < |s| {
      SolidToken(s, q);
      var e := Stop(s, q + 1);
      TokensStayApart(s, e);
      EndOfTokens(s, |s|);
      ApartCons(TokenAt(s, q), Tokens(s, e));
    }
  }

  lemma ApartCons(w: Text, ws: seq<Text>)
    requires StayApart(ws) && Solid(w) && (Open(w) ==> |ws| == 0)
    ensures StayApart([w] + ws)
  {
    hide Solid, Open;
  }

  lemma UsedApart(s: Text)
    requires |Tokens(s, 0)| >= 2
    ensures StayApart(Used(s)) && 0 < |Used(s)| <= LIMITS_MAX_TAGS && Solid(Tokens(s, 0)[0]) && !Open(Tokens(s, 0)[0])
  {
    hide Tokens, Solid, Open;
    TokensStayApart(s, 0);
    var ts := Tokens(s, 0);
    forall i | 0 <= i < |Used(s)|
      ensures Used(s)[i] == ts[i + 1]
    {
    }
  }

  lemma OnlyTheLast(ws: seq<Text>, w: Text)
    requires StayApart(ws) && w in multiset(ws) && Open(w)
    ensures |ws| > 0 && w == ws[|ws| - 1] && multiset(ws)[w] == 1
  {
    hide Solid, Open;
    var n := |ws| - 1;
    var i :| 0 <= i < |ws| && ws[i] == w;
    assert ws == ws[..n] + [ws[n]] && w !in ws[..n];
  }

  lemma CountTwice(ts: seq<Text>, i: nat, j: nat)
    requires i < j < |ts| && ts[i] == ts[j]
    ensures multiset(ts)[ts[j]] >= 2
  {
    assert ts == ts[..j] + ([ts[j]] + ts[j + 1..]) && ts[..j][i] == ts[j];
    assert ts[j] in multiset(ts[..j]);
  }

  /** At most one tag of a name ends in an escape character, wherever sorting puts it. */
  lemma OneOpen(ts: seq<Text>, ws: seq<Text>, i: nat, j: nat)
    requires multiset(ts) == multiset(ws) && StayApart(ws) && i < j < |ts| && Open(ts[i])
    ensures !Open(ts[j])
  {
    hide Solid, Open, StayApart;
    assert ts[i] in multiset(ts) && ts[j] in multiset(ts);
    OnlyTheLast(ws, ts[i]);
    if Open(ts[j]) {
      OnlyTheLast(ws, ts[j]);
      CountTwice(ts, i, j);
    }
  }

  lemma {:induction false} FlatConcat(a: seq<Text>, b: seq<Text>)
    ensures Flat(a + b) == Flat(a) + Flat(b)
  {
    if |b| == 0 {
      assert a + b == a;
    } else {
      var n := |b| - 1;
      assert (a + b)[..|a + b| - 1] == a + b[..n];
      FlatConcat(a, b[..n]);
    }
  }

  /** Tag `k` ends in an escape, so the space behind it does not end it: it is read together with the next. */
  function MergedAt(ts: seq<Text>, k: nat): (ms: seq<Text>)
    requires k + 1 < |ts|
    ensures |ms| == |ts| - 1
    ensures forall i :: 0 <= i < |ms| ==>
            ms[i] == if i < k then ts[i] else if i == k then Merged(ts[k], ts[k + 1]) else ts[i + 1]
  {
    ts[..k] + ([Merged(ts[k], ts[k + 1])] + ts[k + 2..])
  }

  function Merged(v: Text, w: Text): Text
  {
    v + ([SPACE] + w)
  }

  lemma MergedParts(ts: seq<Text>, k: nat)
    requires k + 1 < |ts|
    ensures ts == ts[..k] + ([ts[k]] + ([ts[k + 1]] + ts[k + 2..]))
    ensures MergedAt(ts, k) == ts[..k] + ([Merged(ts[k], ts[k + 1])] + ts[k + 2..])
  {
    hide Merged;
  }

  lemma MergedFlat(ts: seq<Text>, k: nat)
    requires k + 1 < |ts|
    ensures Flat(MergedAt(ts, k)) == Flat(ts)
  {
    hide *;
    var v, w, a, b := ts[k], ts[k + 1], ts[..k], ts[k + 2..];
    MergedParts(ts, k);
    FlatConcat(a, [v] + ([w] + b));
    FlatConcat(a, [Merged(v, w)] + b);
    FlatPair(v, w, b);
  }

  lemma FlatPair(v: Text, w: Text, b: seq<Text>)
    ensures Flat([v] + ([w] + b)) == Flat([Merged(v, w)] + b)
  {
    hide Flat;
    FlatCons(v, [w] + b);
    FlatCons(w, b);
    FlatCons(Merged(v, w), b);
    assert v + ([SPACE] + (w + Flat(b))) == (v + ([SPACE] + w)) + Flat(b);
  }

  lemma MergedWord(v: Text, w: Text)
    requires Solid(v) && Solid(w) && Open(v) && !Open(w)
    ensures Solid(Merged(v, w)) && !Open(Merged(v, w))
  {
    var m := Merged(v, w);
    forall k: nat | k < |m|
      ensures Escaped(m, k)
    {
      if k > |v| + 1 {
        assert m[k] == w[k - |v| - 1] && m[k - 1] == w[k - |v| - 2] && Escaped(w, k - |v| - 1);
      } else if 0 < k < |v| {
        assert m[k] == v[k] && m[k - 1] == v[k - 1] && Escaped(v, k);
      }
    }
    assert m[|m| - 1] == w[|w| - 1];
  }

  lemma {:induction false} EqualsInFront(v: Text, rest: Text)
    requires EqualsAt(v) < |v|
    ensures EqualsAt(v + rest) == EqualsAt(v)
    decreases |v|
  {
    if v[0] != EQUALS {
      assert (v + rest)[1..] == v[1..] + rest;
      EqualsInFront(v[1..], rest);
    }
  }

  lemma MergedTag(v: Text, w: Text)
    requires IsTag(v)
    ensures IsTag(Merged(v, w)) && TagName(Merged(v, w)) == TagName(v)
  {
    EqualsInFront(v, [SPACE] + w);
  }

  /** Only the last word may end in an escape. */
  predicate OpenLast(ts: seq<Text>)
  {
    forall i :: 0 <= i < |ts| - 1 ==> !Open(ts[i])
  }

  predicate Joins(ms: seq<Text>, ts: seq<Text>)
  {
    if OpenLast(ts) then ms == ts else exists k :: 0 <= k < |ts| - 1 && Open(ts[k]) && ms == MergedAt(ts, k)
  }

  /** What is read back from a form: its tags, or all of them but one that has run into the next. */
  ghost predicate Reread(ms: seq<Text>, ts: seq<Text>)
  {
    && SortedTags(ms) && AreTags(ms) && 0 < |ms| <= |ts| && Flat(ms) == Flat(ts)
    && (DistinctTags(multiset(ts)) ==> DistinctTags(multiset(ms)))
  }

  lemma MergedSorted(ts: seq<Text>, k: nat)
    requires k + 1 < |ts| && SortedTags(ts) && AreTags(ts)
    ensures SortedTags(MergedAt(ts, k)) && AreTags(MergedAt(ts, k))
  {
    hide IsTag, TagName, Merged;
    MergedTag(ts[k], ts[k + 1]);
    var ms := MergedAt(ts, k);
    forall i, j | 0 <= i < j < |ms|
      ensures !NameLess(ms[j], ms[i])
    {
      var i', j' := if i <= k then i else i + 1, if j <= k then j else j + 1;
      assert TagName(ms[i]) == TagName(ts[i']) && TagName(ms[j]) == TagName(ts[j']);
      assert !NameLess(ts[j'], ts[i']);
    }
  }

  lemma MergedDistinct(ts: seq<Text>, k: nat)
    requires k + 1 < |ts| && AreTags(ts) && Open(ts[k]) && forall j :: 0 <= j < |ts| && j != k ==> !Open(ts[j])
    requires DistinctTags(multiset(ts))
    ensures DistinctTags(multiset(MergedAt(ts, k)))
  {
    hide IsTag, TagName, Merged, Open;
    MergedTag(ts[k], ts[k + 1]);
    var ms: seq<Text> := MergedAt(ts, k);
    forall v, w | v in multiset(ms) && w in multiset(ms) && TagName(v) == TagName(w)
      ensures v == w
    {
      var i :| 0 <= i < |ms| && ms[i] == v;
      var j :| 0 <= j < |ms| && ms[j] == w;
      MergedPair(ts, k, i, j);
    }
  }

  lemma MergedPair(ts: seq<Text>, k: nat, i: nat, j: nat)
    requires k + 1 < |ts| && Open(ts[k]) && forall j :: 0 <= j < |ts| && j != k ==> !Open(ts[j])
    requires DistinctTags(multiset(ts)) && TagName(Merged(ts[k], ts[k + 1])) == TagName(ts[k])
    requires i < |ts| - 1 && j < |ts| - 1 && TagName(MergedAt(ts, k)[i]) == TagName(MergedAt(ts, k)[j])
    ensures MergedAt(ts, k)[i] == MergedAt(ts, k)[j]
  {
    hide TagName, Merged, Open;
    var i', j' := if i <= k then i else i + 1, if j <= k then j else j + 1;
    assert ts[i'] in multiset(ts) && ts[j'] in multiset(ts);
    assert ts[i'] == ts[j'];
  }

  /** Parsing the form of an accepted name. */
  lemma RereadForm(s: Text, outSize: nat, ts: seq<Text>, out: Text) returns (ms: seq<Text>)
    requires Accepts(s, outSize) && multiset(ts) == multiset(Used(s)) && IsForm(out, Tokens(s, 0)[0], ts)
    ensures Tokens(out, 0) == [Tokens(s, 0)[0]] + ms && Reread(ms, ts) && |ms| <= LIMITS_MAX_TAGS && Joins(ms, ts)
  {
    hide Tokens, Solid, Open, Flat, IsTag, Used, SortedTags, DistinctTags;
    var metric := Tokens(s, 0)[0];
    UsedApart(s);
    assert |ts| == |multiset(ts)| == |Used(s)|;
    TagsOfForm(s, outSize, ts);
    if k: nat :| k < |ts| - 1 && Open(ts[k]) {
      forall j | 0 <= j < |ts| && j != k
        ensures !Open(ts[j])
      {
        if Open(ts[j]) {
          OneOpen(ts, Used(s), if j < k then j else k, if j < k then k else j);
        }
      }
      ms := MergedAt(ts, k);
      MergedFlat(ts, k);
      MergedSorted(ts, k);
      MergedWord(ts[k], ts[k + 1]);
      if DistinctTags(multiset(ts)) {
        MergedDistinct(ts, k);
      }
    } else {
      ms := ts;
    }
    assert StayApart([metric] + ms);
    TokensOfForm(out, metric, ms);
  }

  lemma TagsOfForm(s: Text, outSize: nat, ts: seq<Text>)
    requires Accepts(s, outSize) && multiset(ts) == multiset(Used(s)) && StayApart(Used(s))
    ensures AreTags(ts) && forall i :: 0 <= i < |ts| ==> Solid(ts[i])
  {
    hide Tokens, Solid, Open, IsTag, Used;
    forall i | 0 <= i < |ts|
      ensures IsTag(ts[i]) && Solid(ts[i])
    {
      assert ts[i] in multiset(ts);
      assert ts[i] in Used(s);
    }
  }

  /** The tokens of a form are its metric and its tags if and only if none but the last tag ends in an escape. */
  lemma FormReadsBack(s: Text, outSize: nat, ts: seq<Text>, out: Text)
    requires Accepts(s, outSize) && multiset(ts) == multiset(Used(s)) && IsForm(out, Tokens(s, 0)[0], ts)
    ensures Tokens(out, 0) == [Tokens(s, 0)[0]] + ts <==> OpenLast(ts)
  {
    hide Tokens, Flat, IsTag, Used, SortedTags, DistinctTags, Merged, Open;
    var ms := RereadForm(s, outSize, ts, out);
    DropHead(Tokens(s, 0)[0], ms);
    DropHead(Tokens(s, 0)[0], ts);
  }

  // ---- Which names share a form ------------------------------------------------------------------

  datatype Next = NoTag | Tag(text: Text)

  /** The tag with the least name behind that of `v`. */
  function NextTag(us: seq<Text>, v: Text): Next
  {
    if |us| == 0 then NoTag
    else
      var rest := NextTag(us[1..], v);
      if NameLess(v, us[0]) && (rest.NoTag? || NameLess(us[0], rest.text)) then Tag(us[0]) else rest
  }

  lemma {:induction false} NextLeast(us: seq<Text>, v: Text)
    ensures NextTag(us, v).Tag? ==> NextTag(us, v).text in us && NameLess(v, NextTag(us, v).text)
    ensures forall y :: y in us && NameLess(v, y) ==> NextTag(us, v).Tag? && !NameLess(y, NextTag(us, v).text)
  {
    hide NameLess;
    if |us| > 0 {
      NextLeast(us[1..], v);
      var rest := NextTag(us[1..], v);
      NotItself(us[0]);
      forall y | y in us && NameLess(v, y)
        ensures NextTag(us, v).Tag? && !NameLess(y, NextTag(us, v).text)
      {
        if y != us[0] {
          assert y in us[1..];
          if NameLess(us[0], rest.text) {
            NotLessTrans(y, us[0], rest.text);
          }
        }
      }
    }
  }

  lemma NotItself(w: Text)
    ensures !NameLess(w, w)
  {
    LessAsym(TagName(w), TagName(w));
  }

  /** Two tags of a list in which a name stands for one tag are ordered by their names. */
  lemma NamesOrder(m: multiset<Text>, v: Text, w: Text)
    requires DistinctTags(m) && v in m && w in m
    ensures v == w || NameLess(v, w) || NameLess(w, v)
  {
    LessTotal(TagName(v), TagName(w));
  }

  /** In sorted order it is the one that follows. */
  lemma NextInOrder(us: seq<Text>, ts: seq<Text>, k: nat)
    requires multiset(us) == multiset(ts) && SortedTags(ts) && DistinctTags(multiset(ts))
    requires k < |ts| && multiset(ts)[ts[k]] == 1
    ensures NextTag(us, ts[k]) == if k + 1 < |ts| then Tag(ts[k + 1]) else NoTag
  {
    hide NameLess, NextTag, DistinctTags;
    var n := NextTag(us, ts[k]);
    NextLeast(us, ts[k]);
    NotItself(ts[k]);
    if k + 1 < |ts| {
      assert ts[k] in multiset(ts) && ts[k + 1] in multiset(ts) && ts[k + 1] in us;
      NamesOrder(multiset(ts), ts[k], ts[k + 1]);
      if ts[k] == ts[k + 1] {
        CountTwice(ts, k, k + 1);
      }
      assert NameLess(ts[k], ts[k + 1]);
    }
    if n.Tag? {
      assert n.text in multiset(us);
      var j :| 0 <= j < |ts| && ts[j] == n.text;
      NamesOrder(multiset(ts), n.text, ts[if k + 1 < |ts| then k + 1 else k]);
    }
  }

  /** The tags of a form that was made of `us`, of which at most the last ends in an escape: that one is read together
      with the tag that sorting puts behind it. */
  function AsRead(us: seq<Text>): multiset<Text>
  {
    if |us| > 0 && Open(us[|us| - 1]) then
      var v := us[|us| - 1];
      match NextTag(us, v)
      case NoTag => multiset(us)
      case Tag(w) => multiset(us) - multiset{v, w} + multiset{Merged(v, w)}
    else multiset(us)
  }

  /** No tag ends in an escape, unless it has the greatest name. */
  predicate Settled(us: seq<Text>)
  {
    |us| > 0 && Open(us[|us| - 1]) ==> NextTag(us, us[|us| - 1]).NoTag?
  }

  lemma SettledExact(us: seq<Text>)
    ensures AsRead(us) == multiset(us) <==> Settled(us)
  {
    hide NameLess, Open, Merged, NextTag;
    if !Settled(us) {
      var v, w := us[|us| - 1], NextTag(us, us[|us| - 1]).text;
      NextLeast(us, v);
      NotItself(v);
      assert v in multiset(us) && w in multiset(us);
      assert multiset{v, w} <= multiset(us);
      assert |multiset(us) - multiset{v, w}| == |us| - 2;
    }
  }

  lemma MergedTags(ts: seq<Text>, k: nat)
    requires k + 1 < |ts|
    ensures multiset(MergedAt(ts, k)) == multiset(ts) - multiset{ts[k], ts[k + 1]} + multiset{Merged(ts[k], ts[k + 1])}
  {
    hide Merged;
    var a, b := ts[..k], ts[k + 2..];
    assert ts == a + ([ts[k], ts[k + 1]] + b);
    assert multiset([ts[k], ts[k + 1]]) == multiset{ts[k], ts[k + 1]};
  }

  lemma ReadsJoined(us: seq<Text>, ts: seq<Text>, k: nat)
    requires multiset(us) == multiset(ts) && StayApart(us) && SortedTags(ts) && k + 1 < |ts| && Open(ts[k])
    ensures |us| > 0 && Open(us[|us| - 1])
    ensures DistinctTags(multiset(us)) ==> multiset(MergedAt(ts, k)) == AsRead(us)
  {
    hide *;
    IsIn(ts, k);
    OnlyTheLast(us, ts[k]);
    if DistinctTags(multiset(us)) {
      NextInOrder(us, ts, k);
      MergedTags(ts, k);
      AsReadStep(us);
    }
  }

  lemma ReadsSame(us: seq<Text>, ts: seq<Text>)
    requires multiset(us) == multiset(ts) && StayApart(us) && SortedTags(ts) && OpenLast(ts)
    requires DistinctTags(multiset(us))
    ensures multiset(us) == AsRead(us)
  {
    hide NameLess, Merged, NextTag, DistinctTags, SortedTags, Solid, Open, StayApart;
    if |us| > 0 && Open(us[|us| - 1]) {
      var v := us[|us| - 1];
      IsIn(us, |us| - 1);
      var k :| 0 <= k < |ts| && ts[k] == v;
      OnlyTheLast(us, v);
      NextInOrder(us, ts, k);
    }
  }

  lemma IsIn(ts: seq<Text>, k: nat)
    requires k < |ts|
    ensures ts[k] in multiset(ts)
  {
  }

  lemma AsReadStep(us: seq<Text>)
    requires |us| > 0 && Open(us[|us| - 1]) && NextTag(us, us[|us| - 1]).Tag?
    ensures var v, w := us[|us| - 1], NextTag(us, us[|us| - 1]).text;
            AsRead(us) == multiset(us) - multiset{v, w} + multiset{Merged(v, w)}
  {
    hide NextTag, Open, Merged;
  }

  /** What is read back depends on the tags alone, and not on the order they came in. */
  lemma ReadsAs(us: seq<Text>, ts: seq<Text>, ms: seq<Text>)
    requires multiset(us) == multiset(ts) && StayApart(us) && SortedTags(ts) && Joins(ms, ts)
    ensures DistinctTags(multiset(us)) ==> multiset(ms) == AsRead(us)
    ensures (|us| > 0 ==> !Open(us[|us| - 1])) ==> ms == ts
  {
    hide NameLess, Merged, MergedAt, NextTag, DistinctTags, SortedTags, Solid, Open, StayApart, AsRead, OpenLast;
    if !OpenLast(ts) {
      var k :| 0 <= k < |ts| - 1 && Open(ts[k]) && ms == MergedAt(ts, k);
      ReadsJoined(us, ts, k);
    } else if DistinctTags(multiset(us)) {
      ReadsSame(us, ts);
    }
  }

  /** Canonicalising twice is canonicalising once, for every name without two different tags of one name. The form is
      a name with the same tags if and only if no tag ends in an escape, unless it has the greatest name. */
  method Twice(s: Text, outSize: nat) returns (once: Result, twice: Result)
    ensures once.Canonical? <==> Accepts(s, outSize)
    ensures once.Canonical? && DistinctTags(multiset(Used(s))) ==>
            && twice == once && Accepts(once.out, outSize) && multiset(Used(once.out)) == AsRead(Used(s))
            && (multiset(Used(once.out)) == multiset(Used(s)) <==> Settled(Used(s)))
  {
    hide Tokens, IsTag, Flat, SortedTags, Used, DistinctTags, AsRead, Settled, Joins, StayApart, Solid, Open;
    ghost var ts;
    once, ts := ToCanonicalForm(s, outSize);
    twice := once;
    if once.Canonical? {
      ghost var ts';
      twice, ts' := ToCanonicalForm(once.out, outSize);
      ghost var metric := Tokens(s, 0)[0];
      ghost var ms := RereadForm(s, outSize, ts, once.out);
      assert ms + [] == ms;
      UsedOf(once.out, metric, ms, []);
      DropHead(metric, ms);
      UsedApart(s);
      ReadsAs(Used(s), ts, ms);
      SettledExact(Used(s));
      if DistinctTags(multiset(ts)) {
        SortedUnique(ms, ts');
      }
    }
  }

  /** Two names have one form if and only if they have the same metric and their tags are read back as the same, if a
      name stands for one tag in each: for settled names these are the tags. A tag name that stands for two tags leaves
      the order open, and then a form tells the tags of names without an escape at the end. */
  method OneForm(s: Text, s': Text, outSize: nat) returns (r: Result, r': Result)
    ensures (r.Canonical? <==> Accepts(s, outSize)) && (r'.Canonical? <==> Accepts(s', outSize))
    ensures r.Canonical? && r'.Canonical? && DistinctTags(multiset(Used(s))) && DistinctTags(multiset(Used(s'))) ==>
            (r == r' <==> Tokens(s, 0)[0] == Tokens(s', 0)[0] && AsRead(Used(s)) == AsRead(Used(s')))
    ensures r.Canonical? && r'.Canonical? && r == r' && Ends(s) && Ends(s') ==>
            Tokens(s, 0)[0] == Tokens(s', 0)[0] && multiset(Used(s)) == multiset(Used(s'))
  {
    hide Tokens, IsTag, Flat, SortedTags, Used, DistinctTags, AsRead, Joins, StayApart, Solid, Open;
    ghost var ts, ts';
    r, ts := ToCanonicalForm(s, outSize);
    r', ts' := ToCanonicalForm(s', outSize);
    if r.Canonical? && r'.Canonical? {
      ghost var ms := RereadForm(s, outSize, ts, r.out);
      ghost var ms' := RereadForm(s', outSize, ts', r'.out);
      DropHead(Tokens(s, 0)[0], ms);
      DropHead(Tokens(s', 0)[0], ms');
      UsedApart(s);
      UsedApart(s');
      ReadsAs(Used(s), ts, ms);
      ReadsAs(Used(s'), ts', ms');
      if DistinctTags(multiset(ts)) && multiset(ms) == multiset(ms') {
        SortedUnique(ms, ms');
      }
    }
  }

  /** The last tag does not end in an escape. */
  predicate Ends(s: Text)
  {
    |Used(s)| > 0 ==> !Open(Used(s)[|Used(s)| - 1])
  }

  /** Two spellings with the same metric and the same tags (the first 32 of each), in whatever order and with whatever
      blanks, get the same canonical form, if a name stands for one tag; and of settled names only those do. */
  method SameForm(a: Spelling, b: Spelling, outSize: nat) returns (r: Result, r': Result)
    requires Proper(a) && Proper(b)
    ensures r.Canonical? <==> |TextOf(a)| <= LIMITS_MAX_SNAME && |TextOf(a)| <= outSize && AreTags(FirstTags(a.words))
    ensures r'.Canonical? <==> |TextOf(b)| <= LIMITS_MAX_SNAME && |TextOf(b)| <= outSize && AreTags(FirstTags(b.words))
    ensures var u, u' := FirstTags(a.words), FirstTags(b.words);
            r.Canonical? && r'.Canonical? && DistinctTags(multiset(u)) && DistinctTags(multiset(u')) ==>
            && (r == r' <==> a.words[0] == b.words[0] && AsRead(u) == AsRead(u'))
            && (Settled(u) && Settled(u') ==> (r == r' <==> Same(a, b)))
  {
    hide Tokens, Spaced, Flat, SortedTags, IsTag, WellSpaced, Blanks, DistinctTags, FirstTags, Used, SpacesFirst,
        AsRead, Settled, StayApart;
    SpellingTokens(a);
    SpellingTokens(b);
    r, r' := OneForm(TextOf(a), TextOf(b), outSize);
    SettledExact(FirstTags(a.words));
    SettledExact(FirstTags(b.words));
  }

  // ---- Names at which it fails -------------------------------------------------------------------

  const TAG_A2: Text := [97, 61, 50]
  const TAG_OPEN: Text := [97, 61, 92]

  lemma NamesOf()
    ensures TagName(TAG_A) == TagName(TAG_A2) == TagName(TAG_OPEN) == [97] && TagName(TAG_B) == [98]
    ensures IsTag(TAG_A) && IsTag(TAG_A2) && IsTag(TAG_OPEN) && IsTag(TAG_B)
    ensures Solid(TAG_A) && Solid(TAG_A2) && Solid(TAG_OPEN) && Solid(TAG_B) && !Open(TAG_A) && !Open(TAG_A2) &&
            !Open(TAG_B)
  {
    forall w | w in [TAG_A, TAG_A2, TAG_OPEN, TAG_B]
      ensures EqualsAt(w) == 1 && IsTag(w) && TagName(w) == [w[0]]
    {
      assert EqualsAt(w) == 1 + EqualsAt(w[1..]);
    }
  }

  /** "c a=1 a=2" and "c a=2 a=1". */
  const NAME_12: Text := [99, 32, 97, 61, 49, 32, 97, 61, 50]
  const NAME_21: Text := [99, 32, 97, 61, 50, 32, 97, 61, 49]

  /** Two names with the same metric and the same tags, each of which is a form of itself: neither tag comes before the
      other. */
  lemma RepeatedNameHasTwoForms()
    ensures Tokens(NAME_12, 0) == [METRIC, TAG_A, TAG_A2] && Tokens(NAME_21, 0) == [METRIC, TAG_A2, TAG_A]
    ensures multiset(Used(NAME_12)) == multiset(Used(NAME_21)) && !DistinctTags(multiset(Used(NAME_12)))
    ensures Accepts(NAME_12, LIMITS_MAX_SNAME) && Accepts(NAME_21, LIMITS_MAX_SNAME)
    ensures IsForm(NAME_12, METRIC, Used(NAME_12)) && IsForm(NAME_21, METRIC, Used(NAME_21)) && NAME_12 != NAME_21
  {
    hide Tokens, Flat, TagName, IsTag, Used, Solid, Open;
    NamesOf();
    PairText(TAG_A, TAG_A2);
    PairText(TAG_A2, TAG_A);
    NotItself(TAG_A);
    assert NAME_12 == METRIC + ([SPACE] + (TAG_A + ([SPACE] + TAG_A2)));
    assert NAME_21 == METRIC + ([SPACE] + (TAG_A2 + ([SPACE] + TAG_A)));
    assert NAME_12[4] != NAME_21[4];
    var pair := [TAG_A, TAG_A2];
    assert pair[0] in multiset(pair) && pair[1] in multiset(pair) && TAG_A[2] != TAG_A2[2];
    assert multiset([TAG_A2, TAG_A]) == multiset(pair);
  }

  lemma PairText(v: Text, w: Text)
    requires Solid(v) && Solid(w) && !Open(v) && IsTag(v) && IsTag(w)
    ensures METRIC + Flat([v, w]) == METRIC + ([SPACE] + (v + ([SPACE] + w)))
    ensures Tokens(METRIC + Flat([v, w]), 0) == [METRIC, v, w] && Used(METRIC + Flat([v, w])) == [v, w]
    ensures AreTags(Used(METRIC + Flat([v, w])))
  {
    hide Tokens, IsTag, Solid, Open;
    assert [v, w] == [v] + [w] && [METRIC] + [v, w] == [METRIC, v, w];
    FlatCons(v, [w]);
    assert Flat([w]) == [SPACE] + w;
    MetricApart();
    TokensOfForm(METRIC + Flat([v, w]), METRIC, [v, w]);
    DropHead(METRIC, [v, w]);
  }

  lemma MetricApart()
    ensures Solid(METRIC) && !Open(METRIC)
  {
  }

  /** `c b=2 a=\` and `c a=\ b=2`. */
  const NAME_OPEN: Text := [99, 32, 98, 61, 50, 32, 97, 61, 92]
  const NAME_JOINED: Text := [99, 32, 97, 61, 92, 32, 98, 61, 50]

  lemma NamesRead()
    ensures Tokens(NAME_OPEN, 0) == [METRIC, TAG_B, TAG_OPEN] && Used(NAME_OPEN) == [TAG_B, TAG_OPEN]
    ensures Tokens(NAME_JOINED, 0) == [METRIC, Merged(TAG_OPEN, TAG_B)] &&
            Used(NAME_JOINED) == [Merged(TAG_OPEN, TAG_B)]
    ensures Accepts(NAME_OPEN, LIMITS_MAX_SNAME) && Accepts(NAME_JOINED, LIMITS_MAX_SNAME)
    ensures NAME_JOINED == METRIC + Flat([TAG_OPEN, TAG_B]) == METRIC + Flat([Merged(TAG_OPEN, TAG_B)])
  {
    hide Tokens, Flat, TagName, IsTag, Solid, Open;
    NamesOf();
    PairText(TAG_B, TAG_OPEN);
    assert NAME_OPEN == METRIC + ([SPACE] + (TAG_B + ([SPACE] + TAG_OPEN)));
    var m := Merged(TAG_OPEN, TAG_B);
    JoinedText(TAG_OPEN, TAG_B);
    assert NAME_JOINED == METRIC + ([SPACE] + (TAG_OPEN + ([SPACE] + TAG_B)));
    EscapeOpens();
    MergedWord(TAG_OPEN, TAG_B);
    MergedTag(TAG_OPEN, TAG_B);
    MetricApart();
    assert [METRIC] + [m] == [METRIC, m];
    TokensOfForm(NAME_JOINED, METRIC, [m]);
    DropHead(METRIC, [m]);
  }

  lemma EscapeOpens()
    ensures Open(TAG_OPEN)
  {
  }

  lemma JoinedText(v: Text, w: Text)
    ensures METRIC + Flat([v, w]) == METRIC + Flat([Merged(v, w)]) == METRIC + ([SPACE] + (v + ([SPACE] + w)))
  {
    hide Flat;
    FlatPair(v, w, []);
    assert [v] + ([w] + []) == [v, w] && [Merged(v, w)] + [] == [Merged(v, w)];
    FlatNone([]);
    FlatCons(Merged(v, w), []);
    assert Merged(v, w) + Flat([]) == Merged(v, w);
  }

  /** Two names with different tags and one form: the escape at the end of one takes in what sorting puts behind it. */
  method EscapeAtTheEndCollides() returns (r: Result, r': Result)
    ensures Tokens(NAME_OPEN, 0) == [METRIC, TAG_B, TAG_OPEN]
    ensures Tokens(NAME_JOINED, 0) == [METRIC, Merged(TAG_OPEN, TAG_B)]
    ensures multiset(Used(NAME_OPEN)) != multiset(Used(NAME_JOINED)) && r == r' == Canonical(NAME_JOINED, 2)
  {
    hide Tokens, Flat, TagName, IsTag, Solid, Open, Used, Merged;
    NamesRead();
    ghost var ts, ts';
    r, ts := ToCanonicalForm(NAME_OPEN, LIMITS_MAX_SNAME);
    r', ts' := ToCanonicalForm(NAME_JOINED, LIMITS_MAX_SNAME);
    OrderOf(ts, ts');
  }

  lemma OrderOf(ts: seq<Text>, ts': seq<Text>)
    requires multiset(ts) == multiset([TAG_B, TAG_OPEN]) && SortedTags(ts)
    requires multiset(ts') == multiset([Merged(TAG_OPEN, TAG_B)])
    ensures ts == [TAG_OPEN, TAG_B] && ts' == [Merged(TAG_OPEN, TAG_B)]
    ensures multiset([TAG_B, TAG_OPEN]) != multiset([Merged(TAG_OPEN, TAG_B)])
  {
    hide TagName, Merged;
    NamesOf();
    var pair := [TAG_OPEN, TAG_B];
    assert multiset(pair) == multiset([TAG_B, TAG_OPEN]);
    assert SortedTags(pair);
    SortedUnique(pair, ts);
    assert |ts'| == |multiset(ts')| == 1 && ts'[0] in multiset(ts');
    assert |multiset(pair)| == 2;
  }
}
