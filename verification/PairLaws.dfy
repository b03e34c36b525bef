/** The order of automatic edges in plain words: what their keys' byte order says of the evidence itself. */
module PairLaws {
  import opened Prelude
  import opened Sorting
  import opened Types
  import opened Candidates
  import opened PairKeys

  /** Of two lists of equal length, the first to differ differs upwards. */
  ghost predicate DiffersUp(x: seq<int>, y: seq<int>)
    requires |x| == |y|
  {
    exists n: nat :: n < |x| && SameUpTo(x, y, n) && x[n] < y[n]
  }

  ghost predicate DiffersDown(x: seq<Score>, y: seq<Score>)
    requires |x| == |y|
  {
    exists n: nat :: n < |x| && SameUpTo(x, y, n) && x[n] > y[n]
  }

  /** The score a rule brings: its own, or a full one if it has none. */
  predicate Brings(item: Item, s: Score) {
    item.agrees && (item.score == Some(s) || (item.score == None && s == 10000))
  }

  ghost predicate Falling(s: seq<Score>) {
    forall i, j | 0 <= i < j < |s| :: s[i] >= s[j]
  }

  /** The scores of the agreeing rules, each as often as it is brought, highest first. */
  ghost predicate ScoreList(e: Edge, scores: seq<Score>) {
    && Falling(scores)
    && (forall s :: multiset(scores)[s] == |Places(e.items, (item: Item) => Brings(item, s))|)
  }

  /** The groups that some agreeing rule belongs to. */
  ghost predicate GroupSet(e: Edge, groups: set<Group>) {
    forall g :: g in groups <==> exists i :: 0 <= i < |e.items| && e.items[i].agrees && e.items[i].group == g
  }

  /** Identity edges stand before strong ones, and those before all others. */
  predicate Sooner(a: PairResult, b: PairResult) {
    || (a == AutomaticIdentity && b != AutomaticIdentity)
    || (a == AutomaticStrong && b != AutomaticIdentity && b != AutomaticStrong)
  }

  /** The sort keys of the pairs decide last: the shorter, or the lesser byte at the first difference. */
  ghost predicate PairBefore(a: Edge, b: Edge) {
    if a.left != b.left then |a.left| < |b.left| || (|a.left| == |b.left| && DiffersUp(a.left, b.left))
    else |a.right| < |b.right| || (|a.right| == |b.right| && DiffersUp(a.right, b.right))
  }

  /** Sooner results first; then more groups, fewer scores, the higher score at the first difference,
      and the pairs' sort keys. */
  ghost predicate Outranks(a: Edge, b: Edge, g: set<Group>, h: set<Group>, s: seq<Score>, t: seq<Score>) {
    || Sooner(a.result, b.result)
    || (!Sooner(b.result, a.result)
        && (|| |g| > |h|
            || (|g| == |h|
                && (|| |s| < |t|
                    || (|s| == |t| && (if s != t then DiffersDown(s, t) else PairBefore(a, b)))))))
  }

  // ---- byte order ----

  lemma LessMeans(x: seq<int>, y: seq<int>)
    ensures Less(x, y) <==> ComesBefore(x, y)
  {
    LexMeans(x, y);
  }

  lemma LessAlike(x: seq<int>, y: seq<int>)
    requires |x| == |y|
    ensures Less(x, y) <==> DiffersUp(x, y)
  {
    LessMeans(x, y);
  }

  lemma {:induction false} HigherMeans(s: seq<Score>, t: seq<Score>)
    requires |s| == |t|
    ensures Higher(s, t) <==> DiffersDown(s, t)
  {
    if s != [] {
      var v, w := s[1..], t[1..];
      HigherMeans(v, w);
      if s[0] > t[0] { assert SameUpTo(s, t, 0); }
      if n: nat :| s[0] == t[0] && n < |v| && SameUpTo(v, w, n) && v[n] > w[n] {
        forall i | 0 <= i < n + 1 ensures s[i] == t[i] {
          if i > 0 { assert v[i - 1] == w[i - 1]; }
        }
        assert SameUpTo(s, t, n + 1);
      }
      if n: nat :| n < |s| && SameUpTo(s, t, n) && s[n] > t[n] {
        if n > 0 {
          forall i | 0 <= i < n - 1 ensures v[i] == w[i] {
            assert v[i] == s[i + 1] && w[i] == t[i + 1];
          }
          assert s[0] == t[0] && SameUpTo(v, w, n - 1);
        }
      }
    }
  }

  // ---- what the key is made of ----

  lemma {:induction false} ScoresCounted(items: seq<Item>, s: Score)
    ensures multiset(Scores(items))[s] == |Places(items, (item: Item) => Brings(item, s))|
  {
    var brings := (item: Item) => Brings(item, s);
    FilterSize(items, brings);
    if items != [] {
      ScoresCounted(items[1..], s);
      FilterSize(items[1..], brings);
    }
  }

  lemma RankedIsList(e: Edge)
    ensures ScoreList(e, Ranked(e))
  {
    var scores := Ranked(e);
    SortSorted(Scores(e.items), Descending);
    SortMultiset(Scores(e.items), Descending);
    forall i, j | 0 <= i < j < |scores| ensures scores[i] >= scores[j] {
      assert LexLe(Descending(scores[i]), Descending(scores[j]));
      assert Descending(scores[i])[0] == -(scores[i] as int) && Descending(scores[j])[0] == -(scores[j] as int);
    }
    forall s ensures multiset(scores)[s] == |Places(e.items, (item: Item) => Brings(item, s))| {
      ScoresCounted(e.items, s);
    }
  }

  lemma SameHead(s: seq<Score>, t: seq<Score>)
    requires Falling(s) && Falling(t) && multiset(s) == multiset(t) && s != [] && t != []
    ensures s[0] == t[0]
  {
    assert s[0] in multiset(t) && t[0] in multiset(s);
    var i :| 0 <= i < |t| && t[i] == s[0];
    var j :| 0 <= j < |s| && s[j] == t[0];
  }

  lemma {:induction false} FallingUnique(s: seq<Score>, t: seq<Score>)
    requires Falling(s) && Falling(t) && multiset(s) == multiset(t)
    ensures s == t
  {
    assert |s| == |multiset(s)| == |multiset(t)| == |t|;
    if s != [] {
      SameHead(s, t);
      assert s == [s[0]] + s[1..] && t == [t[0]] + t[1..];
      assert multiset(s[1..]) == multiset(s) - multiset{s[0]} == multiset(t[1..]);
      FallingUnique(s[1..], t[1..]);
    }
  }

  lemma ListIsRanked(e: Edge, scores: seq<Score>)
    requires ScoreList(e, scores)
    ensures scores == Ranked(e)
  {
    RankedIsList(e);
    assert multiset(scores) == multiset(Ranked(e)) by {
      forall s ensures multiset(scores)[s] == multiset(Ranked(e))[s] {
      }
    }
    FallingUnique(scores, Ranked(e));
  }

  lemma SetIsGroups(e: Edge, groups: set<Group>)
    requires GroupSet(e, groups)
    ensures groups == Groups(e.items)
  {
    forall g ensures g in groups <==> g in Groups(e.items) {
      if g in Groups(e.items) {
        var item :| item in e.items && item.agrees && item.group == g;
        var i :| 0 <= i < |e.items| && e.items[i] == item;
      }
      if i :| 0 <= i < |e.items| && e.items[i].agrees && e.items[i].group == g {
        assert e.items[i] in e.items;
      }
    }
  }

  lemma TierMeans(a: PairResult, b: PairResult)
    ensures Tier(a) < Tier(b) <==> Sooner(a, b)
  {
  }

  lemma PreferredMeans(a: Edge, b: Edge)
    ensures Preferred(a, b) <==> Outranks(a, b, Groups(a.items), Groups(b.items), Ranked(a), Ranked(b))
  {
    TierMeans(a.result, b.result);
    TierMeans(b.result, a.result);
    if |Ranked(a)| == |Ranked(b)| { HigherMeans(Ranked(a), Ranked(b)); }
    if |a.left| == |b.left| { LessAlike(a.left, b.left); }
    if |a.right| == |b.right| { LessAlike(a.right, b.right); }
  }

  /** Up to 255 agreeing rules, one edge's key is before another's in byte order exactly when the edge
      outranks the other by its result, its distinct groups, its scores and its pair. */
  lemma KeyOrderExplained(a: Edge, b: Edge, g: set<Group>, h: set<Group>, s: seq<Score>, t: seq<Score>)
    requires GroupSet(a, g) && GroupSet(b, h) && ScoreList(a, s) && ScoreList(b, t)
    requires |s| <= 255 && |a.left| < 0x1_0000_0000 && |a.right| < 0x1_0000_0000
    requires |t| <= 255 && |b.left| < 0x1_0000_0000 && |b.right| < 0x1_0000_0000
    ensures ComesBefore(KeyOf(a), KeyOf(b)) <==> Outranks(a, b, g, h, s, t)
  {
    SetIsGroups(a, g);
    SetIsGroups(b, h);
    ListIsRanked(a, s);
    ListIsRanked(b, t);
    LessMeans(KeyOf(a), KeyOf(b));
    KeysOrderEdges(a, b);
    PreferredMeans(a, b);
  }
}
