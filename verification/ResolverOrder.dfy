/** The resolver's result does not depend on the order of its four input lists. */
module ResolverOrder {
  import opened Prelude
  import opened Sorting
  import opened Types
  import opened ResolverSpec
  import opened ResolverTheorems

  ghost predicate SameUpToOrder(a: Input, b: Input) {
    && multiset(a.records) == multiset(b.records)
    && multiset(a.manual) == multiset(b.manual)
    && multiset(a.cannot) == multiset(b.cannot)
    && multiset(a.pairs) == multiset(b.pairs)
    && a.limits == b.limits
  }

  /** No two different automatic decisions name the same pair of records. */
  ghost predicate OneDecisionPerPair(pairs: seq<PairDecision>) {
    forall x, y | x in pairs && y in pairs && IsAutomatic(x) && IsAutomatic(y) && x.left == y.left
      && x.right == y.right :: x == y
  }

  lemma RecordsUnordered(s: seq<Record>, t: seq<Record>)
    requires multiset(s) == multiset(t) && UniqueRecords(s)
    ensures UniqueRecords(t) && Index(s) == Index(t) && |s| == |t|
  {
    SameMultisetSameElements(s, t);
    UniqueRows(s);
    DistinctPermuted(s, t);
    forall i, j | 0 <= i < j < |t| ensures t[i].key != t[j].key && t[i].id != t[j].id {
      assert t[i] in s && t[j] in s;
    }
    UniqueRows(t);
  }

  lemma ValidUnordered(s: seq<DecisionEdge>, t: seq<DecisionEdge>, records: Records, kind: DecisionKind)
    requires multiset(s) == multiset(t) && ValidEdges(s, records, kind)
    ensures ValidEdges(t, records, kind)
  {
    SameMultisetSameElements(s, t);
    forall j | 0 <= j < |t| ensures ValidEdge(t[j], records, kind) {
      assert t[j] in s;
      var i :| 0 <= i < |s| && s[i] == t[j];
      assert ValidEdge(s[i], records, kind);
    }
  }

  lemma CanonicalConcat(s: seq<DecisionEdge>, t: seq<DecisionEdge>, records: Records, kind: DecisionKind)
    requires ValidEdges(s + t, records, kind)
    ensures ValidEdges(s, records, kind) && ValidEdges(t, records, kind)
    ensures Canonical(s + t, records, kind) == Canonical(s, records, kind) + Canonical(t, records, kind)
  {
    forall i | 0 <= i < |s| ensures ValidEdge(s[i], records, kind) { assert (s + t)[i] == s[i]; }
    forall i | 0 <= i < |t| ensures ValidEdge(t[i], records, kind) { assert (s + t)[|s| + i] == t[i]; }
  }

  lemma CanonicalAround(before: seq<DecisionEdge>, e: DecisionEdge, after: seq<DecisionEdge>, records: Records,
      kind: DecisionKind)
    requires ValidEdges((before + [e]) + after, records, kind)
    ensures ValidEdges(before + after, records, kind) && ValidEdges([e], records, kind)
    ensures multiset(Canonical((before + [e]) + after, records, kind))
         == multiset(Canonical([e], records, kind)) + multiset(Canonical(before + after, records, kind))
  {
    CanonicalConcat(before + [e], after, records, kind);
    CanonicalConcat(before, [e], records, kind);
    forall i | 0 <= i < |before + after| ensures ValidEdge((before + after)[i], records, kind) {
      if i < |before| { assert ValidEdge(before[i], records, kind); }
      else { assert ValidEdge(after[i - |before|], records, kind); }
    }
    CanonicalConcat(before, after, records, kind);
  }

  lemma {:induction false} CanonicalUnordered(s: seq<DecisionEdge>, t: seq<DecisionEdge>, records: Records,
      kind: DecisionKind)
    requires multiset(s) == multiset(t) && ValidEdges(s, records, kind) && ValidEdges(t, records, kind)
    ensures multiset(Canonical(s, records, kind)) == multiset(Canonical(t, records, kind))
  {
    if s == [] {
      assert |multiset(t)| == 0;
    } else {
      var i := WithoutHead(s, t);
      var rest := t[..i] + t[i + 1..];
      CanonicalAround(t[..i], s[0], t[i + 1..], records, kind);
      assert s == [s[0]] + s[1..];
      CanonicalConcat([s[0]], s[1..], records, kind);
      CanonicalUnordered(s[1..], rest, records, kind);
    }
  }

  lemma ManualUnordered(s: seq<DecisionEdge>, t: seq<DecisionEdge>, records: Records, kind: DecisionKind)
    requires multiset(s) == multiset(t) && WellKeyed(records)
    ensures CanonicalManualEdges(s, records, kind) == CanonicalManualEdges(t, records, kind)
  {
    if ValidEdges(s, records, kind) {
      ValidUnordered(s, t, records, kind);
      CanonicalUnordered(s, t, records, kind);
      CanonicalKnown(s, records, kind);
      var canonical := Canonical(s, records, kind);
      SortElements(canonical, ManualRank);
      forall x, y | x in canonical && y in canonical && ManualRank(x) == ManualRank(y) ensures x == y {
        assert x in SortBy(canonical, ManualRank) && y in SortBy(canonical, ManualRank);
        assert ManualRank(x)[0] == ManualRank(y)[0] && ManualRank(x)[1] == ManualRank(y)[1]
          && ManualRank(x)[2] == ManualRank(y)[2];
      }
      SortPermutation(canonical, Canonical(t, records, kind), ManualRank);
    } else {
      if ValidEdges(t, records, kind) { ValidUnordered(t, s, records, kind); }
    }
  }

  lemma AutomaticUnordered(a: Input, b: Input)
    requires multiset(a.pairs) == multiset(b.pairs) && OneDecisionPerPair(a.pairs)
    ensures Automatic(a) == Automatic(b)
  {
    var s, t := Filter(a.pairs, IsAutomatic), Filter(b.pairs, IsAutomatic);
    forall x ensures multiset(s)[x] == multiset(t)[x] {
      FilterMultiset(a.pairs, IsAutomatic, x);
      FilterMultiset(b.pairs, IsAutomatic, x);
    }
    assert multiset(s) == multiset(t);
    forall x, y | x in s && y in s && AutomaticRank(x) == AutomaticRank(y) ensures x == y {
      assert AutomaticRank(x)[3] == AutomaticRank(y)[3] && AutomaticRank(x)[4] == AutomaticRank(y)[4];
    }
    SortPermutation(s, t, AutomaticRank);
  }

  lemma LinksUnordered(cannot: seq<ManualEdge>, s: seq<PairDecision>, t: seq<PairDecision>, records: Records)
    requires multiset(s) == multiset(t)
    ensures ProhibitedKnown(s, records) <==> ProhibitedKnown(t, records)
    ensures ProhibitedKnown(s, records) ==> CannotLinks(cannot, s, records) == CannotLinks(cannot, t, records)
    ensures DecisionsKnown(s, records) <==> DecisionsKnown(t, records)
    ensures Elements(s) == Elements(t)
  {
    SameMultisetSameElements(s, t);
  }

  lemma PreparedUnordered(a: Input, b: Input)
    requires SameUpToOrder(a, b) && UniqueRecords(a.records) && UniqueRecords(b.records)
    requires Index(a.records) == Index(b.records) && |a.records| == |b.records| && WellKeyed(Index(a.records))
    ensures Prepare(a) == Prepare(b)
  {
    var records := Index(a.records);
    ManualUnordered(a.manual, b.manual, records, Match);
    ManualUnordered(a.cannot, b.cannot, records, NotMatch);
    var cannot := CanonicalManualEdges(a.cannot, records, NotMatch);
    LinksUnordered(if cannot.Ok? then cannot.value else [], a.pairs, b.pairs, records);
  }

  lemma PrepareUnordered(a: Input, b: Input)
    requires SameUpToOrder(a, b)
    ensures Prepare(a) == Prepare(b)
  {
    if UniqueRecords(a.records) {
      RecordsUnordered(a.records, b.records);
      IndexUnique(a.records);
      PreparedUnordered(a, b);
    } else {
      SameMultisetSameElements(a.records, b.records);
      if UniqueRecords(b.records) { RecordsUnordered(b.records, a.records); }
    }
  }

  /** Permuting any of the input lists changes neither the outcome nor any row or fact. */
  lemma ResolveIgnoresOrder(a: Input, b: Input)
    requires SameUpToOrder(a, b) && OneDecisionPerPair(a.pairs)
    ensures Resolve(a) == Resolve(b)
  {
    PrepareUnordered(a, b);
    AutomaticUnordered(a, b);
    if Prepare(a).Ok? {
      LinksUnordered([], a.pairs, b.pairs, Prepare(a).value.context.records);
    }
  }
}
