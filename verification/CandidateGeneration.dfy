/** Candidate pairs from blocks, within the limits, and their agreement with the all-pairs search. */
module Generation {
  import opened Prelude
  import opened Sorting
  import opened Candidates
  import opened Blocking
  import opened CompositeBlocking

  type Pairs = map<PairKey, set<string>>

  const MAX_COUNT: nat := 0xFFFF_FFFF_FFFF_FFFF

  ghost function PairsOf(refs: set<Ref>): set<PairKey> {
    set l, r | l in refs && r in refs && RefLess(l, r) :: PairKey(l, r)
  }

  /** Equality, without a look inside. */
  ghost predicate Same<T>(a: T, b: T) { a == b }

  /** The table once every pair of `gained` has the channel too. */
  ghost function Gain(pairs: Pairs, gained: set<PairKey>, id: string): Pairs {
    map p | p in pairs.Keys + gained :: (if p in pairs then pairs[p] else {}) + (if p in gained then {id} else {})
  }

  lemma GainNothing(pairs: Pairs, id: string)
    ensures Gain(pairs, {}, id) == pairs
  {
    forall p | p in pairs ensures Gain(pairs, {}, id)[p] == pairs[p] {
      assert pairs[p] + {} == pairs[p];
    }
    assert Gain(pairs, {}, id).Keys == pairs.Keys;
  }

  lemma GainTwice(pairs: Pairs, a: set<PairKey>, b: set<PairKey>, id: string)
    ensures Gain(Gain(pairs, a, id), b, id) == Gain(pairs, a + b, id)
  {
    var x, y := Gain(Gain(pairs, a, id), b, id), Gain(pairs, a + b, id);
    assert x.Keys == y.Keys;
    forall p | p in x ensures x[p] == y[p] {
    }
  }

  lemma GainSize(pairs: Pairs, gained: set<PairKey>, id: string)
    ensures |gained| <= |Gain(pairs, gained, id)| && |pairs| <= |Gain(pairs, gained, id)|
  {
    SubsetSize(gained, Gain(pairs, gained, id).Keys);
    SubsetSize(pairs.Keys, Gain(pairs, gained, id).Keys);
  }

  // ---- how many pairs a block has ----

  lemma PairsWithGreatest(refs: set<Ref>, m: Ref)
    requires m in refs && forall r | r in refs && r != m :: RefLess(r, m)
    ensures PairsOf(refs) == PairsOf(refs - {m}) + set l | l in refs - {m} :: PairKey(l, m)
  {
  }

  lemma PairedWith(refs: set<Ref>, m: Ref)
    ensures |set l | l in refs :: PairKey(l, m)| == |refs|
    decreases |refs|
  {
    if refs == {} {
      assert (set l | l in refs :: PairKey(l, m)) == {};
    } else {
      var x :| x in refs;
      PairedWith(refs - {x}, m);
      assert (set l | l in refs :: PairKey(l, m)) == (set l | l in refs - {x} :: PairKey(l, m)) + {PairKey(x, m)};
    }
  }

  lemma Greatest(refs: set<Ref>) returns (m: Ref)
    requires refs != {}
    ensures m in refs && forall r | r in refs && r != m :: RefLess(r, m)
    decreases |refs|
  {
    var first :| first in refs;
    m := first;
    if refs != {first} {
      var rest := Greatest(refs - {first});
      m := if RefLess(first, rest) then rest else first;
      forall r | r in refs && r != m ensures RefLess(r, m) {
        assert r == first || r == rest || RefLess(r, rest);
      }
    }
  }

  lemma PairsGrow(refs: set<Ref>, m: Ref)
    requires m in refs && forall r | r in refs && r != m :: RefLess(r, m)
    ensures |PairsOf(refs)| == |PairsOf(refs - {m})| + |refs| - 1
  {
    var rest := refs - {m};
    PairsWithGreatest(refs, m);
    PairedWith(rest, m);
    assert PairsOf(rest) !! set l | l in rest :: PairKey(l, m);
  }

  lemma Triangle(n: int, pairs: int)
    requires 2 * pairs == (n - 1) * (n - 2)
    ensures 2 * (pairs + n - 1) == n * (n - 1)
  {
  }

  /** n records make n (n - 1) / 2 pairs. */
  lemma {:induction false} CountPairs(refs: set<Ref>)
    ensures 2 * |PairsOf(refs)| == |refs| * (|refs| - 1)
    decreases |refs|
  {
    if refs == {} {
      assert PairsOf(refs) == {};
    } else {
      var m := Greatest(refs);
      CountPairs(refs - {m});
      PairsGrow(refs, m);
      Triangle(|refs|, |PairsOf(refs - {m})|);
    }
  }

  // ---- one block ----

  predicate BlockFits(n: nat, limits: Limits) {
    n <= limits.maxBlockRecords && n * (n - 1) <= MAX_COUNT
  }

  /** The pairs of position `i` with those between it and `j`. */
  ghost function RowPairs(refs: seq<Ref>, i: nat, j: nat): set<PairKey>
    requires i < |refs| && j <= |refs|
  {
    if j <= i + 1 then {} else RowPairs(refs, i, j - 1) + {PairKey(refs[i], refs[j - 1])}
  }

  /** The pairs of the first `i` positions with all later ones. */
  ghost function RowsPairs(refs: seq<Ref>, i: nat): set<PairKey>
    requires i <= |refs|
  {
    if i == 0 then {} else RowsPairs(refs, i - 1) + RowPairs(refs, i - 1, |refs|)
  }

  lemma RowPairsAre(refs: seq<Ref>, i: nat, j: nat, p: PairKey)
    requires i < |refs| && j <= |refs|
    ensures p in RowPairs(refs, i, j) <==> exists b :: i < b < j && p == PairKey(refs[i], refs[b])
  {
    if j > i + 1 {
      RowPairsAre(refs, i, j - 1, p);
    }
  }

  lemma RowsPairsAre(refs: seq<Ref>, i: nat, p: PairKey)
    requires i <= |refs|
    ensures p in RowsPairs(refs, i) <==> exists a, b :: 0 <= a < i && a < b < |refs| && p == PairKey(refs[a], refs[b])
  {
    if i > 0 {
      RowsPairsAre(refs, i - 1, p);
      RowPairsAre(refs, i - 1, |refs|, p);
    }
  }

  lemma RowsPairsAll(refs: seq<Ref>)
    requires Ascending(refs)
    ensures RowsPairs(refs, |refs|) == PairsOf(Elements(refs))
  {
    forall p ensures p in RowsPairs(refs, |refs|) <==> p in PairsOf(Elements(refs)) {
      RowsPairsAre(refs, |refs|, p);
      if p in PairsOf(Elements(refs)) {
        var a :| 0 <= a < |refs| && refs[a] == p.left;
        var b :| 0 <= b < |refs| && refs[b] == p.right;
        assert a < b;
      }
    }
  }

  lemma SortedMembers(members: seq<Ref>)
    requires Distinct(members)
    ensures Ascending(SortBy(members, RefRank)) && Elements(SortBy(members, RefRank)) == Elements(members)
    ensures |SortBy(members, RefRank)| == |members| == |Elements(members)|
  {
    var sorted := SortBy(members, RefRank);
    SortSorted(members, RefRank);
    SortMultiset(members, RefRank);
    SameMultisetSameElements(sorted, members);
    DistinctPermuted(members, sorted);
    DistinctSize(members);
    forall i, j | 0 <= i < j < |sorted| ensures RefLess(sorted[i], sorted[j]) {
      RankLe(sorted[i], sorted[j]);
    }
  }

  /** The table once one pair has the channel too. */
  function Put(pairs: Pairs, p: PairKey, id: string): Pairs {
    pairs[p := (if p in pairs then pairs[p] else {}) + {id}]
  }

  lemma PutSize(pairs: Pairs, p: PairKey, id: string)
    ensures |Put(pairs, p, id)| == if p in pairs then |pairs| else |pairs| + 1
  {
    assert Put(pairs, p, id).Keys == pairs.Keys + {p};
    if p in pairs { assert pairs.Keys + {p} == pairs.Keys; }
  }

  lemma PutIsGain(pairs: Pairs, p: PairKey, id: string)
    ensures Put(pairs, p, id) == Gain(pairs, {p}, id)
  {
    var x, y := Put(pairs, p, id), Gain(pairs, {p}, id);
    assert x.Keys == y.Keys;
    forall q | q in x ensures x[q] == y[q] {
      if q != p { assert pairs[q] + {} == pairs[q]; }
    }
  }

  /** The table once position `i` is paired with those between it and `j`. */
  ghost function GainRow(pairs: Pairs, refs: seq<Ref>, i: nat, j: nat, id: string): Pairs
    requires i < |refs| && j <= |refs|
  {
    if j <= i + 1 then pairs else Put(GainRow(pairs, refs, i, j - 1, id), PairKey(refs[i], refs[j - 1]), id)
  }

  /** The table once the first `i` positions are paired with all later ones. */
  ghost function GainRows(pairs: Pairs, refs: seq<Ref>, i: nat, id: string): Pairs
    requires i <= |refs|
  {
    if i == 0 then pairs else GainRow(GainRows(pairs, refs, i - 1, id), refs, i - 1, |refs|, id)
  }

  /** The table once every two members of a block are paired. */
  ghost function GainBlock(pairs: Pairs, members: seq<Ref>, id: string): Pairs {
    var sorted := SortBy(members, RefRank);
    GainRows(pairs, sorted, |sorted|, id)
  }

  lemma {:induction false} GainRowIs(pairs: Pairs, refs: seq<Ref>, i: nat, j: nat, id: string)
    requires i < |refs| && j <= |refs|
    ensures GainRow(pairs, refs, i, j, id) == Gain(pairs, RowPairs(refs, i, j), id)
  {
    if j <= i + 1 {
      GainNothing(pairs, id);
    } else {
      GainRowIs(pairs, refs, i, j - 1, id);
      PutIsGain(GainRow(pairs, refs, i, j - 1, id), PairKey(refs[i], refs[j - 1]), id);
      GainTwice(pairs, RowPairs(refs, i, j - 1), {PairKey(refs[i], refs[j - 1])}, id);
    }
  }

  lemma {:induction false} GainRowsIs(pairs: Pairs, refs: seq<Ref>, i: nat, id: string)
    requires i <= |refs|
    ensures GainRows(pairs, refs, i, id) == Gain(pairs, RowsPairs(refs, i), id)
  {
    if i == 0 {
      GainNothing(pairs, id);
    } else {
      GainRowsIs(pairs, refs, i - 1, id);
      GainRowIs(GainRows(pairs, refs, i - 1, id), refs, i - 1, |refs|, id);
      GainTwice(pairs, RowsPairs(refs, i - 1), RowPairs(refs, i - 1, |refs|), id);
    }
  }

  lemma {:induction false} GainRowGrows(pairs: Pairs, refs: seq<Ref>, i: nat, j: nat, id: string)
    requires i < |refs| && j <= |refs|
    ensures |GainRow(pairs, refs, i, j, id)| <= |GainRow(pairs, refs, i, |refs|, id)|
    decreases |refs| - j
  {
    if j < |refs| {
      GainRowGrows(pairs, refs, i, j + 1, id);
      if j > i { PutSize(GainRow(pairs, refs, i, j, id), PairKey(refs[i], refs[j]), id); }
    }
  }

  lemma {:induction false} GainRowsGrow(pairs: Pairs, refs: seq<Ref>, i: nat, id: string)
    requires i <= |refs|
    ensures |GainRows(pairs, refs, i, id)| <= |GainRows(pairs, refs, |refs|, id)|
    decreases |refs| - i
  {
    if i < |refs| {
      GainRowsGrow(pairs, refs, i + 1, id);
      GainRowGrows(GainRows(pairs, refs, i, id), refs, i, 0, id);
    }
  }

  lemma GainBlockIs(pairs: Pairs, members: seq<Ref>, id: string)
    requires Distinct(members)
    ensures GainBlock(pairs, members, id) == Gain(pairs, PairsOf(Elements(members)), id)
  {
    var sorted := SortBy(members, RefRank);
    SortedMembers(members);
    GainRowsIs(pairs, sorted, |sorted|, id);
    RowsPairsAll(sorted);
  }

  lemma GainBlockGrows(pairs: Pairs, members: seq<Ref>, id: string)
    ensures |pairs| <= |GainBlock(pairs, members, id)|
  {
    GainRowsGrow(pairs, SortBy(members, RefRank), 0, id);
  }

  /** Records one pair under a channel, if there is room. */
  method AddPair(pairs: Pairs, p: PairKey, id: string, maxPairs: nat) returns (ok: bool, next: Pairs)
    requires |pairs| <= maxPairs
    ensures ok <==> |Put(pairs, p, id)| <= maxPairs
    ensures ok ==> Same(next, Put(pairs, p, id))
  {
    PutSize(pairs, p, id);
    next := pairs;
    if p !in pairs {
      if |pairs| >= maxPairs {
        return false, next;
      }
      next := pairs[p := {id}];
      assert {} + {id} == {id};
    } else {
      next := pairs[p := pairs[p] + {id}];
    }
    ok := true;
  }

  lemma RowStep(pairs: Pairs, sorted: seq<Ref>, i: nat, j: nat, id: string)
    requires i < j < |sorted|
    ensures Same(GainRow(pairs, sorted, i, j + 1, id),
      Put(GainRow(pairs, sorted, i, j, id), PairKey(sorted[i], sorted[j]), id))
    ensures |GainRow(pairs, sorted, i, j + 1, id)| <= |GainRow(pairs, sorted, i, |sorted|, id)|
  {
    GainRowGrows(pairs, sorted, i, j + 1, id);
  }

  lemma RowsStep(pairs: Pairs, sorted: seq<Ref>, i: nat, id: string)
    requires i < |sorted|
    ensures Same(GainRows(pairs, sorted, i + 1, id), GainRow(GainRows(pairs, sorted, i, id), sorted, i, |sorted|, id))
    ensures |GainRows(pairs, sorted, i + 1, id)| <= |GainRows(pairs, sorted, |sorted|, id)|
  {
    GainRowsGrow(pairs, sorted, i + 1, id);
  }

  /** Pairs one position with all later ones. */
  method AddRow(pairs: Pairs, sorted: seq<Ref>, i: nat, id: string, maxPairs: nat) returns (ok: bool, after: Pairs)
    requires i < |sorted| && |pairs| <= maxPairs
    ensures ok <==> |GainRow(pairs, sorted, i, |sorted|, id)| <= maxPairs
    ensures ok ==> Same(after, GainRow(pairs, sorted, i, |sorted|, id))
  {
    ok, after := true, pairs;
    for j := i + 1 to |sorted|
      invariant Same(after, GainRow(pairs, sorted, i, j, id)) && |after| <= maxPairs
    {
      RowStep(pairs, sorted, i, j, id);
      ok, after := AddPair(after, PairKey(sorted[i], sorted[j]), id, maxPairs);
      if !ok {
        return;
      }
    }
    ok := true;
  }

  /** The double loop over a block in record order. */
  method AddSorted(pairs: Pairs, sorted: seq<Ref>, id: string, maxPairs: nat) returns (r: Result<Pairs, CandidateError>)
    requires |pairs| <= maxPairs
    ensures r.Ok? <==> |GainRows(pairs, sorted, |sorted|, id)| <= maxPairs
    ensures r.Ok? ==> Same(r.value, GainRows(pairs, sorted, |sorted|, id))
  {
    var ok, after := true, pairs;
    for i := 0 to |sorted|
      invariant Same(after, GainRows(pairs, sorted, i, id)) && |after| <= maxPairs
    {
      RowsStep(pairs, sorted, i, id);
      ok, after := AddRow(after, sorted, i, id, maxPairs);
      if !ok {
        return Err(TotalLimit);
      }
    }
    r := Ok(after);
  }

  lemma BlockSize(pairs: Pairs, members: seq<Ref>, id: string)
    requires Distinct(members)
    ensures |SortBy(members, RefRank)| == |members|
    ensures |members| * (|members| - 1) / 2 <= |GainBlock(pairs, members, id)|
  {
    SortedMembers(members);
    CountPairs(Elements(members));
    GainBlockIs(pairs, members, id);
    GainSize(pairs, PairsOf(Elements(members)), id);
  }

  /** Adds every pair of a block, unless there are too many. */
  method AddPairs(pairs: Pairs, members: seq<Ref>, id: string, maxPairs: nat) returns (r: Result<Pairs, CandidateError>)
    requires Distinct(members) && |pairs| <= maxPairs
    ensures r.Ok? <==> |members| * (|members| - 1) <= MAX_COUNT && |GainBlock(pairs, members, id)| <= maxPairs
    ensures r.Ok? ==> Same(r.value, GainBlock(pairs, members, id))
  {
    var sorted := SortBy(members, RefRank);
    BlockSize(pairs, members, id);
    var product := |sorted| * (|sorted| - 1);
    if product > MAX_COUNT {
      return Err(CountOverflow);
    }
    if product / 2 > maxPairs {
      return Err(TotalLimit);
    }
    r := AddSorted(pairs, sorted, id, maxPairs);
  }

  // ---- one channel ----

  /** The pairs within the blocks of some keys. */
  ghost function Spread(blocks: Blocks, keys: set<BlockKey>): set<PairKey> {
    set key, p | key in keys && p in PairsOf(Elements(Members(blocks, key))) :: p
  }

  lemma SpreadMore(blocks: Blocks, keys: set<BlockKey>, key: BlockKey)
    ensures Spread(blocks, keys + {key}) == Spread(blocks, keys) + PairsOf(Elements(Members(blocks, key)))
  {
  }

  /** The table once the blocks of the first `n` keys are added. */
  ghost function GainBlocks(pairs: Pairs, blocks: Blocks, keys: seq<BlockKey>, n: nat, id: string): Pairs
    requires n <= |keys|
  {
    if n == 0 then pairs else GainBlock(GainBlocks(pairs, blocks, keys, n - 1, id), Members(blocks, keys[n - 1]), id)
  }

  ghost function SpreadOver(blocks: Blocks, keys: seq<BlockKey>, n: nat): set<PairKey>
    requires n <= |keys|
  {
    if n == 0 then {} else SpreadOver(blocks, keys, n - 1) + PairsOf(Elements(Members(blocks, keys[n - 1])))
  }

  lemma SpreadOverIs(blocks: Blocks, keys: seq<BlockKey>, n: nat)
    requires n <= |keys|
    ensures SpreadOver(blocks, keys, n) == Spread(blocks, Elements(keys[..n]))
  {
    if n > 0 {
      SpreadOverIs(blocks, keys, n - 1);
      assert keys[..n] == keys[..n - 1] + [keys[n - 1]];
      assert Elements(keys[..n]) == Elements(keys[..n - 1]) + {keys[n - 1]};
      SpreadMore(blocks, Elements(keys[..n - 1]), keys[n - 1]);
    }
  }

  lemma {:induction false} GainBlocksIs(pairs: Pairs, blocks: Blocks, keys: seq<BlockKey>, n: nat, id: string)
    requires n <= |keys| && forall key | key in blocks :: Distinct(blocks[key])
    ensures GainBlocks(pairs, blocks, keys, n, id) == Gain(pairs, SpreadOver(blocks, keys, n), id)
  {
    if n == 0 {
      GainNothing(pairs, id);
    } else {
      GainBlocksIs(pairs, blocks, keys, n - 1, id);
      GainBlockIs(GainBlocks(pairs, blocks, keys, n - 1, id), Members(blocks, keys[n - 1]), id);
      GainTwice(pairs, SpreadOver(blocks, keys, n - 1), PairsOf(Elements(Members(blocks, keys[n - 1]))), id);
    }
  }

  lemma {:induction false} GainBlocksGrow(pairs: Pairs, blocks: Blocks, keys: seq<BlockKey>, n: nat, id: string)
    requires n <= |keys|
    ensures |GainBlocks(pairs, blocks, keys, n, id)| <= |GainBlocks(pairs, blocks, keys, |keys|, id)|
    decreases |keys| - n
  {
    if n < |keys| {
      GainBlocksGrow(pairs, blocks, keys, n + 1, id);
      GainBlockGrows(GainBlocks(pairs, blocks, keys, n, id), Members(blocks, keys[n]), id);
    }
  }

  /** The table once every block is added. */
  ghost function GainSpread(pairs: Pairs, blocks: Blocks, id: string): Pairs {
    Gain(pairs, Spread(blocks, blocks.Keys), id)
  }

  lemma GainEveryBlock(pairs: Pairs, blocks: Blocks, keys: seq<BlockKey>, id: string)
    requires Elements(keys) == blocks.Keys && forall key | key in blocks :: Distinct(blocks[key])
    ensures Same(GainBlocks(pairs, blocks, keys, |keys|, id), GainSpread(pairs, blocks, id))
  {
    GainBlocksIs(pairs, blocks, keys, |keys|, id);
    SpreadOverIs(blocks, keys, |keys|);
    assert keys[..|keys|] == keys;
  }

  /** The keys of the blocks in ascending order. */
  method KeysInOrder(keys: set<BlockKey>) returns (order: seq<BlockKey>)
    ensures Elements(order) == keys && KeysSorted(order)
  {
    order := [];
    var todo := keys;
    while todo != {}
      invariant Elements(order) + todo == keys && KeysSorted(order)
      invariant forall a, b | a in order && b in todo :: LexLe(a, b)
    {
      ghost var least := LeastByRank(todo, (k: BlockKey) => k);
      var key :| key in todo && forall k | k in todo :: LexLe(key, k);
      PushSorted(order, key);
      order, todo := order + [key], todo - {key};
    }
  }

  lemma PushSorted(order: seq<BlockKey>, key: BlockKey)
    requires KeysSorted(order) && forall a | a in order :: LexLe(a, key)
    ensures KeysSorted(order + [key]) && Elements(order + [key]) == Elements(order) + {key}
  {
  }

  ghost predicate BlocksFit(blocks: Blocks, keys: seq<BlockKey>, limits: Limits) {
    forall i | 0 <= i < |keys| :: BlockFits(|Members(blocks, keys[i])|, limits)
  }

  /** Adds the pairs of every block in key order. */
  method MergeBlocks(pairs: Pairs, blocks: Blocks, keys: seq<BlockKey>, id: string, limits: Limits)
    returns (r: Result<Pairs, CandidateError>)
    requires |pairs| <= limits.maxPairs && forall i | 0 <= i < |keys| :: keys[i] in blocks && Distinct(blocks[keys[i]])
    ensures r.Ok? <==>
      BlocksFit(blocks, keys, limits) && |GainBlocks(pairs, blocks, keys, |keys|, id)| <= limits.maxPairs
    ensures r.Ok? ==> Same(r.value, GainBlocks(pairs, blocks, keys, |keys|, id))
  {
    var after := pairs;
    for i := 0 to |keys|
      invariant Same(after, GainBlocks(pairs, blocks, keys, i, id)) && |after| <= limits.maxPairs
      invariant forall k | 0 <= k < i :: BlockFits(|Members(blocks, keys[k])|, limits)
    {
      GainBlocksGrow(pairs, blocks, keys, i + 1, id);
      var next := MergeBlock(after, blocks, keys[i], id, limits);
      if next.Err? {
        return next;
      }
      after := next.value;
    }
    r := Ok(after);
  }

  method MergeBlock(pairs: Pairs, blocks: Blocks, key: BlockKey, id: string, limits: Limits)
    returns (r: Result<Pairs, CandidateError>)
    requires key in blocks && Distinct(blocks[key]) && |pairs| <= limits.maxPairs
    ensures r.Ok? <==>
      BlockFits(|Members(blocks, key)|, limits) && |GainBlock(pairs, Members(blocks, key), id)| <= limits.maxPairs
    ensures r.Ok? ==> Same(r.value, GainBlock(pairs, Members(blocks, key), id))
  {
    if |blocks[key]| > limits.maxBlockRecords {
      return Err(BlockLimit);
    }
    r := AddPairs(pairs, blocks[key], id, limits.maxPairs);
  }

  ghost predicate ShareKey(c: Channel, values: seq<Normalized>, space: Spaces, l: Ref, r: Ref)
    requires ChannelValid(c)
  {
    BlockKeys(c, values, space, l.id) * BlockKeys(c, values, space, r.id) != {}
  }

  /** The pairs of records that share a block of the channel. */
  ghost function KeyPairs(c: Channel, values: seq<Normalized>, space: Spaces): set<PairKey>
    requires ChannelValid(c)
  {
    set l, r | l in Refs(values) && r in Refs(values) && RefLess(l, r) && ShareKey(c, values, space, l, r) ::
      PairKey(l, r)
  }

  /** No block of the channel is beyond the limits. */
  ghost predicate ChannelFits(c: Channel, values: seq<Normalized>, space: Spaces, limits: Limits)
    requires ChannelValid(c)
  {
    forall key :: BlockFits(|Block(c, values, space, key)|, limits)
  }

  lemma SpreadIsKeyPairs(c: Channel, values: seq<Normalized>, space: Spaces, blocks: Blocks)
    requires ChannelValid(c) && Filled(c, values, space, blocks)
    ensures Spread(blocks, blocks.Keys) == KeyPairs(c, values, space)
  {
    forall p | p in Spread(blocks, blocks.Keys) ensures p in KeyPairs(c, values, space) {
      var key :| key in blocks && p in PairsOf(Elements(Members(blocks, key)));
      assert HoldsBlock(c, values, space, blocks, key);
      assert key in BlockKeys(c, values, space, p.left.id) * BlockKeys(c, values, space, p.right.id);
    }
    forall p | p in KeyPairs(c, values, space) ensures p in Spread(blocks, blocks.Keys) {
      var key :| key in BlockKeys(c, values, space, p.left.id) * BlockKeys(c, values, space, p.right.id);
      assert HoldsBlock(c, values, space, blocks, key);
      assert p.left in Elements(Members(blocks, key)) && p.right in Elements(Members(blocks, key));
      assert key in blocks && p in PairsOf(Elements(Members(blocks, key)));
    }
  }

  lemma BlocksFitIsChannelFits(c: Channel, values: seq<Normalized>, space: Spaces, blocks: Blocks, keys: seq<BlockKey>,
      limits: Limits)
    requires ChannelValid(c) && Filled(c, values, space, blocks) && Elements(keys) == blocks.Keys
    ensures BlocksFit(blocks, keys, limits) <==> ChannelFits(c, values, space, limits)
  {
    forall key ensures |Members(blocks, key)| == |Block(c, values, space, key)| {
      assert HoldsBlock(c, values, space, blocks, key);
      DistinctSize(Members(blocks, key));
    }
    if BlocksFit(blocks, keys, limits) {
      forall key ensures BlockFits(|Block(c, values, space, key)|, limits) {
        if key in blocks {
          assert key in Elements(keys);
          var i :| 0 <= i < |keys| && keys[i] == key;
        }
      }
    }
    if ChannelFits(c, values, space, limits) {
      forall i | 0 <= i < |keys| ensures BlockFits(|Members(blocks, keys[i])|, limits) {
        assert BlockFits(|Block(c, values, space, keys[i])|, limits);
      }
    }
  }

  lemma FilledDistinct(c: Channel, values: seq<Normalized>, space: Spaces, blocks: Blocks)
    requires ChannelValid(c) && Filled(c, values, space, blocks)
    ensures forall key | key in blocks :: Distinct(blocks[key])
  {
    forall key | key in blocks ensures Distinct(blocks[key]) {
      assert HoldsBlock(c, values, space, blocks, key);
    }
  }

  method FillBlocks(c: Channel, values: seq<Normalized>, space: Spaces) returns (result: Result<Blocks, CandidateError>)
    requires ChannelValid(c) && ValuesValid(values)
    ensures result.Ok? && Filled(c, values, space, result.value)
  {
    if c.kind.CompositeExact? {
      result := FillComposite(c, values, space);
    } else {
      result := FillField(c, values, space);
    }
  }

  /** Blocks one channel and adds its pairs. */
  method AddChannel(pairs: Pairs, c: Channel, values: seq<Normalized>, space: Spaces, limits: Limits)
    returns (r: Result<Pairs, CandidateError>)
    requires ChannelValid(c) && ValuesValid(values) && |pairs| <= limits.maxPairs
    ensures r.Ok? <==>
      ChannelFits(c, values, space, limits) && |Gain(pairs, KeyPairs(c, values, space), c.id)| <= limits.maxPairs
    ensures r.Ok? ==> Same(r.value, Gain(pairs, KeyPairs(c, values, space), c.id))
  {
    var blocks := FillBlocks(c, values, space);
    FilledDistinct(c, values, space, blocks.value);
    SpreadIsKeyPairs(c, values, space, blocks.value);
    var keys := KeysInOrder(blocks.value.Keys);
    assert forall i | 0 <= i < |keys| :: keys[i] in Elements(keys);
    r := MergeBlocks(pairs, blocks.value, keys, c.id, limits);
    BlocksFitIsChannelFits(c, values, space, blocks.value, keys, limits);
    GainEveryBlock(pairs, blocks.value, keys, c.id);
  }

  // ---- all channels ----

  ghost predicate AllValid(channels: seq<Channel>) {
    forall c | c in channels :: ChannelValid(c)
  }

  /** The pairs the channels find, each with the channels that find it. */
  ghost function Table(channels: seq<Channel>, values: seq<Normalized>, space: Spaces): Pairs
    requires AllValid(channels)
  {
    if channels == [] then map[]
    else
      var c := channels[|channels| - 1];
      Gain(Table(channels[..|channels| - 1], values, space), KeyPairs(c, values, space), c.id)
  }

  ghost function Finders(channels: seq<Channel>, values: seq<Normalized>, space: Spaces, p: PairKey): set<string>
    requires AllValid(channels)
  {
    set c | c in channels && p in KeyPairs(c, values, space) :: c.id
  }

  lemma FindersMore(channels: seq<Channel>, c: Channel, values: seq<Normalized>, space: Spaces, p: PairKey)
    requires AllValid(channels) && ChannelValid(c)
    ensures AllValid(channels + [c])
    ensures Finders(channels + [c], values, space, p)
         == Finders(channels, values, space, p) + if p in KeyPairs(c, values, space) then {c.id} else {}
  {
    assert forall d :: d in channels + [c] <==> d in channels || d == c;
  }

  lemma {:induction false} TableIs(channels: seq<Channel>, values: seq<Normalized>, space: Spaces, p: PairKey)
    requires AllValid(channels)
    ensures var finders := Finders(channels, values, space, p);
      && (p in Table(channels, values, space) <==> finders != {})
      && (p in Table(channels, values, space) ==> Table(channels, values, space)[p] == finders)
  {
    if channels != [] {
      var c, rest := channels[|channels| - 1], channels[..|channels| - 1];
      TableIs(rest, values, space, p);
      assert channels == rest + [c];
      FindersMore(rest, c, values, space, p);
    }
  }

  lemma {:induction false} TableGrows(channels: seq<Channel>, values: seq<Normalized>, space: Spaces, i: nat)
    requires AllValid(channels) && i <= |channels|
    ensures AllValid(channels[..i]) && |Table(channels[..i], values, space)| <= |Table(channels, values, space)|
    decreases |channels| - i
  {
    if i == |channels| {
      assert channels[..i] == channels;
    } else {
      TableGrows(channels, values, space, i + 1);
      var more := channels[..i + 1];
      assert more[..i] == channels[..i];
      GainSize(Table(channels[..i], values, space), KeyPairs(channels[i], values, space), channels[i].id);
    }
  }

  // ---- the table is what the all-pairs search lists ----

  ghost predicate InOrder(values: seq<Normalized>, p: PairKey) {
    p.left in Refs(values) && p.right in Refs(values) && RefLess(p.left, p.right)
  }

  lemma KeyPairsAre(c: Channel, values: seq<Normalized>, space: Spaces, p: PairKey)
    requires ChannelValid(c) && ShortValues(values)
    ensures p in KeyPairs(c, values, space) <==> InOrder(values, p) && Matches(c, values, space, p.left.id, p.right.id)
  {
    SharedBlockIsMatch(c, values, space, p.left.id, p.right.id);
  }

  lemma FindersAre(plan: Plan, values: seq<Normalized>, space: Spaces, p: PairKey)
    requires PlanValid(plan) && ShortValues(values)
    ensures AllValid(plan)
    ensures Finders(plan, values, space, p) == if InOrder(values, p) then Found(plan, values, space, p) else {}
  {
    forall c | c in plan
      ensures ChannelValid(c) && (p in KeyPairs(c, values, space) <==>
      InOrder(values, p) && Matches(c, values, space, p.left.id, p.right.id)) {
      KeyPairsAre(c, values, space, p);
    }
  }

  lemma PlanChannels(plan: Plan)
    requires PlanValid(plan)
    ensures AllValid(plan)
  {
  }

  /** A pair and its channels stand in the table exactly when the search lists them. */
  lemma TableListed(plan: Plan, values: seq<Normalized>, space: Spaces, x: CandidatePair)
    requires PlanValid(plan) && AllValid(plan) && ShortValues(values)
    ensures x.pair in Table(plan, values, space) && x.channels == Table(plan, values, space)[x.pair] <==>
      x in AllPairs(plan, values, space)
  {
    TableIs(plan, values, space, x.pair);
    FindersAre(plan, values, space, x.pair);
    AllPairsAre(plan, values, space, x);
  }

  function PairOf(x: CandidatePair): PairKey { x.pair }

  lemma AllPairsAscending(plan: Plan, values: seq<Normalized>, space: Spaces)
    requires PlanValid(plan)
    ensures PairsAscending(AllPairs(plan, values, space))
  {
    SortedRefsAre(values);
    PairRowsAscending(plan, values, space, SortedRefs(values));
  }

  lemma AscendingPairs(all: seq<CandidatePair>)
    requires PairsAscending(all)
    ensures Distinct(Map(all, PairOf))
  {
    var pairs := Map(all, PairOf);
    forall i, j | 0 <= i < j < |pairs| ensures pairs[i] != pairs[j] {
      assert PairLess(all[i].pair, all[j].pair);
    }
  }

  lemma MappedPairs(all: seq<CandidatePair>, p: PairKey)
    ensures p in Map(all, PairOf) <==> exists x :: x in all && x.pair == p
  {
    var pairs := Map(all, PairOf);
    if p in pairs {
      var i :| 0 <= i < |pairs| && pairs[i] == p;
      assert all[i] in all && all[i].pair == p;
    }
    if x :| x in all && x.pair == p {
      var i :| 0 <= i < |all| && all[i] == x;
      assert pairs[i] == p;
    }
  }

  /** The table has as many pairs as the search lists. */
  lemma TableSize(plan: Plan, values: seq<Normalized>, space: Spaces)
    requires PlanValid(plan) && AllValid(plan) && ShortValues(values)
    ensures |Table(plan, values, space)| == |AllPairs(plan, values, space)|
  {
    AllPairsAscending(plan, values, space);
    forall x: CandidatePair
      ensures x.pair in Table(plan, values, space) && x.channels == Table(plan, values, space)[x.pair] <==>
      x in AllPairs(plan, values, space) {
      TableListed(plan, values, space, x);
    }
    EntriesCounted(Table(plan, values, space), AllPairs(plan, values, space));
  }

  /** An ascending list of a table's entries is as long as the table. */
  lemma EntriesCounted(table: Pairs, all: seq<CandidatePair>)
    requires PairsAscending(all)
    requires forall x: CandidatePair :: x.pair in table && x.channels == table[x.pair] <==> x in all
    ensures |table| == |all|
  {
    AscendingPairs(all);
    DistinctSize(Map(all, PairOf));
    forall p ensures p in Map(all, PairOf) <==> p in table {
      MappedPairs(all, p);
      if p in table { assert CandidatePair(p, table[p]) in all; }
    }
    assert Elements(Map(all, PairOf)) == table.Keys;
  }

  // ---- reading the table out ----

  ghost predicate RanksRise(out: seq<CandidatePair>) {
    forall i, j | 0 <= i < j < |out| ::
      out[i].pair != out[j].pair && LexLe(PairRank(out[i].pair), PairRank(out[j].pair))
  }

  method LeastPair(todo: set<PairKey>) returns (p: PairKey)
    requires todo != {}
    ensures p in todo && forall q | q in todo :: LexLe(PairRank(p), PairRank(q))
  {
    ghost var least := LeastByRank(todo, PairRank);
    p :| p in todo && forall q | q in todo :: LexLe(PairRank(p), PairRank(q));
  }

  ghost predicate ReadOut(pairs: Pairs, todo: set<PairKey>, out: seq<CandidatePair>) {
    && todo <= pairs.Keys
    && (forall x :: x in out <==> x.pair in pairs && x.pair !in todo && x.channels == pairs[x.pair])
    && RanksRise(out)
    && (forall x, q | x in out && q in todo :: LexLe(PairRank(x.pair), PairRank(q)))
  }

  lemma ReadOutMore(pairs: Pairs, todo: set<PairKey>, out: seq<CandidatePair>, p: PairKey)
    requires ReadOut(pairs, todo, out) && p in todo && forall q | q in todo :: LexLe(PairRank(p), PairRank(q))
    ensures ReadOut(pairs, todo - {p}, out + [CandidatePair(p, pairs[p])])
  {
    var x := CandidatePair(p, pairs[p]);
    var after := out + [x];
    forall i, j | 0 <= i < j < |after|
      ensures after[i].pair != after[j].pair && LexLe(PairRank(after[i].pair), PairRank(after[j].pair)) {
      assert after[i] == out[i] && out[i] in out;
    }
  }

  /** The entries in ascending pair order. */
  method ListPairs(pairs: Pairs) returns (out: seq<CandidatePair>)
    ensures RanksRise(out) && forall x :: x in out <==> x.pair in pairs && x.channels == pairs[x.pair]
  {
    out := [];
    var todo := pairs.Keys;
    while todo != {}
      invariant ReadOut(pairs, todo, out)
    {
      var p := LeastPair(todo);
      ReadOutMore(pairs, todo, out, p);
      out, todo := out + [CandidatePair(p, pairs[p])], todo - {p};
    }
  }

  lemma SameKeySameRef(values: seq<Normalized>, a: Ref, b: Ref)
    requires ValuesValid(values) && a in Refs(values) && b in Refs(values) && a.key == b.key
    ensures a == b
  {
    var v :| v in values && RefOf(v) == a;
    var w :| w in values && RefOf(w) == b;
    SameRecordSameRef(values, v, w);
  }

  lemma RankLeHeads(p: PairKey, q: PairKey)
    requires LexLe(PairRank(p), PairRank(q))
    ensures p.left.key < q.left.key || (p.left.key == q.left.key && p.right.key <= q.right.key)
  {
    var x, y := PairRank(p), PairRank(q);
    assert x[1..] == [p.right.key, p.left.id, p.right.id] && y[1..] == [q.right.key, q.left.id, q.right.id];
    assert p.left.key == q.left.key ==> LexLe(x[1..], y[1..]);
  }

  /** With unique sort keys the order of the table is the order of the search. */
  lemma RankOrders(values: seq<Normalized>, p: PairKey, q: PairKey)
    requires ValuesValid(values) && InOrder(values, p) && InOrder(values, q)
    requires p != q && LexLe(PairRank(p), PairRank(q))
    ensures PairLess(p, q)
  {
    RankLeHeads(p, q);
    if p.left.key == q.left.key {
      SameKeySameRef(values, p.left, q.left);
      if p.right.key == q.right.key { SameKeySameRef(values, p.right, q.right); }
    }
  }

  lemma ReadOutIsAllPairs(plan: Plan, values: seq<Normalized>, space: Spaces, out: seq<CandidatePair>)
    requires PlanValid(plan) && AllValid(plan) && ValuesValid(values) && ShortValues(values) && RanksRise(out)
    requires forall x ::
      x in out <==> x.pair in Table(plan, values, space) && x.channels == Table(plan, values, space)[x.pair]
    ensures out == AllPairs(plan, values, space)
  {
    forall x ensures x in out <==> x in AllPairs(plan, values, space) {
      TableListed(plan, values, space, x);
    }
    forall i, j | 0 <= i < j < |out| ensures PairLess(out[i].pair, out[j].pair) {
      assert out[i] in out && out[j] in out;
      AllPairsAre(plan, values, space, out[i]);
      AllPairsAre(plan, values, space, out[j]);
      RankOrders(values, out[i].pair, out[j].pair);
    }
    AllPairsAscending(plan, values, space);
    AscendingUnique(out, AllPairs(plan, values, space));
  }

  // ---- candidate generation ----

  predicate LimitsValid(limits: Limits) {
    limits.maxBlockRecords > 0 && limits.maxPairs > 0
  }

  /** No block and not the whole result is beyond the limits. */
  ghost predicate Fits(plan: Plan, values: seq<Normalized>, space: Spaces, limits: Limits)
    requires PlanValid(plan)
  {
    && (forall i | 0 <= i < |plan| :: ChannelFits(plan[i], values, space, limits))
    && |AllPairs(plan, values, space)| <= limits.maxPairs
  }

  lemma TableNext(plan: Plan, values: seq<Normalized>, space: Spaces, i: nat)
    requires AllValid(plan) && i < |plan|
    ensures AllValid(plan[..i]) && AllValid(plan[..i + 1]) && ChannelValid(plan[i])
    ensures Same(Gain(Table(plan[..i], values, space), KeyPairs(plan[i], values, space), plan[i].id),
      Table(plan[..i + 1], values, space))
  {
    assert plan[i] in plan && plan[..i + 1][..i] == plan[..i];
  }

  /** Runs the channels one after another over a shared table. */
  method RunChannels(plan: Plan, values: seq<Normalized>, space: Spaces, limits: Limits)
    returns (r: Result<Pairs, CandidateError>)
    requires PlanValid(plan) && AllValid(plan) && ValuesValid(values)
    ensures r.Ok? <==>
      (forall i | 0 <= i < |plan| :: ChannelFits(plan[i], values, space, limits))
      && |Table(plan, values, space)| <= limits.maxPairs
    ensures r.Ok? ==> Same(r.value, Table(plan, values, space))
  {
    var pairs: Pairs := map[];
    for i := 0 to |plan|
      invariant AllValid(plan[..i]) && Same(pairs, Table(plan[..i], values, space)) && |pairs| <= limits.maxPairs
      invariant forall k | 0 <= k < i :: ChannelFits(plan[k], values, space, limits)
    {
      assert plan[i] in plan;
      TableGrows(plan, values, space, i + 1);
      TableNext(plan, values, space, i);
      var next := AddChannel(pairs, plan[i], values, space, limits);
      if next.Err? {
        return next;
      }
      pairs := next.value;
    }
    assert plan[..|plan|] == plan;
    r := Ok(pairs);
  }

  /** On valid input blocking succeeds exactly within the limits, and then returns what the search
      over all pairs returns: the same pairs, in the same order, found by the same channels. */
  method GenerateCandidates(plan: Plan, values: seq<Normalized>, space: Spaces, limits: Limits)
    returns (r: Result<seq<CandidatePair>, CandidateError>)
    ensures !PlanValid(plan) ==> r == Err(PlanInvalid)
    ensures PlanValid(plan) && !LimitsValid(limits) ==> r == Err(LimitsInvalid)
    ensures PlanValid(plan) && LimitsValid(limits) && !ValuesValid(values) ==> r == Err(RecordsInvalid)
    ensures PlanValid(plan) && LimitsValid(limits) && ValuesValid(values) && ShortValues(values) ==>
      && (r.Ok? <==> Fits(plan, values, space, limits))
      && (r.Ok? ==> r.value == AllPairs(plan, values, space))
  {
    if !PlanValid(plan) {
      return Err(PlanInvalid);
    }
    if !LimitsValid(limits) {
      return Err(LimitsInvalid);
    }
    var valid := ValidateRecords(values);
    if !valid {
      return Err(RecordsInvalid);
    }
    PlanChannels(plan);
    var pairs := RunChannels(plan, values, space, limits);
    if ShortValues(values) {
      TableSize(plan, values, space);
    }
    if pairs.Err? {
      return Err(pairs.error);
    }
    var out := ListPairs(pairs.value);
    if ShortValues(values) {
      ReadOutIsAllPairs(plan, values, space, out);
    }
    r := Ok(out);
  }
}
