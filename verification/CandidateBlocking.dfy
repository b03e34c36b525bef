/** Blocked candidate generation and the all-pairs search it replaces. */
module Blocking {
  import opened Prelude
  import opened Sorting
  import opened Types
  import opened Candidates

  datatype Ref = Ref(key: Key, id: Id)

  datatype PairKey = PairKey(left: Ref, right: Ref)

  /** A candidate pair and the channels that found it; the source lists the channels in order. */
  datatype CandidatePair = CandidatePair(pair: PairKey, channels: set<string>)

  function RefOf(v: Normalized): Ref { Ref(v.sortKey, v.record) }
  function RefRank(r: Ref): seq<int> { [r.key, r.id] }
  function PairRank(p: PairKey): seq<int> { [p.left.key, p.right.key, p.left.id, p.right.id] }

  predicate RefLess(a: Ref, b: Ref) {
    a.key < b.key || (a.key == b.key && a.id < b.id)
  }

  ghost function Refs(values: seq<Normalized>): set<Ref> {
    set v | v in values :: RefOf(v)
  }

  // ---- the all-pairs search ----

  function SortedRefs(values: seq<Normalized>): seq<Ref> {
    Dedup(SortBy(Map(values, RefOf), RefRank))
  }

  function Found(plan: Plan, values: seq<Normalized>, space: Spaces, p: PairKey): set<string>
    requires PlanValid(plan)
  {
    set c | c in plan && Matches(c, values, space, p.left.id, p.right.id) :: c.id
  }

  /** Pairs `left` with each of `rights`. */
  function PairRow(plan: Plan, values: seq<Normalized>, space: Spaces, left: Ref, rights: seq<Ref>): seq<CandidatePair>
    requires PlanValid(plan)
  {
    if rights == [] then []
    else
      var p := PairKey(left, rights[0]);
      var found := Found(plan, values, space, p);
      (if found == {} then [] else [CandidatePair(p, found)]) + PairRow(plan, values, space, left, rights[1..])
  }

  function PairRows(plan: Plan, values: seq<Normalized>, space: Spaces, refs: seq<Ref>): seq<CandidatePair>
    requires PlanValid(plan)
  {
    if refs == [] then []
    else PairRow(plan, values, space, refs[0], refs[1..]) + PairRows(plan, values, space, refs[1..])
  }

  /** Every pair of records that some channel matches, in record order. */
  function AllPairs(plan: Plan, values: seq<Normalized>, space: Spaces): seq<CandidatePair>
    requires PlanValid(plan)
  {
    PairRows(plan, values, space, SortedRefs(values))
  }

  // ---- what the search lists ----

  predicate Ascending(refs: seq<Ref>) {
    forall i, j | 0 <= i < j < |refs| :: RefLess(refs[i], refs[j])
  }

  lemma DedupAscending(s: seq<Ref>)
    requires Sorted(s, RefRank)
    ensures Ascending(Dedup(s)) && forall r :: r in Dedup(s) <==> r in s
  {
    if |s| > 1 {
      var rest := Dedup(s[1..]);
      DedupAscending(s[1..]);
      assert s == [s[0]] + s[1..];
      if s[0] != s[1] {
        forall r | r in rest ensures RefLess(s[0], r) {
          assert r in s[1..];
          var j :| 0 < j < |s| && s[j] == r;
          RankLe(s[0], s[1]);
          RankLe(s[1], s[j]);
        }
      } else {
        assert s[0] in s[1..];
      }
    }
  }

  lemma RankLe(a: Ref, b: Ref)
    ensures LexLe(RefRank(a), RefRank(b)) <==> a == b || RefLess(a, b)
  {
    var x, y := RefRank(a), RefRank(b);
    assert x[1..] == [a.id] && y[1..] == [b.id];
    assert LexLe([a.id], [b.id]) <==> a.id <= b.id by {
      assert [a.id][1..] == [] && [b.id][1..] == [];
    }
  }

  lemma SortedRefsAre(values: seq<Normalized>)
    ensures Ascending(SortedRefs(values)) && forall r :: r in SortedRefs(values) <==> r in Refs(values)
  {
    var refs := Map(values, RefOf);
    SortSorted(refs, RefRank);
    SortElements(refs, RefRank);
    DedupAscending(SortBy(refs, RefRank));
    forall r | r in refs ensures r in Refs(values) {
      var i :| 0 <= i < |refs| && refs[i] == r;
      assert values[i] in values;
    }
    forall r | r in Refs(values) ensures r in refs {
      var v :| v in values && RefOf(v) == r;
      var i :| 0 <= i < |values| && values[i] == v;
      assert refs[i] == r;
    }
  }

  ghost predicate Listed(plan: Plan, values: seq<Normalized>, space: Spaces, out: CandidatePair)
    requires PlanValid(plan)
  {
    out.channels == Found(plan, values, space, out.pair) && out.channels != {}
  }

  lemma PairRowIs(plan: Plan, values: seq<Normalized>, space: Spaces, left: Ref, rights: seq<Ref>, out: CandidatePair)
    requires PlanValid(plan)
    ensures out in PairRow(plan, values, space, left, rights)
       <==> Listed(plan, values, space, out) && out.pair.left == left && out.pair.right in rights
  {
    if rights != [] {
      assert rights == [rights[0]] + rights[1..];
      PairRowIs(plan, values, space, left, rights[1..], out);
    }
  }

  lemma PairRowsAre(plan: Plan, values: seq<Normalized>, space: Spaces, refs: seq<Ref>, out: CandidatePair)
    requires PlanValid(plan) && Ascending(refs)
    ensures out in PairRows(plan, values, space, refs) <==>
      && Listed(plan, values, space, out)
      && out.pair.left in refs && out.pair.right in refs && RefLess(out.pair.left, out.pair.right)
  {
    if refs != [] {
      assert refs == [refs[0]] + refs[1..];
      PairRowIs(plan, values, space, refs[0], refs[1..], out);
      PairRowsAre(plan, values, space, refs[1..], out);
      assert forall r | r in refs[1..] :: RefLess(refs[0], r);
    }
  }

  /** The search lists a pair exactly when both are records, in order, and some channel matches;
      with it go all the channels that match. */
  lemma AllPairsAre(plan: Plan, values: seq<Normalized>, space: Spaces, out: CandidatePair)
    requires PlanValid(plan)
    ensures out in AllPairs(plan, values, space) <==>
      && Listed(plan, values, space, out)
      && out.pair.left in Refs(values) && out.pair.right in Refs(values) && RefLess(out.pair.left, out.pair.right)
  {
    SortedRefsAre(values);
    PairRowsAre(plan, values, space, SortedRefs(values), out);
  }

  // ---- its order ----

  /** Pair order, as pairs of references. */
  predicate PairLess(p: PairKey, q: PairKey) {
    RefLess(p.left, q.left) || (p.left == q.left && RefLess(p.right, q.right))
  }

  predicate PairsAscending(s: seq<CandidatePair>) {
    forall i, j | 0 <= i < j < |s| :: PairLess(s[i].pair, s[j].pair)
  }

  lemma PairRowAscending(plan: Plan, values: seq<Normalized>, space: Spaces, left: Ref, rights: seq<Ref>)
    requires PlanValid(plan) && Ascending(rights)
    ensures PairsAscending(PairRow(plan, values, space, left, rights))
  {
    if rights != [] {
      assert rights == [rights[0]] + rights[1..];
      PairRowAscending(plan, values, space, left, rights[1..]);
      var rest := PairRow(plan, values, space, left, rights[1..]);
      forall out | out in rest ensures PairLess(PairKey(left, rights[0]), out.pair) {
        PairRowIs(plan, values, space, left, rights[1..], out);
      }
    }
  }

  lemma PairRowsAscending(plan: Plan, values: seq<Normalized>, space: Spaces, refs: seq<Ref>)
    requires PlanValid(plan) && Ascending(refs)
    ensures PairsAscending(PairRows(plan, values, space, refs))
  {
    if refs != [] {
      assert refs == [refs[0]] + refs[1..];
      PairRowAscending(plan, values, space, refs[0], refs[1..]);
      PairRowsAscending(plan, values, space, refs[1..]);
      var row, rest := PairRow(plan, values, space, refs[0], refs[1..]), PairRows(plan, values, space, refs[1..]);
      forall a, b | a in row && b in rest ensures PairLess(a.pair, b.pair) {
        PairRowIs(plan, values, space, refs[0], refs[1..], a);
        PairRowsAre(plan, values, space, refs[1..], b);
        assert b.pair.left in refs[1..];
      }
    }
  }

  /** Two ascending lists of the same pairs are equal. */
  lemma {:induction false} AscendingUnique(s: seq<CandidatePair>, t: seq<CandidatePair>)
    requires PairsAscending(s) && PairsAscending(t) && forall x :: x in s <==> x in t
    ensures s == t
  {
    assert t != [] ==> t[0] in t;
    if s != [] {
      assert s[0] in s && s[0] in t;
      var i :| 0 <= i < |t| && t[i] == s[0];
      assert t[0] in t && t[0] in s;
      var j :| 0 <= j < |s| && s[j] == t[0];
      assert s[0] == t[0];
      assert s == [s[0]] + s[1..] && t == [t[0]] + t[1..];
      assert forall x | x in s[1..] :: x != s[0] && x in t;
      assert forall x | x in t[1..] :: x != t[0] && x in s;
      AscendingUnique(s[1..], t[1..]);
    }
  }

  ghost predicate KeysSorted(s: seq<BlockKey>) {
    forall i, j | 0 <= i < j < |s| :: LexLe(s[i], s[j])
  }

  lemma HeadAlone(s: seq<BlockKey>)
    requires KeysSorted(s) && |s| > 1 && s[0] != s[1]
    ensures s[0] !in s[1..]
  {
    forall j | 0 < j < |s| ensures s[j] != s[0] {
      assert LexLe(s[0], s[1]) && (1 < j ==> LexLe(s[1], s[j]));
      if s[j] == s[0] { LexAntisymmetric(s[0], s[1]); }
    }
  }

  lemma DedupDistinct(s: seq<BlockKey>)
    requires KeysSorted(s)
    ensures Distinct(Dedup(s))
  {
    if |s| > 1 {
      var rest := s[1..];
      assert KeysSorted(rest) by {
        forall i, j | 0 <= i < j < |rest| ensures LexLe(rest[i], rest[j]) { assert LexLe(s[i + 1], s[j + 1]); }
      }
      DedupDistinct(rest);
      DedupElements(rest);
      if s[0] != s[1] { HeadAlone(s); }
    }
  }

  // ---- blocks ----

  type Blocks = map<BlockKey, seq<Ref>>

  function Members(blocks: Blocks, key: BlockKey): seq<Ref> {
    if key in blocks then blocks[key] else []
  }

  /** The block of a key holds each record that has the key, once. */
  ghost predicate Holds(blocks: Blocks, key: BlockKey, refs: set<Ref>) {
    Distinct(Members(blocks, key)) && Elements(Members(blocks, key)) == refs
  }

  ghost function Block(c: Channel, values: seq<Normalized>, space: Spaces, key: BlockKey): set<Ref>
    requires ChannelValid(c)
  {
    set r | r in Refs(values) && key in BlockKeys(c, values, space, r.id)
  }

  ghost predicate HoldsBlock(c: Channel, values: seq<Normalized>, space: Spaces, blocks: Blocks, key: BlockKey)
    requires ChannelValid(c)
  {
    Holds(blocks, key, Block(c, values, space, key))
  }

  ghost predicate Filled(c: Channel, values: seq<Normalized>, space: Spaces, blocks: Blocks)
    requires ChannelValid(c)
  {
    && (forall key | key in blocks :: blocks[key] != [])
    && (forall key :: HoldsBlock(c, values, space, blocks, key))
  }

  lemma SameRecordSameRef(values: seq<Normalized>, v: Normalized, w: Normalized)
    requires ValuesValid(values) && v in values && w in values
    ensures v.record == w.record <==> v.sortKey == w.sortKey
  {
    var i :| 0 <= i < |values| && values[i] == v;
    var j :| 0 <= j < |values| && values[j] == w;
  }

  /** Adds a record to a block unless it is there. */
  method AddBlock(blocks: Blocks, key: BlockKey, r: Ref) returns (result: Result<Blocks, CandidateError>)
    ensures (exists m :: m in Members(blocks, key) && m.id == r.id) ==> result == Err(RepeatedMember)
    ensures (forall m | m in Members(blocks, key) :: m.id != r.id) ==>
      result == Ok(blocks[key := Members(blocks, key) + [r]])
  {
    var members := Members(blocks, key);
    for i := 0 to |members|
      invariant forall m | m in members[..i] :: m.id != r.id
    {
      if members[i].id == r.id {
        return Err(RepeatedMember);
      }
    }
    assert members[..|members|] == members;
    result := Ok(blocks[key := members + [r]]);
  }

  /** Checks that no value, sort key or record repeats. */
  method ValidateRecords(values: seq<Normalized>) returns (valid: bool)
    ensures valid <==> ValuesValid(values)
  {
    var fields: set<(Id, string)>, keys: map<Id, Key>, owners: map<Key, Id> := {}, map[], map[];
    for i := 0 to |values|
      invariant ValuesValid(values[..i]) && Seen(values[..i], fields, keys, owners)
    {
      var v := values[i];
      assert values[..i + 1] == values[..i] + [v];
      SeenDecides(values[..i], fields, keys, owners, v);
      if (v.record, v.field) in fields {
        RepeatsField(values, i);
        return false;
      }
      if (v.record in keys && keys[v.record] != v.sortKey) || (v.sortKey in owners && owners[v.sortKey] != v.record) {
        RepeatsKey(values, i);
        return false;
      }
      ExtendsValid(values[..i], v);
      SeenFieldsGrow(values[..i], fields, v);
      SeenKeysGrow(values[..i], keys, v);
      SeenOwnersGrow(values[..i], owners, v);
      fields, keys, owners :=
        fields + {(v.record, v.field)}, keys[v.record := v.sortKey], owners[v.sortKey := v.record];
    }
    assert values[..|values|] == values;
    valid := true;
  }

  ghost predicate SeenFields(values: seq<Normalized>, fields: set<(Id, string)>) {
    fields == set v | v in values :: (v.record, v.field)
  }

  /** The entries are those of the values; each is the entry of some value. */
  ghost predicate SeenKeys(values: seq<Normalized>, keys: map<Id, Key>) {
    && (forall v | v in values :: v.record in keys && keys[v.record] == v.sortKey)
    && (forall r | r in keys :: exists v :: v in values && v.record == r)
  }

  ghost predicate SeenOwners(values: seq<Normalized>, owners: map<Key, Id>) {
    && (forall v | v in values :: v.sortKey in owners && owners[v.sortKey] == v.record)
    && (forall k | k in owners :: exists v :: v in values && v.sortKey == k)
  }

  ghost predicate Seen(values: seq<Normalized>, fields: set<(Id, string)>, keys: map<Id, Key>, owners: map<Key, Id>) {
    SeenFields(values, fields) && SeenKeys(values, keys) && SeenOwners(values, owners)
  }

  lemma AppendIn<T>(s: seq<T>, x: T)
    ensures forall y :: y in s + [x] <==> y in s || y == x
  {
  }

  lemma SeenFieldsGrow(values: seq<Normalized>, fields: set<(Id, string)>, v: Normalized)
    requires SeenFields(values, fields)
    ensures SeenFields(values + [v], fields + {(v.record, v.field)})
  {
    AppendIn(values, v);
  }

  lemma SeenKeysGrow(values: seq<Normalized>, keys: map<Id, Key>, v: Normalized)
    requires SeenKeys(values, keys) && (v.record in keys ==> keys[v.record] == v.sortKey)
    ensures SeenKeys(values + [v], keys[v.record := v.sortKey])
  {
    AppendIn(values, v);
    forall r | r in keys && r != v.record ensures exists w :: w in values + [v] && w.record == r {
      var w :| w in values && w.record == r;
    }
    assert v in values + [v];
  }

  lemma SeenOwnersGrow(values: seq<Normalized>, owners: map<Key, Id>, v: Normalized)
    requires SeenOwners(values, owners) && (v.sortKey in owners ==> owners[v.sortKey] == v.record)
    ensures SeenOwners(values + [v], owners[v.sortKey := v.record])
  {
    AppendIn(values, v);
    forall k | k in owners && k != v.sortKey ensures exists w :: w in values + [v] && w.sortKey == k {
      var w :| w in values && w.sortKey == k;
    }
    assert v in values + [v];
  }

  /** What was seen of the earlier values finds any clash with the next one. */
  lemma SeenDecides(values: seq<Normalized>, fields: set<(Id, string)>, keys: map<Id, Key>, owners: map<Key, Id>,
      v: Normalized)
    requires Seen(values, fields, keys, owners)
    ensures (v.record, v.field) in fields <==> exists w :: w in values && w.record == v.record && w.field == v.field
    ensures (v.record in keys && keys[v.record] != v.sortKey) || (v.sortKey in owners && owners[v.sortKey] != v.record)
      <==> exists w :: w in values && (w.record == v.record) != (w.sortKey == v.sortKey)
  {
    if v.record in keys && keys[v.record] != v.sortKey {
      var w :| w in values && w.record == v.record;
    }
    if v.sortKey in owners && owners[v.sortKey] != v.record {
      var w :| w in values && w.sortKey == v.sortKey;
    }
  }

  lemma RepeatsField(values: seq<Normalized>, i: nat)
    requires i < |values| && exists w :: w in values[..i] && w.record == values[i].record && w.field == values[i].field
    ensures !ValuesValid(values)
  {
    var w :| w in values[..i] && w.record == values[i].record && w.field == values[i].field;
    var j: nat :| j < i && values[j] == w;
    assert values[j].record == values[i].record && values[j].field == values[i].field;
  }

  lemma RepeatsKey(values: seq<Normalized>, i: nat)
    requires i < |values| && exists w ::
      w in values[..i] && (w.record == values[i].record) != (w.sortKey == values[i].sortKey)
    ensures !ValuesValid(values)
  {
    var w :| w in values[..i] && (w.record == values[i].record) != (w.sortKey == values[i].sortKey);
    var j: nat :| j < i && values[j] == w;
    assert (values[j].record == values[i].record) != (values[j].sortKey == values[i].sortKey);
  }

  lemma ExtendsValid(values: seq<Normalized>, v: Normalized)
    requires ValuesValid(values)
    requires forall w | w in values && w.record == v.record :: w.field != v.field
    requires forall w | w in values :: w.record == v.record <==> w.sortKey == v.sortKey
    ensures ValuesValid(values + [v])
  {
    var after := values + [v];
    forall i, j | 0 <= i < j < |after| && after[i].record == after[j].record ensures after[i].field != after[j].field {
      assert after[i] == values[i] && values[i] in values;
    }
    forall i, j | 0 <= i < j < |after|
      ensures after[i].record == after[j].record <==> after[i].sortKey == after[j].sortKey {
      assert after[i] == values[i] && values[i] in values;
    }
  }

  // ---- channels over one field ----

  /** What the first values of a channel's field put into a block. */
  ghost function FieldBlock(c: Channel, values: seq<Normalized>, space: Spaces, key: BlockKey): set<Ref>
    requires ChannelValid(c)
  {
    set v | v in values && v.field == c.fields[0] && key in ValueKeys(c, v, space) :: RefOf(v)
  }

  lemma FieldBlockIs(c: Channel, values: seq<Normalized>, space: Spaces, key: BlockKey)
    requires ChannelValid(c) && !c.kind.CompositeExact? && ValuesValid(values)
    ensures FieldBlock(c, values, space, key) == Block(c, values, space, key)
  {
    forall r | r in FieldBlock(c, values, space, key) ensures r in Block(c, values, space, key) {
      var v :| v in values && v.field == c.fields[0] && key in ValueKeys(c, v, space) && RefOf(v) == r;
      ValueIs(values, v);
    }
    forall r | r in Block(c, values, space, key) ensures r in FieldBlock(c, values, space, key) {
      var v := FieldValue(values, r.id, c.fields[0]).value;
      var w :| w in values && RefOf(w) == r;
      SameRecordSameRef(values, v, w);
    }
  }

  /** The keys of a value, each once. */
  method KeysOf(c: Channel, v: Normalized, space: Spaces) returns (keys: seq<BlockKey>)
    requires ChannelValid(c) && !c.kind.CompositeExact?
    ensures Distinct(keys) && forall key :: key in keys <==> key in ValueKeys(c, v, space)
  {
    match c.kind
    case Exact => keys := [v.bytes];
    case Prefix => keys := [TextKey(Take(v.text, c.prefixLength.value))];
    case Token =>
      var tokens := Tokens(v.text, c.tokenMinLength.value, space);
      var all := Map(tokens, TextKey);
      var same := (key: BlockKey) => key;
      SortSorted(all, same);
      SortElements(all, same);
      DedupElements(SortBy(all, same));
      DedupDistinct(SortBy(all, same));
      keys := Dedup(SortBy(all, same));
      forall key ensures key in all <==> key in ValueKeys(c, v, space) {
        if key in all { var i :| 0 <= i < |all| && all[i] == key; assert tokens[i] in tokens; }
        if key in ValueKeys(c, v, space) {
          var t :| t in tokens && TextKey(t) == key;
          var i :| 0 <= i < |tokens| && tokens[i] == t;
          assert all[i] == key;
        }
      }
  }

  ghost predicate Absent(blocks: Blocks, id: Id, keys: seq<BlockKey>) {
    forall key, m | key in keys && m in Members(blocks, key) :: m.id != id
  }

  /** Adds a record to the blocks of its keys. */
  method AddToBlocks(blocks: Blocks, keys: seq<BlockKey>, r: Ref) returns (result: Result<Blocks, CandidateError>)
    requires forall key | key in blocks :: blocks[key] != []
    ensures result.Ok? ==> forall key | key in result.value :: result.value[key] != []
    ensures Distinct(keys) && Absent(blocks, r.id, keys) ==> result.Ok?
    ensures Distinct(keys) && Absent(blocks, r.id, keys) ==>
      forall key :: Members(result.value, key) == Members(blocks, key) + if key in keys then [r] else []
  {
    var after := blocks;
    for i := 0 to |keys|
      invariant forall key | key in after :: after[key] != []
      invariant Distinct(keys) && Absent(blocks, r.id, keys) ==>
        forall key :: Members(after, key) == Members(blocks, key) + if key in keys[..i] then [r] else []
    {
      assert keys[..i + 1] == keys[..i] + [keys[i]];
      ghost var key := keys[i];
      assert key in keys;
      assert Distinct(keys) ==> key !in keys[..i];
      var next := AddBlock(after, keys[i], r);
      if next.Err? {
        return next;
      }
      assert next.value == after[key := Members(after, key) + [r]];
      after := next.value;
    }
    assert keys[..|keys|] == keys;
    result := Ok(after);
  }

  ghost predicate HoldsField(c: Channel, values: seq<Normalized>, space: Spaces, blocks: Blocks, key: BlockKey)
    requires ChannelValid(c)
  {
    Holds(blocks, key, FieldBlock(c, values, space, key))
  }

  /** The blocks after some of the values. */
  ghost predicate PartFilled(c: Channel, values: seq<Normalized>, space: Spaces, blocks: Blocks)
    requires ChannelValid(c)
  {
    && (forall key | key in blocks :: blocks[key] != [])
    && (forall key :: HoldsField(c, values, space, blocks, key))
  }

  lemma PartFilledGrows(c: Channel, values: seq<Normalized>, v: Normalized, space: Spaces, blocks: Blocks,
      after: Blocks, keys: seq<BlockKey>)
    requires ChannelValid(c) && PartFilled(c, values, space, blocks)
    requires v.field == c.fields[0] && Absent(blocks, v.record, keys)
    requires forall key :: key in keys <==> key in ValueKeys(c, v, space)
    requires forall key | key in after :: after[key] != []
    requires forall key :: Members(after, key) == Members(blocks, key) + if key in keys then [RefOf(v)] else []
    ensures PartFilled(c, values + [v], space, after)
  {
    forall key: BlockKey ensures HoldsField(c, values + [v], space, after, key) {
      assert HoldsField(c, values, space, blocks, key);
      FieldBlockGrows(c, values, v, space, key);
      HoldsMore(blocks, after, key, FieldBlock(c, values, space, key), RefOf(v), key in keys);
    }
  }

  lemma PartFilledSkips(c: Channel, values: seq<Normalized>, v: Normalized, space: Spaces, blocks: Blocks)
    requires ChannelValid(c) && PartFilled(c, values, space, blocks) && v.field != c.fields[0]
    ensures PartFilled(c, values + [v], space, blocks)
  {
    forall key: BlockKey ensures HoldsField(c, values + [v], space, blocks, key) {
      assert HoldsField(c, values, space, blocks, key);
      FieldBlockGrows(c, values, v, space, key);
    }
  }

  lemma FieldBlockGrows(c: Channel, values: seq<Normalized>, v: Normalized, space: Spaces, key: BlockKey)
    requires ChannelValid(c)
    ensures FieldBlock(c, values + [v], space, key) == FieldBlock(c, values, space, key)
      + if v.field == c.fields[0] && key in ValueKeys(c, v, space) then {RefOf(v)} else {}
  {
    var after := values + [v];
    assert forall w :: w in after <==> w in values || w == v;
  }

  /** A record holds one value of the field, so it is in none of the field's blocks yet. */
  lemma NotYetThere(c: Channel, values: seq<Normalized>, i: nat, space: Spaces, blocks: Blocks, keys: seq<BlockKey>)
    requires ChannelValid(c) && ValuesValid(values) && i < |values| && values[i].field == c.fields[0]
    requires PartFilled(c, values[..i], space, blocks)
    ensures Absent(blocks, values[i].record, keys)
  {
    forall key, m | key in keys && m in Members(blocks, key) ensures m.id != values[i].record {
      assert HoldsField(c, values[..i], space, blocks, key);
      assert m in Elements(Members(blocks, key));
      var v :| v in values[..i] && v.field == c.fields[0] && RefOf(v) == m;
      var j :| 0 <= j < i && values[j] == v;
    }
  }

  lemma HoldsMore(blocks: Blocks, after: Blocks, key: BlockKey, refs: set<Ref>, r: Ref, add: bool)
    requires Holds(blocks, key, refs) && Members(after, key) == Members(blocks, key) + if add then [r] else []
    requires add ==> forall m | m in Members(blocks, key) :: m.id != r.id
    ensures Holds(after, key, refs + if add then {r} else {})
  {
    var members, more := Members(blocks, key), Members(after, key);
    assert forall x :: x in more <==> x in members || (add && x == r);
    assert forall x :: x in members <==> x in refs;
    forall i, j | 0 <= i < j < |more| ensures more[i] != more[j] {
      assert more[i] == members[i] && members[i] in members;
    }
  }

  /** Exact, prefix and token channels: each value of the field goes into the blocks of its keys. */
  method FillField(c: Channel, values: seq<Normalized>, space: Spaces) returns (result: Result<Blocks, CandidateError>)
    requires ChannelValid(c) && !c.kind.CompositeExact? && ValuesValid(values)
    ensures result.Ok? && Filled(c, values, space, result.value)
  {
    var blocks: Blocks := map[];
    assert values[..0] == [];
    assert forall key :: Members(blocks, key) == [] && FieldBlock(c, [], space, key) == {};
    assert forall key :: HoldsField(c, [], space, blocks, key);
    for i := 0 to |values|
      invariant PartFilled(c, values[..i], space, blocks)
    {
      var v := values[i];
      assert values[..i + 1] == values[..i] + [v];
      if v.field == c.fields[0] {
        var keys := KeysOf(c, v, space);
        NotYetThere(c, values, i, space, blocks, keys);
        var next := AddToBlocks(blocks, keys, RefOf(v));
        if next.Err? {
          return next;
        }
        PartFilledGrows(c, values[..i], v, space, blocks, next.value, keys);
        blocks := next.value;
      } else {
        PartFilledSkips(c, values[..i], v, space, blocks);
      }
    }
    assert values[..|values|] == values;
    forall key: BlockKey ensures HoldsBlock(c, values, space, blocks, key) {
      assert HoldsField(c, values, space, blocks, key);
      FieldBlockIs(c, values, space, key);
    }
    result := Ok(blocks);
  }
}
