/** The resolver as it runs: union-find, one component summary per root, and loops over the sorted
    edges. Each method is tied to the specification of the same phase. */
module Resolver {
  import opened Prelude
  import opened Sorting
  import opened Folding
  import opened Types
  import opened ResolverSpec
  import opened ResolverSafety
  import opened ResolverTheorems
  import opened UnionFinds
  import opened Components

  // ---- the records, laid out by index ----

  /** `keys` are the sort keys of `ids`. */
  ghost predicate KeysListed(ids: seq<Id>, keys: seq<Key>, records: Records) {
    |keys| == |ids| && forall i: nat {:trigger keys[i]} | i < |ids| ::
      ids[i] in records && keys[i] == records[ids[i]].key
  }

  /** `index` gives the position of every id. */
  ghost predicate Positioned(ids: seq<Id>, index: map<Id, nat>, s: set<Id>) {
    index.Keys == s && forall id {:trigger index[id]} | id in s :: index[id] < |ids| && ids[index[id]] == id
  }

  datatype RawLayout = RawLayout(ids: seq<Id>, index: map<Id, nat>, keys: seq<Key>, records: Records) {
    ghost predicate Valid() {
      ids == Ascending(records.Keys) && KeysListed(ids, keys, records) && Positioned(ids, index, records.Keys)
    }
  }

  type Layout = lay: RawLayout | lay.Valid() ghost witness RawLayout([], map[], [], map[])

  /** Nodes share a representative exactly when their records share a class. */
  ghost predicate Agrees(root: seq<nat>, ids: seq<Id>, part: Partition) {
    && IsPartition(part)
    && |root| == |ids|
    && (forall i: nat | i < |ids| :: ids[i] in part)
    && (forall i: nat, j: nat {:trigger root[i], root[j]} | i < |ids| && j < |ids| ::
          root[i] == root[j] <==> part[ids[i]] == part[ids[j]])
  }

  /** What a component says of its class, its authority table flattened. */
  datatype Summary = Summary(members: set<Id>, claims: set<(Field, Value)>, key: Key)

  ghost function View(c: Component): Summary {
    Summary(c.members, Pairs(c.authority), c.key)
  }

  ghost function SummaryOf(members: set<Id>, records: Records): Summary {
    Summary(members, Claims(members, records), ComponentKey(members, records))
  }

  /** The component at every representative summarises its class. */
  ghost predicate Summarised(comps: seq<Component>, root: seq<nat>, ids: seq<Id>, records: Records, part: Partition)
    requires Agrees(root, ids, part)
  {
    && |comps| == |root|
    && (forall i: nat {:trigger root[i]} | i < |root| && root[i] == i ::
      View(comps[i]) == SummaryOf(part[ids[i]], records))
  }

  /** Class map and components together describe the partition. */
  ghost predicate Describes(root: seq<nat>, comps: seq<Component>, ids: seq<Id>, records: Records, part: Partition) {
    part.Keys == records.Keys && Agrees(root, ids, part) && Summarised(comps, root, ids, records, part)
  }

  /** The relation kept between the running state and the specification's partition. */
  ghost function Tracking(lay: Layout): (seq<nat>, seq<Component>, Partition) -> bool {
    (root: seq<nat>, comps: seq<Component>, part: Partition) => Describes(root, comps, lay.ids, lay.records, part)
  }

  ghost predicate Tracks(uf: UnionFind, comps: array<Component>, lay: Layout, part: Partition)
    reads uf, uf.parent, uf.sizes, comps
  {
    && uf.Valid() && uf.keys == lay.keys
    && Tracking(lay)(uf.root, comps[..], part)
  }

  // ---- summaries of united classes ----

  lemma ClaimsUnion(a: set<Id>, b: set<Id>, records: Records)
    ensures Claims(a + b, records) == Claims(a, records) + Claims(b, records)
  {
    forall p | p in Claims(a + b, records) ensures p in Claims(a, records) + Claims(b, records) {
      var m, f :| m in a + b && m in records && f in records[m].authority && records[m].authority[f] != ""
                  && p == (f, records[m].authority[f]);
    }
    ClaimsMono(a, a + b, records);
    ClaimsMono(b, a + b, records);
  }

  lemma KeyUnion(a: set<Id>, b: set<Id>, records: Records)
    requires a != {} && b != {} && a <= records.Keys && b <= records.Keys
    ensures ComponentKey(a + b, records)
         == if ComponentKey(b, records) < ComponentKey(a, records) then ComponentKey(b, records)
           else ComponentKey(a, records)
  {
    var x :| x in a;
    var y :| y in b;
    assert records[x].key in KeysOf(a, records) && records[y].key in KeysOf(b, records);
    assert KeysOf(a + b, records) == KeysOf(a, records) + KeysOf(b, records);
  }

  lemma SingletonSummary(record: Record, records: Records)
    requires record.id in records && records[record.id] == record
    ensures Claims({record.id}, records) == RecordClaims(record)
    ensures ComponentKey({record.id}, records) == record.key
  {
    assert KeysOf({record.id}, records) == {record.key};
  }

  lemma AgreesMerge(root: seq<nat>, ids: seq<Id>, part: Partition, l: nat, r: nat, top: nat)
    requires Agrees(root, ids, part) && l < |root| && r < |root| && (top == root[l] || top == root[r])
    ensures Agrees(Joined(root, root[l], root[r], top), ids, ResolverSpec.Merge(part, ids[l], ids[r]))
  {
    var joined, merged := Joined(root, root[l], root[r], top), ResolverSpec.Merge(part, ids[l], ids[r]);
    MergePartition(part, ids[l], ids[r]);
    forall i: nat, j: nat | i < |ids| && j < |ids|
      ensures joined[i] == joined[j] <==> merged[ids[i]] == merged[ids[j]]
    {
      MergeSame(part, ids[l], ids[r], ids[i], ids[j]);
    }
  }

  /** Classes not touched by a merge keep their members. */
  lemma MergeElsewhere(part: Partition, a: Id, b: Id, x: Id)
    requires IsPartition(part) && a in part && b in part && x in part && part[x] != part[a] && part[x] != part[b]
    ensures ResolverSpec.Merge(part, a, b)[x] == part[x]
  {
    InClass(part, x, a);
    InClass(part, x, b);
  }

  ghost function Absorbed(a: Summary, b: Summary): Summary {
    Summary(a.members + b.members, a.claims + b.claims, if b.key < a.key then b.key else a.key)
  }

  lemma AbsorbedClasses(x: set<Id>, y: set<Id>, records: Records)
    requires x != {} && y != {} && x <= records.Keys && y <= records.Keys
    ensures Absorbed(SummaryOf(x, records), SummaryOf(y, records)) == SummaryOf(x + y, records)
  {
    ClaimsUnion(x, y, records);
    KeyUnion(x, y, records);
  }

  /** The united class is summarised by absorbing one old summary into the other. */
  lemma MergedClass(part: Partition, records: Records, a: Id, b: Id, t: Id, o: Id)
    requires IsPartition(part) && part.Keys == records.Keys
    requires a in part && b in part && t in part && o in part
    requires (part[t] == part[a] && part[o] == part[b]) || (part[t] == part[b] && part[o] == part[a])
    ensures Absorbed(SummaryOf(part[t], records), SummaryOf(part[o], records))
      == SummaryOf(ResolverSpec.Merge(part, a, b)[t], records)
  {
    assert t in part[t] && o in part[o];
    AbsorbedClasses(part[t], part[o], records);
    assert part[t] + part[o] == part[a] + part[b];
  }

  /** `after` is `comps` with the component at `other` moved into the one at `top`. */
  ghost predicate Moved(comps: seq<Component>, after: seq<Component>, top: nat, other: nat)
    requires top < |comps| && other < |comps|
  {
    && |after| == |comps|
    && View(after[top]) == Absorbed(View(comps[top]), View(comps[other]))
    && forall i: nat | i < |comps| && i != top && i != other :: after[i] == comps[i]
  }

  lemma MergedSummaries(comps: seq<Component>, after: seq<Component>, ids: seq<Id>, records: Records, part: Partition,
                        left: nat, right: nat, root: seq<nat>, top: nat, other: nat)
    requires Describes(root, comps, ids, records, part)
    requires left < |root| && right < |root| && top < |root| && other < |root|
    requires root[top] == top && root[other] == other && top != other
    requires (root[left] == top && root[right] == other) || (root[left] == other && root[right] == top)
    requires Moved(comps, after, top, other)
    ensures Describes(Joined(root, root[left], root[right], top), after, ids, records,
      ResolverSpec.Merge(part, ids[left], ids[right]))
  {
    AgreesMerge(root, ids, part, left, right, top);
    var joined := Joined(root, root[left], root[right], top);
    var merged := ResolverSpec.Merge(part, ids[left], ids[right]);
    MergedClass(part, records, ids[left], ids[right], ids[top], ids[other]);
    assert View(after[top]) == SummaryOf(merged[ids[top]], records);
    forall i: nat | i < |joined| && joined[i] == i && i != top
      ensures View(after[i]) == SummaryOf(merged[ids[i]], records) {
      assert root[i] == i && i != other;
      MergeElsewhere(part, ids[left], ids[right], ids[i]);
    }
  }

  /** Moves the component at `other` into the one at `top`, leaving the default behind. */
  method MoveInto(comps: array<Component>, top: nat, other: nat)
    requires top < comps.Length && other < comps.Length && top != other
    requires comps[other].members != {}
    modifies comps
    ensures Moved(old(comps[..]), comps[..], top, other)
  {
    var moved := comps[other];
    comps[other] := EMPTY;
    var merged := Components.Merge(comps[top], moved);
    comps[top] := merged;
  }

  /** The union-find half of a merge: which summary survives and which one moves, if they differ. */
  method JoinRoots(uf: UnionFind, left: nat, right: nat, sortKeys: seq<Key>) returns (top: nat, other: nat)
    requires uf.Valid() && left < |uf.root| && right < |uf.root| && sortKeys == uf.keys
    modifies uf`root, uf.parent, uf.sizes
    ensures uf.Valid() && top < |uf.root| && other < |uf.root|
    ensures var before := old(uf.root);
      && before[top] == top && before[other] == other
      && ((before[left] == top && before[right] == other) || (before[left] == other && before[right] == top))
      && uf.root == Joined(before, before[left], before[right], top)
  {
    var leftRoot := uf.Find(left);
    var rightRoot := uf.Find(right);
    if leftRoot == rightRoot {
      assert uf.root == Joined(uf.root, leftRoot, rightRoot, leftRoot);
      return leftRoot, rightRoot;
    }
    top := uf.Union(leftRoot, rightRoot, sortKeys);
    other := if top == leftRoot then rightRoot else leftRoot;
  }

  lemma UnmovedDescribes(comps: seq<Component>, ids: seq<Id>, records: Records, part: Partition, left: nat, right: nat,
      root: seq<nat>)
    requires Describes(root, comps, ids, records, part)
    requires left < |root| && right < |root| && root[left] == root[right]
    ensures Joined(root, root[left], root[right], root[left]) == root
    ensures ResolverSpec.Merge(part, ids[left], ids[right]) == part
  {
    MergeNothing(part, ids[left], ids[right]);
  }

  lemma RepresentativeNonEmpty(comps: seq<Component>, ids: seq<Id>, records: Records, part: Partition, root: seq<nat>,
      r: nat)
    requires Describes(root, comps, ids, records, part) && r < |root| && root[r] == r
    ensures comps[r].members != {}
  {
    assert ids[r] in part[ids[r]] && View(comps[r]) == SummaryOf(part[ids[r]], records);
  }

  /** Joins two classes in the union-find and merges their components. */
  method MergeComponents(uf: UnionFind, comps: array<Component>, left: nat, right: nat, sortKeys: seq<Key>,
                         ghost lay: Layout, ghost part: Partition) returns (top: nat)
    requires Tracks(uf, comps, lay, part) && sortKeys == lay.keys
    requires left < |lay.ids| && right < |lay.ids|
    modifies uf`root, uf.parent, uf.sizes, comps
    ensures Tracks(uf, comps, lay, ResolverSpec.Merge(part, lay.ids[left], lay.ids[right]))
  {
    ghost var root, before := uf.root, comps[..];
    var other;
    top, other := JoinRoots(uf, left, right, sortKeys);
    if top == other {
      UnmovedDescribes(before, lay.ids, lay.records, part, left, right, root);
    } else {
      RepresentativeNonEmpty(before, lay.ids, lay.records, part, root, other);
      MoveInto(comps, top, other);
      MergedSummaries(before, comps[..], lay.ids, lay.records, part, left, right, root, top, other);
    }
  }

  // ---- checking and indexing the input ----

  method IndexRecords(records: seq<Record>) returns (r: Result<Records, Error>)
    ensures r == if UniqueRecords(records) then Ok(Index(records)) else Err(Invalid)
  {
    var index: Records := map[];
    var sortKeys: set<Key> := {};
    for i := 0 to |records|
      invariant UniqueRecords(records[..i])
      invariant index == Index(records[..i])
      invariant sortKeys == set q | q in records[..i] :: q.key
    {
      var record := records[i];
      assert records[..i + 1] == records[..i] + [record];
      if record.key in sortKeys || record.id in index {
        Repeated(records, i);
        return Err(Invalid);
      }
      UniqueNext(records[..i], record);
      sortKeys := sortKeys + {record.key};
      index := index[record.id := record];
    }
    assert records[..|records|] == records;
    r := Ok(index);
  }

  lemma UniqueNext(seen: seq<Record>, record: Record)
    requires UniqueRecords(seen) && forall q | q in seen :: q.key != record.key && q.id != record.id
    ensures UniqueRecords(seen + [record])
    ensures Index(seen + [record]) == Index(seen)[record.id := record]
  {
    var longer := seen + [record];
    forall i, j | 0 <= i < j < |longer| ensures longer[i].key != longer[j].key && longer[i].id != longer[j].id {
      assert longer[i] == seen[i] && (j < |seen| ==> longer[j] == seen[j]);
      assert seen[i] in seen;
    }
    UniqueRows(seen);
    UniqueRows(longer);
  }

  lemma Repeated(records: seq<Record>, i: nat)
    requires i < |records| && exists q | q in records[..i] :: q.key == records[i].key || q.id == records[i].id
    ensures !UniqueRecords(records)
  {
    var q :| q in records[..i] && (q.key == records[i].key || q.id == records[i].id);
    var j :| 0 <= j < i && records[..i][j] == q;
    assert records[j] == q;
  }

  method CanonicalManual(edges: seq<DecisionEdge>, records: Records, kind: DecisionKind)
    returns (r: Result<seq<ManualEdge>, Error>)
    ensures r == CanonicalManualEdges(edges, records, kind)
  {
    var result: seq<ManualEdge> := [];
    for i := 0 to |edges|
      invariant ValidEdges(edges[..i], records, kind)
      invariant result == Canonical(edges[..i], records, kind)
    {
      var edge := edges[i];
      if !(edge.kind == kind && edge.left != edge.right && edge.left in records && edge.right in records) {
        assert !ValidEdge(edges[i], records, kind);
        return Err(Invalid);
      }
      result := result + [ManualEdge(edge.decision, PairKeyOf(edge.left, edge.right, records))];
      assert edges[..i + 1] == edges[..i] + [edge];
      assert ValidEdge(edges[i], records, kind);
    }
    assert edges[..|edges|] == edges;
    r := Ok(SortBy(result, ManualRank));
  }

  method CollectLinks(cannot: seq<ManualEdge>, pairs: seq<PairDecision>, records: Records)
    returns (r: Result<set<(Id, Id)>, Error>)
    ensures r == if ProhibitedKnown(pairs, records) then Ok(CannotLinks(cannot, pairs, records)) else Err(Invalid)
  {
    var links := set e | e in cannot :: (e.pair.left, e.pair.right);
    for i := 0 to |pairs|
      invariant ProhibitedKnown(pairs[..i], records)
      invariant links == CannotLinks(cannot, pairs[..i], records)
    {
      var d := pairs[i];
      assert pairs[..i + 1] == pairs[..i] + [d];
      if d.result.Prohibited? {
        if d.left !in records || d.right !in records {
          assert d in pairs;
          return Err(Invalid);
        }
        links := links + {Endpoints(d.left, d.right, records)};
      }
    }
    assert pairs[..|pairs|] == pairs;
    r := Ok(links);
  }

  /** The decisions of each canonical pair, in input order. */
  type DecisionIndex = map<(Id, Id), seq<PairDecision>>

  ghost predicate Indexes(index: DecisionIndex, pairs: seq<PairDecision>, records: Records) {
    && DecisionsKnown(pairs, records)
    && (forall p, d | p in index && d in index[p] ::
          d in pairs && d.left != d.right && p == Endpoints(d.left, d.right, records))
    && (forall d | d in pairs && d.left != d.right ::
          Endpoints(d.left, d.right, records) in index && d in index[Endpoints(d.left, d.right, records)])
  }

  method GroupDecisions(pairs: seq<PairDecision>, records: Records) returns (r: Result<DecisionIndex, Error>)
    ensures r.Ok? <==> DecisionsKnown(pairs, records)
    ensures r.Ok? ==> Indexes(r.value, pairs, records)
    ensures r.Err? ==> r.error == Invalid
  {
    var index: DecisionIndex := map[];
    for i := 0 to |pairs|
      invariant Indexes(index, pairs[..i], records)
    {
      var d := pairs[i];
      assert pairs[..i + 1] == pairs[..i] + [d];
      if d.left != d.right {
        if d.left !in records || d.right !in records {
          assert d in pairs;
          return Err(Invalid);
        }
        var pair := Endpoints(d.left, d.right, records);
        index := index[pair := (if pair in index then index[pair] else []) + [d]];
      }
    }
    assert pairs[..|pairs|] == pairs;
    r := Ok(index);
  }

  function GroupsForPair(index: DecisionIndex, left: Id, right: Id, records: Records): seq<PairDecision>
    requires left in records && right in records
  {
    var pair := Endpoints(left, right, records);
    if pair in index then index[pair] else []
  }

  lemma GroupsForPairMeans(index: DecisionIndex, pairs: seq<PairDecision>, left: Id, right: Id, records: Records)
    requires Indexes(index, pairs, records) && left in records && right in records
    ensures forall d :: d in GroupsForPair(index, left, right, records) <==> d in pairs && ForPair(d, left, right)
  {
    EndpointsUnordered(left, right, records);
    forall d ensures d in GroupsForPair(index, left, right, records) <==> d in pairs && ForPair(d, left, right) {
      if d in pairs && d.left != d.right {
        EndpointsUnordered(d.left, d.right, records);
      }
    }
  }

  /** The record ids in ascending order, as the ordered map lists them. */
  method OrderedIds(records: Records) returns (ids: seq<Id>)
    ensures ids == Ascending(records.Keys)
  {
    ids := [];
    var rest := records.Keys;
    while rest != {}
      invariant ids + Ascending(rest) == Ascending(records.Keys)
    {
      LeastExists(rest);
      var m :| m in rest && forall x | x in rest :: m <= x;
      assert m == MinOf(rest);
      assert ids + ([m] + Ascending(rest - {m})) == (ids + [m]) + Ascending(rest - {m});
      ids := ids + [m];
      rest := rest - {m};
    }
  }

  lemma LeastExists(s: set<Id>)
    requires s != {}
    ensures exists m :: m in s && forall x | x in s :: m <= x
  {
    var m := MinOf(s);
  }

  /** The position of every id in the ascending list. */
  method Positions(ids: seq<Id>, ghost s: set<Id>) returns (index: map<Id, nat>)
    requires ids == Ascending(s)
    ensures Positioned(ids, index, s)
  {
    AscendingListed(s);
    index := map[];
    for i := 0 to |ids|
      invariant index.Keys == set j: nat | j < i :: ids[j]
      invariant forall j: nat | j < i :: index[ids[j]] == j
    {
      index := index[ids[i] := i];
    }
    IndexComplete(ids, s, index);
  }

  method SortKeys(ids: seq<Id>, records: Records) returns (keys: seq<Key>)
    requires ids == Ascending(records.Keys)
    ensures KeysListed(ids, keys, records)
  {
    AscendingEnumerates(records.Keys);
    EnumeratesIndexed(ids, records.Keys);
    keys := [];
    for i := 0 to |ids|
      invariant |keys| == i && forall j: nat {:trigger keys[j]} | j < i :: keys[j] == records[ids[j]].key
    {
      keys := keys + [records[ids[i]].key];
    }
  }

  method LayOut(records: Records) returns (lay: Layout)
    ensures lay.records == records
  {
    var ids := OrderedIds(records);
    var keys := SortKeys(ids, records);
    var index := Positions(ids, records.Keys);
    lay := RawLayout(ids, index, keys, records);
  }

  lemma AscendingListed(s: set<Id>)
    ensures var ids := Ascending(s); forall i: nat, j: nat | i < j < |ids| :: ids[i] != ids[j]
  {
    AscendingEnumerates(s);
    EnumeratesIndexed(Ascending(s), s);
  }

  lemma EnumeratesIndexed(ids: seq<Id>, s: set<Id>)
    requires Enumerates(ids, s)
    ensures forall i: nat | i < |ids| :: ids[i] in s
    ensures forall i: nat, j: nat | i < j < |ids| :: ids[i] != ids[j]
  {
    forall i: nat | i < |ids| ensures ids[i] in s { assert ids[i] in ids; }
  }

  lemma IndexComplete(ids: seq<Id>, s: set<Id>, index: map<Id, nat>)
    requires ids == Ascending(s) && index.Keys == (set j: nat | j < |ids| :: ids[j])
    requires forall j: nat | j < |ids| :: index[ids[j]] == j
    ensures Positioned(ids, index, s)
  {
    AscendingEnumerates(s);
    EnumeratesIndexed(ids, s);
    forall id | id in s ensures id in index && index[id] < |ids| && ids[index[id]] == id {
      assert id in ids;
      var j :| 0 <= j < |ids| && ids[j] == id;
      assert index[ids[j]] == j;
    }
  }

  // ---- admission ----

  predicate SingletonAdmission(edge: PairDecision, singleton: Id, established: set<Id>, index: DecisionIndex,
      records: Records)
    requires singleton in records && established <= records.Keys
  {
    || edge.result.AutomaticIdentity?
    || |edge.groups| > 1
    || exists m | m in established ::
         exists d | d in GroupsForPair(index, singleton, m, records) ::
           (d.result.AutomaticStrong? || d.result.Review?) && exists g | g in d.groups :: g !in edge.groups
  }

  lemma SingletonAdmissionMeans(edge: PairDecision, singleton: Id, established: set<Id>, index: DecisionIndex,
                                pairs: seq<PairDecision>, records: Records)
    requires Indexes(index, pairs, records) && singleton in records && established <= records.Keys
    ensures SingletonAdmission(edge, singleton, established, index, records)
       <==> SingletonAdmits(edge, singleton, established, Elements(pairs))
  {
    forall m | m in established
      ensures forall d :: d in GroupsForPair(index, singleton, m, records) <==> d in pairs && ForPair(d, singleton, m)
    {
      GroupsForPairMeans(index, pairs, singleton, m, records);
    }
  }

  /** The groups of the strong decisions recorded for one pair. */
  ghost function StrongGroups(decisions: seq<PairDecision>): set<Group> {
    set d, g | d in decisions && d.result.AutomaticStrong? && g in d.groups :: g
  }

  ghost predicate AnyStrong(decisions: seq<PairDecision>) {
    exists d | d in decisions :: d.result.AutomaticStrong?
  }

  /** `connections` extended by the strong decisions of one pair. */
  ghost function Extended(connections: map<(Id, Id), set<Group>>, pair: (Id, Id), decisions: seq<PairDecision>)
    : map<(Id, Id), set<Group>>
  {
    if AnyStrong(decisions)
    then connections[pair := (if pair in connections then connections[pair] else {}) + StrongGroups(decisions)]
    else connections
  }

  lemma ExtendedNext(connections: map<(Id, Id), set<Group>>, pair: (Id, Id), decisions: seq<PairDecision>,
      d: PairDecision)
    ensures var before := Extended(connections, pair, decisions);
      Extended(connections, pair, decisions + [d])
      == if d.result.AutomaticStrong? then before[pair :=
        (if pair in before then before[pair] else {}) + Elements(d.groups)]
         else before
  {
    var longer := decisions + [d];
    assert AnyStrong(longer) <==> AnyStrong(decisions) || d.result.AutomaticStrong? by {
      assert d in longer;
      forall x | x in decisions ensures x in longer {}
    }
    if d.result.AutomaticStrong? {
      assert StrongGroups(longer) == StrongGroups(decisions) + Elements(d.groups);
      if !AnyStrong(decisions) { assert StrongGroups(decisions) == {}; }
      var base := if pair in connections then connections[pair] else {};
      assert base + (StrongGroups(decisions) + Elements(d.groups)) == (base + StrongGroups(decisions))
        + Elements(d.groups);
      assert base + Elements(d.groups) == base + ({} + Elements(d.groups));
    } else {
      assert StrongGroups(longer) == StrongGroups(decisions);
    }
  }

  /** Collects the strong connections of one pair of records. */
  method CollectStrong(connections: map<(Id, Id), set<Group>>, pair: (Id, Id), decisions: seq<PairDecision>)
    returns (result: map<(Id, Id), set<Group>>)
    ensures result == Extended(connections, pair, decisions)
  {
    result := connections;
    for i := 0 to |decisions|
      invariant result == Extended(connections, pair, decisions[..i])
    {
      var d := decisions[i];
      assert decisions[..i + 1] == decisions[..i] + [d];
      ExtendedNext(connections, pair, decisions[..i], d);
      if d.result.AutomaticStrong? {
        result := result[pair := (if pair in result then result[pair] else {}) + Elements(d.groups)];
      }
    }
    assert decisions[..|decisions|] == decisions;
  }

  /** `connections` holds the strong connections of `left` with `right`, with all their groups. */
  ghost predicate Collected(connections: map<(Id, Id), set<Group>>, pairs: set<(Id, Id)>,
      decisions: set<PairDecision>) {
    && connections.Keys == pairs
    && forall p | p in connections :: connections[p] == ConnectionGroups(p, decisions)
  }

  lemma PairDecisions(index: DecisionIndex, pairs: seq<PairDecision>, a: Id, b: Id, records: Records)
    requires Indexes(index, pairs, records) && a in records && b in records
    ensures var found := GroupsForPair(index, a, b, records); var p := Endpoints(a, b, records);
      && (AnyStrong(found) <==> StronglyJoined(a, b, Elements(pairs)))
      && StrongGroups(found) == ConnectionGroups(p, Elements(pairs))
  {
    var found, p := GroupsForPair(index, a, b, records), Endpoints(a, b, records);
    GroupsForPairMeans(index, pairs, a, b, records);
    EndpointsUnordered(a, b, records);
    if AnyStrong(found) {
      var d :| d in found && d.result.AutomaticStrong?;
      assert StrongFor(d, (a, b));
    }
    if StronglyJoined(a, b, Elements(pairs)) {
      var d :| d in Elements(pairs) && StrongFor(d, (a, b));
      assert d in found;
    }
    forall g ensures g in StrongGroups(found) <==> g in ConnectionGroups(p, Elements(pairs)) {
      if g in StrongGroups(found) {
        var d :| d in found && d.result.AutomaticStrong? && g in d.groups;
        assert StrongFor(d, p);
      }
      if g in ConnectionGroups(p, Elements(pairs)) {
        var d :| d in Elements(pairs) && g in d.groups && StrongFor(d, p);
        assert d in found;
      }
    }
  }

  lemma CollectNext(connections: map<(Id, Id), set<Group>>, done: set<(Id, Id)>, index: DecisionIndex,
                    pairs: seq<PairDecision>, a: Id, b: Id, records: Records)
    requires Indexes(index, pairs, records) && a in records && b in records
    requires Collected(connections, done, Elements(pairs))
    ensures Collected(Extended(connections, Endpoints(a, b, records), GroupsForPair(index, a, b, records)),
                      done + (if StronglyJoined(a, b, Elements(pairs)) then {Endpoints(a, b, records)} else {}),
                        Elements(pairs))
  {
    PairDecisions(index, pairs, a, b, records);
  }

  /** All strong connections between two sets of records. */
  method CollectConnections(left: set<Id>, right: set<Id>, index: DecisionIndex, records: Records,
      ghost pairs: seq<PairDecision>)
    returns (connections: map<(Id, Id), set<Group>>)
    requires Indexes(index, pairs, records) && left <= records.Keys && right <= records.Keys
    ensures Collected(connections, Connections(left, right, Elements(pairs), records), Elements(pairs))
  {
    connections := map[];
    var leftRest := left;
    while leftRest != {}
      invariant leftRest <= left
      invariant Collected(connections, Connections(left - leftRest, right, Elements(pairs), records), Elements(pairs))
    {
      var a :| a in leftRest;
      ghost var before := Connections(left - leftRest, right, Elements(pairs), records);
      var rightRest := right;
      while rightRest != {}
        invariant rightRest <= right
        invariant Collected(connections, before + Connections({a}, right - rightRest, Elements(pairs), records),
          Elements(pairs))
      {
        var b :| b in rightRest;
        CollectNext(connections, before + Connections({a}, right - rightRest, Elements(pairs), records), index, pairs,
          a, b, records);
        ConnectionsNext(a, right - rightRest, b, Elements(pairs), records);
        connections := CollectStrong(connections, Endpoints(a, b, records), GroupsForPair(index, a, b, records));
        assert right - (rightRest - {b}) == (right - rightRest) + {b};
        rightRest := rightRest - {b};
      }
      assert right - rightRest == right;
      ConnectionsUnion(left - leftRest, a, right, Elements(pairs), records);
      assert left - (leftRest - {a}) == (left - leftRest) + {a};
      leftRest := leftRest - {a};
    }
    assert left - leftRest == left;
  }

  lemma ConnectionsNext(a: Id, done: set<Id>, b: Id, decisions: set<PairDecision>, records: Records)
    requires a in records && b in records
    ensures Connections({a}, done + {b}, decisions, records)
         == Connections({a}, done, decisions, records)
            + (if StronglyJoined(a, b, decisions) then {Endpoints(a, b, records)} else {})
  {
  }

  lemma ConnectionsUnion(done: set<Id>, a: Id, right: set<Id>, decisions: set<PairDecision>, records: Records)
    ensures Connections(done + {a}, right, decisions, records)
         == Connections(done, right, decisions, records) + Connections({a}, right, decisions, records)
  {
  }

  ghost predicate Disjoint(connections: map<(Id, Id), set<Group>>, p: (Id, Id), q: (Id, Id)) {
    p in connections && q in connections && p != q && connections[p] !! connections[q]
  }

  /** Looks for two connections without a common group, each pair once. */
  method SomeDisjoint(connections: map<(Id, Id), set<Group>>) returns (found: bool)
    ensures found <==> exists p, q :: Disjoint(connections, p, q)
  {
    var rest := connections.Keys;
    while rest != {}
      invariant rest <= connections.Keys
      invariant forall p, q | p in connections.Keys - rest :: !Disjoint(connections, p, q)
    {
      var p :| p in rest;
      rest := rest - {p};
      if q :| q in rest && connections[p] !! connections[q] {
        assert Disjoint(connections, p, q);
        return true;
      }
      forall q ensures !Disjoint(connections, p, q) {
        assert q in connections.Keys - rest - {p} ==> !Disjoint(connections, q, p);
      }
    }
    found := false;
  }

  lemma DisjointMeans(connections: map<(Id, Id), set<Group>>, pairs: set<(Id, Id)>, decisions: set<PairDecision>)
    requires Collected(connections, pairs, decisions)
    ensures (exists p, q :: Disjoint(connections, p, q))
       <==> exists p, q | p in pairs && q in pairs :: Independent(p, q, decisions)
    ensures (exists p | p in pairs :: |ConnectionGroups(p, decisions)| > 1) <==> exists p | p in connections ::
      |connections[p]| > 1
    ensures |connections| == |pairs|
  {
    assert |connections| == |connections.Keys|;
    if p, q :| Disjoint(connections, p, q) {
      assert Independent(p, q, decisions);
    }
    if p, q :| p in pairs && q in pairs && Independent(p, q, decisions) {
      assert Disjoint(connections, p, q);
    }
  }

  /** Two established components join when they share an authority value or have two strong
      connections on different pairs with no evidence group in common. */
  method EstablishedAdmission(left: Component, right: Component, index: DecisionIndex, records: Records,
      ghost pairs: seq<PairDecision>)
    returns (r: Option<Reason>)
    requires Indexes(index, pairs, records) && left.members <= records.Keys && right.members <= records.Keys
    requires Pairs(left.authority) == Claims(left.members, records)
      && Pairs(right.authority) == Claims(right.members, records)
    ensures r == EstablishedRejects(left.members, right.members, Elements(pairs), records)
  {
    SharedAuthorityMeans(left.authority, right.authority);
    if SharedAuthority(left.authority, right.authority) { return None; }
    var connections := CollectConnections(left.members, right.members, index, records, pairs);
    DisjointMeans(connections, Connections(left.members, right.members, Elements(pairs), records), Elements(pairs));
    if |connections| < 2 {
      return Some(if exists p | p in connections ::
        |connections[p]| > 1 then EstablishedReusesPair else EstablishedNeedsTwo);
    }
    var disjoint := SomeDisjoint(connections);
    r := if disjoint then None else Some(EstablishedNotIndependent);
  }

  /** The admission table, read off two component summaries. */
  method Judge(left: Component, right: Component, d: PairDecision, c: Context, index: DecisionIndex,
      ghost pairs: seq<PairDecision>)
    returns (r: Option<Reason>)
    requires Indexes(index, pairs, c.records) && c.decisions == Elements(pairs)
    requires left.members <= c.records.Keys && right.members <= c.records.Keys
    requires View(left) == SummaryOf(left.members, c.records) && View(right) == SummaryOf(right.members, c.records)
    requires d.left in c.records && d.right in c.records
    ensures r == Admission(c, left.members, right.members, d)
  {
    if c.cannot != {} && CannotCross(left.members, right.members, c.cannot) { return Some(CannotLink); }
    AuthoritiesConflictMeans(left.authority, right.authority);
    if AuthoritiesConflict(left.authority, right.authority) { return Some(AuthoritativeConflict); }
    if left.IsSingleton() && right.IsSingleton() {
      r := None;
    } else if left.IsSingleton() {
      SingletonAdmissionMeans(d, d.left, right.members, index, pairs, c.records);
      var admitted := SingletonAdmission(d, d.left, right.members, index, c.records);
      r := if admitted then None else Some(SingletonNeedsIndependentGroup);
    } else if right.IsSingleton() {
      SingletonAdmissionMeans(d, d.right, left.members, index, pairs, c.records);
      var admitted := SingletonAdmission(d, d.right, left.members, index, c.records);
      r := if admitted then None else Some(SingletonNeedsIndependentGroup);
    } else {
      r := EstablishedAdmission(left, right, index, c.records, pairs);
    }
  }

  // ---- the two loops ----

  /** The summary found at a node's representative is that of the node's class, and two nodes have
      the same representative exactly when they have the same class. */
  lemma Described(root: seq<nat>, comps: seq<Component>, lay: Layout, part: Partition, i: nat, j: nat)
    requires Tracking(lay)(root, comps, part) && Representatives(root, lay.keys) && i < |lay.ids| && j < |lay.ids|
    ensures |root| == |lay.ids| == |comps| && root[i] < |comps|
    ensures lay.ids[i] in part && part[lay.ids[i]] <= lay.records.Keys
    ensures View(comps[root[i]]) == SummaryOf(part[lay.ids[i]], lay.records)
    ensures lay.ids[j] in part && (root[i] == root[j] <==> part[lay.ids[i]] == part[lay.ids[j]])
  {
    var r := root[i];
    assert root[r] == r && part[lay.ids[r]] == part[lay.ids[i]];
  }

  /** The components of two records, and whether they are the same one. */
  method Locate(uf: UnionFind, comps: array<Component>, lay: Layout, ghost part: Partition, a: Id, b: Id)
    returns (left: Component, right: Component, same: bool)
    requires Tracks(uf, comps, lay, part) && a in lay.records && b in lay.records
    modifies uf.parent
    ensures Tracks(uf, comps, lay, part)
    ensures a in part && b in part && part[a] <= lay.records.Keys && part[b] <= lay.records.Keys
    ensures View(left) == SummaryOf(part[a], lay.records) && View(right) == SummaryOf(part[b], lay.records)
    ensures same <==> part[a] == part[b]
  {
    var i, j := lay.index[a], lay.index[b];
    Described(uf.root, comps[..], lay, part, i, j);
    Described(uf.root, comps[..], lay, part, j, i);
    var leftRoot := uf.Find(i);
    var rightRoot := uf.Find(j);
    left, right, same := comps[leftRoot], comps[rightRoot], leftRoot == rightRoot;
  }

  method Join(uf: UnionFind, comps: array<Component>, lay: Layout, ghost part: Partition, a: Id, b: Id)
    requires Tracks(uf, comps, lay, part) && a in lay.records && b in lay.records && a in part && b in part
    modifies uf`root, uf.parent, uf.sizes, comps
    ensures Tracks(uf, comps, lay, ResolverSpec.Merge(part, a, b))
  {
    var _ := MergeComponents(uf, comps, lay.index[a], lay.index[b], lay.keys, lay, part);
  }

  method ManualMerge(uf: UnionFind, comps: array<Component>, lay: Layout, c: Context, e: ManualEdge,
                     ghost s: Clustering, accepted: seq<Fact>) returns (r: Result<seq<Fact>, Error>)
    requires lay.records == c.records && Tracks(uf, comps, lay, s.part) && accepted == s.accepted
    requires e.pair.left in c.records && e.pair.right in c.records
    modifies uf`root, uf.parent, uf.sizes, comps
    ensures ManualStep(c, s, e).Err? ==> r == Err(ManualStep(c, s, e).error)
    ensures ManualStep(c, s, e).Ok? ==>
      r == Ok(ManualStep(c, s, e).value.accepted) && Tracks(uf, comps, lay, ManualStep(c, s, e).value.part)
  {
    var left, right, same := Locate(uf, comps, lay, s.part, e.pair.left, e.pair.right);
    if same { return Ok(accepted); }
    if c.cannot != {} && CannotCross(left.members, right.members, c.cannot) { return Err(Contradiction); }
    var fact := MakeFact(e.pair, left.key, right.key, Accepted, ManualMatched, []);
    assert fact == ManualFact(c, s.part, e);
    Join(uf, comps, lay, s.part, e.pair.left, e.pair.right);
    r := Ok(accepted + [fact]);
  }

  method ManualMerges(uf: UnionFind, comps: array<Component>, lay: Layout, c: Context, manual: seq<ManualEdge>)
    returns (r: Result<seq<Fact>, Error>, ghost s: Clustering)
    requires lay.records == c.records && Tracks(uf, comps, lay, Start(c).part)
    requires forall e | e in manual :: e.pair.left in c.records && e.pair.right in c.records
    modifies uf`root, uf.parent, uf.sizes, comps
    ensures ManualPhase(c, Start(c), manual).Err? ==> r == Err(ManualPhase(c, Start(c), manual).error)
    ensures ManualPhase(c, Start(c), manual).Ok? ==>
      ManualPhase(c, Start(c), manual) == Ok(s) && r == Ok(s.accepted) && Tracks(uf, comps, lay, s.part)
  {
    s := Start(c);
    var accepted: seq<Fact> := [];
    ghost var step := ManualStepper(c);
    for i := 0 to |manual|
      invariant Tracks(uf, comps, lay, s.part) && accepted == s.accepted
      invariant Fold(step, Start(c), manual, 0) == Fold(step, s, manual[i..], i)
    {
      var e := manual[i];
      assert manual[i..][0] == e && manual[i..][1..] == manual[i + 1..];
      var next := ManualMerge(uf, comps, lay, c, e, s, accepted);
      if next.Err? { return next, s; }
      s := ManualStep(c, s, e).value;
      accepted := next.value;
    }
    r := Ok(accepted);
  }

  /** The fact one automatic edge yields, read off the summaries of its two components. */
  method Decide(left: Component, right: Component, same: bool, d: PairDecision, c: Context, index: DecisionIndex,
                ghost pairs: seq<PairDecision>, ghost part: Partition) returns (f: Fact)
    requires Indexes(index, pairs, c.records) && c.decisions == Elements(pairs)
    requires Known(c, part, d.left) && Known(c, part, d.right)
    requires part[d.left] <= c.records.Keys && part[d.right] <= c.records.Keys
    requires View(left) == SummaryOf(part[d.left], c.records) && View(right) == SummaryOf(part[d.right], c.records)
    requires same <==> part[d.left] == part[d.right]
    ensures f == AutomaticFact(c, part, d)
  {
    var edge := PairKeyOf(d.left, d.right, c.records);
    if same { return MakeFact(edge, left.key, right.key, Accepted, AlreadyConnected, d.groups); }
    var reject := Judge(left, right, d, c, index, pairs);
    if reject.Some? { return MakeFact(edge, left.key, right.key, Rejected, reject.value, d.groups); }
    f := MakeFact(edge, left.key, right.key, Accepted, ReasonFor(d.result), d.groups);
  }

  /** The state once an edge has yielded the fact `f`. */
  ghost function After(s: Clustering, d: PairDecision, f: Fact): Clustering {
    Emit(s, f, if Merges(f) && d.left in s.part
      && d.right in s.part then ResolverSpec.Merge(s.part, d.left, d.right) else s.part)
  }

  /** `r` is the fact of the step, or the error that stops it. */
  ghost predicate Outcome(c: Context, s: Clustering, d: PairDecision, checks: nat, r: Result<Fact, Error>) {
    if checks + 1 > c.limits.maxComponentChecks then
      r == Err(Limit(MaxComponentChecks, checks + 1, c.limits.maxComponentChecks))
    else if !Known(c, s.part, d.left) || !Known(c, s.part, d.right) then r == Err(Invalid)
    else
      var f := AutomaticFact(c, s.part, d);
      var size := |s.part[d.left]| + |s.part[d.right]|;
      if Merges(f) && size > c.limits.maxRecordsPerComponent then
        r == Err(Limit(MaxRecordsPerComponent, size, c.limits.maxRecordsPerComponent))
      else r == Ok(f)
  }

  lemma OutcomeOfFact(c: Context, s: Clustering, d: PairDecision, checks: nat, f: Fact, size: nat)
    requires checks + 1 <= c.limits.maxComponentChecks && Known(c, s.part, d.left) && Known(c, s.part, d.right)
    requires f == AutomaticFact(c, s.part, d) && size == |s.part[d.left]| + |s.part[d.right]|
    ensures Outcome(c, s, d, checks,
      if Merges(f) && size > c.limits.maxRecordsPerComponent
      then Err(Limit(MaxRecordsPerComponent, size, c.limits.maxRecordsPerComponent)) else Ok(f))
  {
  }

  lemma StepByOutcome(c: Context, s: Clustering, d: PairDecision, checks: nat, r: Result<Fact, Error>)
    requires Outcome(c, s, d, checks, r)
    ensures AutomaticStep(c, s, d, checks) == match r case Err(e) => Err(e) case Ok(f) => Ok(After(s, d, f))
  {
  }

  method AutomaticMerge(uf: UnionFind, comps: array<Component>, lay: Layout, c: Context, index: DecisionIndex,
      d: PairDecision, checks: nat, ghost pairs: seq<PairDecision>, ghost s: Clustering)
      returns (r: Result<Fact, Error>)
    requires lay.records == c.records && Tracks(uf, comps, lay, s.part)
    requires Indexes(index, pairs, c.records) && c.decisions == Elements(pairs)
    modifies uf`root, uf.parent, uf.sizes, comps
    ensures Outcome(c, s, d, checks, r)
    ensures r.Ok? ==> Tracks(uf, comps, lay, After(s, d, r.value).part)
  {
    if checks + 1 > c.limits.maxComponentChecks {
      return Err(Limit(MaxComponentChecks, checks + 1, c.limits.maxComponentChecks));
    }
    if d.left !in lay.index || d.right !in lay.index {
      assert !Known(c, s.part, d.left) || !Known(c, s.part, d.right);
      return Err(Invalid);
    }
    var left, right, same := Locate(uf, comps, lay, s.part, d.left, d.right);
    assert Known(c, s.part, d.left) && Known(c, s.part, d.right);
    var fact := Decide(left, right, same, d, c, index, pairs, s.part);
    var size := |left.members| + |right.members|;
    OutcomeOfFact(c, s, d, checks, fact, size);
    if !Merges(fact) { return Ok(fact); }
    if size > c.limits.maxRecordsPerComponent {
      return Err(Limit(MaxRecordsPerComponent, size, c.limits.maxRecordsPerComponent));
    }
    Join(uf, comps, lay, s.part, d.left, d.right);
    r := Ok(fact);
  }

  method AutomaticMerges(uf: UnionFind, comps: array<Component>, lay: Layout, c: Context, index: DecisionIndex,
      edges: seq<PairDecision>, ghost pairs: seq<PairDecision>, ghost base: Clustering, before: seq<Fact>)
    returns (r: Result<(seq<Fact>, seq<Fact>), Error>, ghost s: Clustering)
    requires lay.records == c.records && Tracks(uf, comps, lay, base.part)
    requires before == base.accepted && base.rejected == []
    requires Indexes(index, pairs, c.records) && c.decisions == Elements(pairs)
    modifies uf`root, uf.parent, uf.sizes, comps
    ensures AutomaticPhase(c, base, edges).Err? ==> r == Err(AutomaticPhase(c, base, edges).error)
    ensures AutomaticPhase(c, base, edges).Ok? ==>
      AutomaticPhase(c, base, edges) == Ok(s) && r == Ok((s.accepted, s.rejected)) && Tracks(uf, comps, lay, s.part)
  {
    s := base;
    var accepted, rejected := before, [];
    ghost var step := AutomaticStepper(c);
    for i := 0 to |edges|
      invariant Tracks(uf, comps, lay, s.part) && accepted == s.accepted && rejected == s.rejected
      invariant Fold(step, base, edges, 0) == Fold(step, s, edges[i..], i)
    {
      var d := edges[i];
      assert edges[i..][0] == d && edges[i..][1..] == edges[i + 1..];
      var next := AutomaticMerge(uf, comps, lay, c, index, d, i, pairs, s);
      StepByOutcome(c, s, d, i, next);
      if next.Err? { return Err(next.error), s; }
      s := After(s, d, next.value);
      if next.value.outcome.Accepted? {
        accepted := accepted + [next.value];
      } else {
        rejected := rejected + [next.value];
      }
    }
    r := Ok((accepted, rejected));
  }

  // ---- the whole resolver ----

  /** Whether two records are in the same class, by comparing representatives. */
  method SameClass(uf: UnionFind, comps: array<Component>, lay: Layout, ghost part: Partition, a: Id, b: Id)
    returns (same: bool)
    requires Tracks(uf, comps, lay, part) && a in lay.records && b in lay.records
    modifies uf.parent
    ensures Tracks(uf, comps, lay, part)
    ensures same <==> Same(part, a, b)
  {
    var _, _, s := Locate(uf, comps, lay, part, a, b);
    same := s;
  }

  /** Looks for a cannot-link inside one class. */
  method LinksApart(uf: UnionFind, comps: array<Component>, lay: Layout, ghost part: Partition, cannot: set<(Id, Id)>)
    returns (apart: bool)
    requires Tracks(uf, comps, lay, part)
    requires forall p | p in cannot :: p.0 in lay.records && p.1 in lay.records
    modifies uf.parent
    ensures Tracks(uf, comps, lay, part)
    ensures apart <==> !LinkInside(part, cannot)
  {
    var rest := cannot;
    ghost var done: set<(Id, Id)> := {};
    apart := true;
    while rest != {}
      invariant done + rest == cannot
      invariant Tracks(uf, comps, lay, part)
      invariant apart == !LinkInside(part, done)
      decreases rest
    {
      var p :| p in rest;
      LinkInsideNext(part, done, p);
      var same := SameClass(uf, comps, lay, part, p.0, p.1);
      MoveAcross(done, rest, p);
      rest := rest - {p};
      done := done + {p};
      if same { apart := false; }
    }
    assert done == cannot;
  }

  lemma MoveAcross<T>(done: set<T>, rest: set<T>, p: T)
    requires p in rest
    ensures (done + {p}) + (rest - {p}) == done + rest
  {
  }

  lemma LinkInsideNext(part: Partition, done: set<(Id, Id)>, p: (Id, Id))
    ensures LinkInside(part, done + {p}) <==> LinkInside(part, done) || Same(part, p.0, p.1)
  {
  }

  method ComponentKeyOf(uf: UnionFind, comps: array<Component>, lay: Layout, ghost part: Partition, id: Id)
    returns (key: Key)
    requires Tracks(uf, comps, lay, part) && id in lay.records
    modifies uf.parent
    ensures Tracks(uf, comps, lay, part)
    ensures id in part && key == ComponentKey(part[id], lay.records)
  {
    var component, _, _ := Locate(uf, comps, lay, part, id, id);
    key := component.key;
  }

  method CollectMemberships(uf: UnionFind, comps: array<Component>, lay: Layout, ghost part: Partition)
    returns (rows: seq<Membership>)
    requires Tracks(uf, comps, lay, part) && part.Keys == lay.records.Keys
    modifies uf.parent
    ensures |rows| == |lay.ids| && RowsOf(rows, lay.ids, part, lay.records)
  {
    rows := [];
    for i := 0 to |lay.ids|
      invariant Tracks(uf, comps, lay, part)
      invariant |rows| == i && RowsOf(rows, lay.ids, part, lay.records)
    {
      var key := ComponentKeyOf(uf, comps, lay, part, lay.ids[i]);
      var row := Membership(lay.ids[i], lay.keys[i], key);
      RowsNext(rows, row, lay.ids, part, lay.records);
      rows := rows + [row];
    }
  }

  ghost predicate RowOf(m: Membership, id: Id, part: Partition, records: Records) {
    id in part && id in records && m == MembershipOf(id, part, records)
  }

  /** `rows` are the memberships of the first records of `ids`. */
  ghost predicate RowsOf(rows: seq<Membership>, ids: seq<Id>, part: Partition, records: Records) {
    |rows| <= |ids| && forall j: nat {:trigger rows[j]} | j < |rows| :: RowOf(rows[j], ids[j], part, records)
  }

  lemma RowsNext(rows: seq<Membership>, row: Membership, ids: seq<Id>, part: Partition, records: Records)
    requires |rows| < |ids| && RowsOf(rows, ids, part, records) && RowOf(row, ids[|rows|], part, records)
    ensures RowsOf(rows + [row], ids, part, records)
  {
  }

  lemma {:induction false} RowsAreMemberships(rows: seq<Membership>, ids: seq<Id>, part: Partition, records: Records)
    requires |rows| == |ids| && RowsOf(rows, ids, part, records)
    ensures forall id | id in ids :: id in part && id in records
    ensures rows == Memberships(ids, part, records)
  {
    if ids != [] {
      assert RowOf(rows[0], ids[0], part, records);
      forall j: nat | j < |rows[1..]| ensures RowOf(rows[1..][j], ids[1..][j], part, records) {
        assert RowOf(rows[j + 1], ids[j + 1], part, records);
      }
      RowsAreMemberships(rows[1..], ids[1..], part, records);
    }
  }

  /** The two checks the source makes before it returns. */
  predicate ClosingChecks(rows: seq<Membership>, records: Records, cannot: set<(Id, Id)>) {
    && |rows| == |records|
    && |set m | m in rows :: m.id| == |records|
    && forall p | p in cannot ::
         !exists m, n | m in rows && n in rows :: m.id == p.0 && n.id == p.1 && m.component == n.component
  }

  /** Neither closing check can fail. */
  lemma ClosingChecksPass(s: Clustering, c: Context)
    requires IsPartition(s.part) && s.part.Keys == c.records.Keys && WellKeyed(c.records)
      && !LinkInside(s.part, c.cannot)
    ensures ClosingChecks(Finish(s, c.records).memberships, c.records, c.cannot)
  {
    var rows := Finish(s, c.records).memberships;
    FinishedMemberships(s, c.records);
    RowIds(rows, s.part, c.records);
    forall p | p in c.cannot
      ensures !exists m, n | m in rows && n in rows :: m.id == p.0 && n.id == p.1 && m.component == n.component
    {
      TogetherIsSame(s, c.records, p.0, p.1);
      assert !Same(s.part, p.0, p.1);
    }
  }

  lemma RowIds(rows: seq<Membership>, part: Partition, records: Records)
    requires part.Keys == records.Keys
    requires forall id | id in records :: MembershipOf(id, part, records) in rows
    requires forall m | m in rows :: m.id in records
    ensures (set m | m in rows :: m.id) == records.Keys
  {
    forall id | id in records ensures id in set m | m in rows :: m.id {
      assert MembershipOf(id, part, records).id == id;
    }
  }

  lemma EndsKnown(edges: seq<DecisionEdge>, records: Records, kind: DecisionKind)
    requires CanonicalManualEdges(edges, records, kind).Ok?
    ensures forall e | e in CanonicalManualEdges(edges, records, kind).value ::
      e.pair.left in records && e.pair.right in records
  {
    CanonicalKnown(edges, records, kind);
  }

  lemma LinksKnown(input: Input)
    requires Prepare(input).Ok?
    ensures var c := Prepare(input).value.context;
      && WellKeyed(c.records)
      && c.decisions == Elements(input.pairs)
      && c.limits == input.limits
      && (forall p | p in c.cannot :: p.0 in c.records && p.1 in c.records)
      && (forall e | e in Prepare(input).value.manual :: e.pair.left in c.records && e.pair.right in c.records)
  {
    IndexUnique(input.records);
    EndsKnown(input.manual, Index(input.records), Match);
    EndsKnown(input.cannot, Index(input.records), NotMatch);
  }

  /** The checks and indexes made before the first merge. */
  method PrepareInput(input: Input) returns (r: Result<Prepared, Error>)
    ensures r == Prepare(input)
  {
    if !input.limits.Valid() { return Err(Invalid); }
    if |input.records| > input.limits.maxActiveRecords {
      return Err(Limit(MaxActiveRecords, |input.records|, input.limits.maxActiveRecords));
    }
    var records := IndexRecords(input.records);
    if records.Err? { return Err(records.error); }
    var manual := CanonicalManual(input.manual, records.value, Match);
    if manual.Err? { return Err(manual.error); }
    var cannot := CanonicalManual(input.cannot, records.value, NotMatch);
    if cannot.Err? { return Err(cannot.error); }
    var links := CollectLinks(cannot.value, input.pairs, records.value);
    if links.Err? { return Err(links.error); }
    r := Ok(Prepared(Context(records.value, links.value, Elements(input.pairs), input.limits), manual.value));
  }

  /** One singleton component per record. */
  method SingletonComponents(ids: seq<Id>, records: Records) returns (comps: array<Component>)
    requires forall i: nat | i < |ids| :: ids[i] in records && records[ids[i]].id == ids[i]
    ensures fresh(comps) && comps.Length == |ids|
    ensures forall j: nat | j < |ids| :: View(comps[j]) == SummaryOf({ids[j]}, records)
  {
    comps := new Component[|ids|](_ => EMPTY);
    for i := 0 to |ids|
      invariant forall j: nat | j < i :: View(comps[j]) == SummaryOf({ids[j]}, records)
    {
      var record := records[ids[i]];
      var component := Components.Singleton(record);
      SingletonSummary(record, records);
      comps[i] := component;
    }
  }

  /** One union-find node and one singleton component per record. */
  method StartState(lay: Layout) returns (uf: UnionFind, comps: array<Component>)
    requires WellKeyed(lay.records)
    ensures fresh(uf) && fresh(uf.parent) && fresh(uf.sizes) && fresh(comps)
    ensures Tracks(uf, comps, lay, Singletons(lay.records))
  {
    LayoutRows(lay);
    uf := new UnionFind(|lay.ids|, lay.keys);
    comps := SingletonComponents(lay.ids, lay.records);
    StartDescribes(uf.root, comps[..], lay.ids, lay.records);
  }

  lemma LayoutRows(lay: Layout)
    requires WellKeyed(lay.records)
    ensures forall i: nat | i < |lay.ids| :: lay.ids[i] in lay.records && lay.records[lay.ids[i]].id == lay.ids[i]
    ensures forall i: nat, j: nat | i < j < |lay.ids| :: lay.ids[i] != lay.ids[j]
  {
    AscendingEnumerates(lay.records.Keys);
    EnumeratesIndexed(lay.ids, lay.records.Keys);
  }

  lemma StartDescribes(root: seq<nat>, comps: seq<Component>, ids: seq<Id>, records: Records)
    requires |comps| == |ids| && root == seq(|ids|, k requires 0 <= k < |ids| => k)
    requires forall i: nat | i < |ids| :: ids[i] in records
    requires forall i: nat, j: nat | i < j < |ids| :: ids[i] != ids[j]
    requires forall j: nat | j < |comps| :: View(comps[j]) == SummaryOf({ids[j]}, records)
    ensures Describes(root, comps, ids, records, Singletons(records))
  {
    SingletonsPartition(records);
  }

  /** Resolves an input: rows and facts exactly as specified, or the same error. */
  method ResolveInput(input: Input) returns (r: Result<Resolution, Error>)
    ensures r == Resolve(input)
  {
    var prepared := PrepareInput(input);
    if prepared.Err? { return Err(prepared.error); }
    LinksKnown(input);
    var c, manual := prepared.value.context, prepared.value.manual;
    r := ResolvePrepared(c, manual, input.pairs);
  }

  method ResolvePrepared(c: Context, manual: seq<ManualEdge>, pairs: seq<PairDecision>)
    returns (r: Result<Resolution, Error>)
    requires WellKeyed(c.records) && c.decisions == Elements(pairs)
    requires forall p | p in c.cannot :: p.0 in c.records && p.1 in c.records
    requires forall e | e in manual :: e.pair.left in c.records && e.pair.right in c.records
    ensures r == match Clustered(c, manual, SortBy(Filter(pairs, IsAutomatic), AutomaticRank),
      DecisionsKnown(pairs, c.records))
                 case Err(e) => Err(e)
                 case Ok(s) => Ok(Finish(s, c.records))
  {
    var lay := LayOut(c.records);
    var uf, comps := StartState(lay);
    var accepted, base := ManualMerges(uf, comps, lay, c, manual);
    if accepted.Err? { return Err(accepted.error); }
    var apart := LinksApart(uf, comps, lay, base.part, c.cannot);
    if !apart { return Err(Contradiction); }
    var automatic := Filter(pairs, IsAutomatic);
    if |automatic| > c.limits.maxAutomaticEdges {
      SortMultiset(automatic, AutomaticRank);
      return Err(Limit(MaxAutomaticEdges, |automatic|, c.limits.maxAutomaticEdges));
    }
    SortMultiset(automatic, AutomaticRank);
    var index := GroupDecisions(pairs, c.records);
    if index.Err? { return Err(index.error); }
    ManualPhaseShape(c, manual);
    var edges := SortBy(automatic, AutomaticRank);
    var facts, final := AutomaticMerges(uf, comps, lay, c, index.value, edges, pairs, base, accepted.value);
    if facts.Err? { return Err(facts.error); }
    var rows := CollectMemberships(uf, comps, lay, final.part);
    RowsAreMemberships(rows, lay.ids, final.part, c.records);
    AutomaticPhaseShape(c, base, edges);
    ClosingChecksPass(final, c);
    var sorted := SortBy(rows, MembershipRank);
    assert ClosingChecks(sorted, c.records, c.cannot);
    r := Ok(Resolution(sorted, facts.value.0, facts.value.1));
  }

  lemma ManualPhaseShape(c: Context, manual: seq<ManualEdge>)
    requires ManualPhase(c, Start(c), manual).Ok?
    ensures ManualPhase(c, Start(c), manual).value.rejected == []
    ensures IsPartition(ManualPhase(c, Start(c), manual).value.part)
  {
    ManualPhaseCounts(c, manual);
  }

  lemma AutomaticPhaseShape(c: Context, base: Clustering, edges: seq<PairDecision>)
    requires IsPartition(base.part) && base.part.Keys == c.records.Keys && base.rejected == []
      && !LinkInside(base.part, c.cannot)
    requires AutomaticPhase(c, base, edges).Ok?
    ensures var s := AutomaticPhase(c, base, edges).value;
      IsPartition(s.part) && s.part.Keys == c.records.Keys && !LinkInside(s.part, c.cannot)
  {
    var kept := (s: Clustering) => IsPartition(s.part) && s.part.Keys == c.records.Keys
      && !LinkInside(s.part, c.cannot);
    var step := AutomaticStepper(c);
    forall s, d, k: nat | kept(s) && step(s, d, k).Ok? ensures kept(step(s, d, k).value) {
      StepKeepsShape(c, s, d, k);
    }
    FoldInvariant(step, base, edges, 0, (d: PairDecision) => true, kept);
  }

  lemma StepKeepsShape(c: Context, s: Clustering, d: PairDecision, k: nat)
    requires IsPartition(s.part) && s.part.Keys == c.records.Keys && !LinkInside(s.part, c.cannot)
    requires AutomaticStep(c, s, d, k).Ok?
    ensures var t := AutomaticStep(c, s, d, k).value;
      IsPartition(t.part) && t.part.Keys == c.records.Keys && !LinkInside(t.part, c.cannot)
  {
    FactVerdict(c, s.part, d);
    if Merges(AutomaticFact(c, s.part, d)) {
      MergePartition(s.part, d.left, d.right);
      MergeKeepsLinksOutside(c, s.part, d.left, d.right);
    }
  }
}
