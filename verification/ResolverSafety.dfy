/** Safety of the two merge phases: what every accepted merge keeps, and what the finished
    partition therefore satisfies. */
module ResolverSafety {
  import opened Prelude
  import opened Folding
  import opened Types
  import opened Connectivity
  import opened ResolverSpec

  // ---- partitions ----

  ghost predicate Coarsens(fine: Partition, coarse: Partition) {
    fine.Keys == coarse.Keys && forall x | x in fine :: fine[x] <= coarse[x]
  }

  ghost predicate Same(part: Partition, a: Id, b: Id) {
    a in part && b in part && part[a] == part[b]
  }

  lemma SingletonsPartition(records: Records)
    ensures IsPartition(Singletons(records))
  {
  }

  lemma InClass(part: Partition, x: Id, a: Id)
    requires IsPartition(part) && a in part && x in part
    ensures x in part[a] <==> part[x] == part[a]
  {
    assert x in part[x];
  }

  /** Distinct classes are disjoint. */
  lemma ClassesDisjoint(part: Partition, a: Id, b: Id)
    requires IsPartition(part) && a in part && b in part && part[a] != part[b]
    ensures part[a] !! part[b]
  {
    forall x | x in part[a] ensures x !in part[b] {
      InClass(part, x, a);
      InClass(part, x, b);
    }
  }

  lemma MergePartition(part: Partition, a: Id, b: Id)
    requires IsPartition(part) && a in part && b in part
    ensures IsPartition(Merge(part, a, b))
    ensures Coarsens(part, Merge(part, a, b))
    ensures Merge(part, a, b)[a] == Merge(part, a, b)[b] == part[a] + part[b]
  {
    var q := Merge(part, a, b);
    forall x | x in q
      ensures x in q[x] && q[x] <= q.Keys && part[x] <= q[x]
      ensures forall y | y in q[x] :: q[y] == q[x]
    {
      InClass(part, x, a);
      InClass(part, x, b);
      forall y | y in q[x] ensures q[y] == q[x] {
        InClass(part, y, a);
        InClass(part, y, b);
        InClass(part, y, x);
      }
    }
  }

  /** Two records share a class after a merge iff they did before or it joined their classes. */
  lemma MergeSame(part: Partition, a: Id, b: Id, x: Id, y: Id)
    requires IsPartition(part) && a in part && b in part && x in part && y in part
    ensures var joined := {part[a], part[b]};
      Same(Merge(part, a, b), x, y) <==> (part[x] == part[y] || (part[x] in joined && part[y] in joined))
  {
    MergePartition(part, a, b);
    InClass(part, x, a);
    InClass(part, x, b);
    InClass(part, y, a);
    InClass(part, y, b);
    InClass(part, y, x);
    InClass(Merge(part, a, b), y, x);
  }

  ghost function ClassCount(part: Partition): nat {
    |part.Values|
  }

  lemma MergeValues(part: Partition, a: Id, b: Id)
    requires IsPartition(part) && a in part && b in part && part[a] != part[b]
    ensures Merge(part, a, b).Values == (part.Values - {part[a], part[b]}) + {part[a] + part[b]}
  {
    var q := Merge(part, a, b);
    var joined := part[a] + part[b];
    MergePartition(part, a, b);
    var kept := part.Values - {part[a], part[b]};
    forall v | v in kept + {joined} ensures v in q.Values {
      if v in kept {
        var x :| x in part && part[x] == v;
        InClass(part, x, a);
        InClass(part, x, b);
        assert q[x] == v;
      } else {
        assert q[a] == v;
      }
    }
    forall v | v in q.Values ensures v in kept + {joined} {
      var x :| x in q && q[x] == v;
      InClass(part, x, a);
      InClass(part, x, b);
      assert part[x] in part.Values;
    }
  }

  /** Each merge of two classes leaves one class fewer. */
  lemma MergeCount(part: Partition, a: Id, b: Id)
    requires IsPartition(part) && a in part && b in part && part[a] != part[b]
    ensures ClassCount(Merge(part, a, b)) == ClassCount(part) - 1
  {
    var joined := part[a] + part[b];
    MergeValues(part, a, b);
    ClassesDisjoint(part, a, b);
    assert a in part[a] && b in part[b];
    forall x | x in part ensures part[x] != joined {
      InClass(part, a, x);
      InClass(part, b, x);
    }
    assert joined !in part.Values;
    assert part[a] in part.Values && part[b] in part.Values;
    assert part.Values == (part.Values - {part[a], part[b]}) + {part[a], part[b]};
  }

  lemma SingletonCount(records: Records)
    ensures ClassCount(Singletons(records)) == |records|
    decreases |records|
  {
    var part := Singletons(records);
    if records == map[] {
      assert part.Values == {};
    } else {
      var id :| id in records;
      var rest := records - {id};
      SingletonCount(rest);
      var small := Singletons(rest);
      forall v | v in part.Values ensures v in small.Values + {{id}} {
        var x :| x in part && part[x] == v;
        if x in rest { assert small[x] == v; }
      }
      forall v | v in small.Values + {{id}} ensures v in part.Values {
        if v == {id} { assert part[id] == v; } else {
          var x :| x in small && small[x] == v;
          assert part[x] == v;
        }
      }
      assert part.Values == small.Values + {{id}};
      forall x | x in small ensures small[x] != {id} {
        assert x in small[x];
      }
      assert records.Keys == rest.Keys + {id};
    }
  }

  // ---- component keys ----

  lemma KeyOfClass(part: Partition, records: Records, a: Id)
    requires IsPartition(part) && part.Keys == records.Keys && a in part
    ensures forall b | b in part[a] :: ComponentKey(part[a], records) <= records[b].key
    ensures exists b :: b in part[a] && b in records && ComponentKey(part[a], records) == records[b].key
  {
    var keys := KeysOf(part[a], records);
    assert records[a].key in keys;
    forall b | b in part[a] ensures records[b].key in keys {}
  }

  /** Two classes have the same least sort key only when they are the same class. */
  lemma KeysIdentifyClasses(part: Partition, records: Records, a: Id, b: Id)
    requires IsPartition(part) && part.Keys == records.Keys && WellKeyed(records)
    requires a in part && b in part
    ensures ComponentKey(part[a], records) == ComponentKey(part[b], records) <==> part[a] == part[b]
  {
    KeyOfClass(part, records, a);
    KeyOfClass(part, records, b);
  }

  // ---- manual phase ----

  ghost function EdgeSet(edges: seq<ManualEdge>): set<(Id, Id)> {
    set e | e in edges :: (e.pair.left, e.pair.right)
  }

  ghost predicate Classifies(part: Partition, edges: set<(Id, Id)>) {
    && IsPartition(part)
    && (forall e | e in edges :: e.0 in part && e.1 in part)
    && (forall a, b | a in part && b in part :: part[a] == part[b] <==> Connected(edges, a, b))
  }

  lemma SingletonsClassify(records: Records)
    ensures Classifies(Singletons(records), {})
  {
    var part := Singletons(records);
    forall a, b | a in part && b in part ensures part[a] == part[b] <==> Connected({}, a, b) {
      ConnectedRefl<Id>({}, a);
      if Connected<Id>({}, a, b) {
        ConnectedInvariant<Id, Id>({}, a, b, (x: Id) => x);
      }
      assert a in part[a];
    }
  }

  lemma MergeClassifies(part: Partition, edges: set<(Id, Id)>, l: Id, r: Id)
    requires Classifies(part, edges) && l in part && r in part
    ensures Classifies(Merge(part, l, r), edges + {(l, r)})
  {
    var q := Merge(part, l, r);
    var all := edges + {(l, r)};
    MergePartition(part, l, r);
    forall a, b | a in q && b in q ensures q[a] == q[b] <==> Connected(all, a, b) {
      if q[a] == q[b] {
        MergedAreConnected(part, edges, l, r, a, b);
      }
      if Connected(all, a, b) {
        ConnectedAreMerged(part, edges, l, r, a, b);
      }
    }
  }

  lemma ConnectedAreMerged(part: Partition, edges: set<(Id, Id)>, l: Id, r: Id, a: Id, b: Id)
    requires Classifies(part, edges) && l in part && r in part && a in part && b in part
    requires Connected(edges + {(l, r)}, a, b)
    ensures Merge(part, l, r)[a] == Merge(part, l, r)[b]
  {
    var q := Merge(part, l, r);
    MergePartition(part, l, r);
    var tag := (x: Id) => if x in q then q[x] else {};
    forall x, y | (x, y) in edges + {(l, r)} ensures tag(x) == tag(y) {
      if (x, y) in edges {
        EdgeInClass(part, edges, (x, y));
        MergeSame(part, l, r, x, y);
      }
    }
    ConnectedInvariant(edges + {(l, r)}, a, b, tag);
  }

  lemma EdgeInClass(part: Partition, edges: set<(Id, Id)>, e: (Id, Id))
    requires Classifies(part, edges) && e in edges
    ensures e.0 in part && e.1 in part && part[e.0] == part[e.1]
  {
    assert (e.0, e.1) == e;
    ConnectedEdge(edges, e.0, e.1);
  }

  lemma MergedAreConnected(part: Partition, edges: set<(Id, Id)>, l: Id, r: Id, a: Id, b: Id)
    requires IsPartition(part) && l in part && r in part && a in part && b in part
    requires forall x, y | x in part && y in part && part[x] == part[y] :: Connected(edges, x, y)
    requires Merge(part, l, r)[a] == Merge(part, l, r)[b]
    ensures Connected(edges + {(l, r)}, a, b)
  {
    var all := edges + {(l, r)};
    MergeSame(part, l, r, a, b);
    forall x, y | x in part && y in part && part[x] == part[y] ensures Connected(all, x, y) {
      ConnectedMono(edges, all, x, y);
    }
    ConnectedEdge(all, l, r);
    ConnectedEdge(all, r, l);
    if part[a] == part[b] {
    } else if part[a] == part[l] {
      ConnectedTrans(all, a, l, r);
      ConnectedTrans(all, a, r, b);
    } else {
      ConnectedTrans(all, a, r, l);
      ConnectedTrans(all, a, l, b);
    }
  }

  /** The classes so far are those of MATCH connectivity by the edges seen so far. */
  lemma ManualStepClassifies(c: Context, s: Clustering, e: ManualEdge, seen: set<(Id, Id)>)
    requires Classifies(s.part, seen) && ManualStep(c, s, e).Ok?
    ensures Classifies(ManualStep(c, s, e).value.part, seen + {(e.pair.left, e.pair.right)})
  {
    MergeClassifies(s.part, seen, e.pair.left, e.pair.right);
    if s.part[e.pair.left] == s.part[e.pair.right] {
      MergeNothing(s.part, e.pair.left, e.pair.right);
    }
  }

  /** The manual phase computes exactly the classes of MATCH connectivity. */
  lemma {:induction false} ManualPhaseClassifies(c: Context, s: Clustering, edges: seq<ManualEdge>, n: nat,
      seen: set<(Id, Id)>)
    requires Classifies(s.part, seen)
    requires Fold(ManualStepper(c), s, edges, n).Ok?
    ensures Classifies(Fold(ManualStepper(c), s, edges, n).value.part, seen + EdgeSet(edges))
    decreases |edges|
  {
    if edges == [] {
      assert seen + EdgeSet(edges) == seen;
    } else {
      var e := edges[0];
      ManualStepClassifies(c, s, e, seen);
      assert edges == [e] + edges[1..];
      assert seen + EdgeSet(edges) == (seen + {(e.pair.left, e.pair.right)}) + EdgeSet(edges[1..]);
      ManualPhaseClassifies(c, ManualStep(c, s, e).value, edges[1..], n + 1, seen + {(e.pair.left, e.pair.right)});
    }
  }

  lemma MergeNothing(part: Partition, l: Id, r: Id)
    requires IsPartition(part) && l in part && r in part && part[l] == part[r]
    ensures Merge(part, l, r) == part
  {
    forall x | x in part ensures Merge(part, l, r)[x] == part[x] {
      assert x in part[x];
      if x in part[l] { assert part[x] == part[l]; assert part[l] + part[r] == part[l]; }
    }
  }

  /** Accepted manual facts are counted by the classes they removed. */
  ghost predicate ManualCounted(total: nat, s: Clustering) {
    && IsPartition(s.part)
    && s.rejected == []
    && |s.accepted| + ClassCount(s.part) == total
    && forall f | f in s.accepted :: f.reason == ManualMatched && f.outcome == Accepted
  }

  lemma ManualStepCounts(c: Context, total: nat, s: Clustering, e: ManualEdge)
    requires ManualCounted(total, s) && ManualStep(c, s, e).Ok?
    ensures ManualCounted(total, ManualStep(c, s, e).value)
  {
    if s.part[e.pair.left] != s.part[e.pair.right] {
      MergeCount(s.part, e.pair.left, e.pair.right);
      MergePartition(s.part, e.pair.left, e.pair.right);
    }
  }

  lemma ManualPhaseCounts(c: Context, edges: seq<ManualEdge>)
    requires ManualPhase(c, Start(c), edges).Ok?
    ensures ManualCounted(|c.records|, ManualPhase(c, Start(c), edges).value)
  {
    SingletonsPartition(c.records);
    SingletonCount(c.records);
    var counted := (s: Clustering) => ManualCounted(|c.records|, s);
    var step := ManualStepper(c);
    forall s, e, k: nat | counted(s) && step(s, e, k).Ok? ensures counted(step(s, e, k).value) {
      ManualStepCounts(c, |c.records|, s, e);
    }
    FoldInvariant(step, Start(c), edges, 0, (e: ManualEdge) => true, counted);
  }

  // ---- automatic phase ----

  ghost predicate Contradicts(records: Records, a: Id, b: Id, f: Field) {
    && a in records && b in records
    && f in records[a].authority && f in records[b].authority
    && records[a].authority[f] != "" && records[b].authority[f] != ""
    && records[a].authority[f] != records[b].authority[f]
  }

  /** The condition that rejected `f` still separates its endpoints. */
  ghost predicate StillBlocked(c: Context, part: Partition, f: Fact) {
    && f.edge.left in part && f.edge.right in part
    && part[f.edge.left] != part[f.edge.right]
    && (f.reason.CannotLink? ==> CannotCross(part[f.edge.left], part[f.edge.right], c.cannot))
    && (f.reason.AuthoritativeConflict? ==>
          Conflict(Claims(part[f.edge.left], c.records), Claims(part[f.edge.right], c.records)))
  }

  ghost predicate Permanent(f: Fact) {
    f.reason.CannotLink? || f.reason.AuthoritativeConflict?
  }

  /** What every automatic step keeps, relative to the partition `base` of the manual phase. */
  ghost predicate Safe(c: Context, base: Partition, edges: set<(Id, Id)>, s: Clustering) {
    && IsPartition(s.part)
    && s.part.Keys == c.records.Keys
    && Coarsens(base, s.part)
    && !LinkInside(s.part, c.cannot)
    && (forall a, b | a in s.part && b in s.part && s.part[a] == s.part[b] :: Connected(edges, a, b))
    && (forall a, b, f | Same(s.part, a, b) && Contradicts(c.records, a, b, f) :: Same(base, a, b))
    && (forall f | f in s.rejected && Permanent(f) :: StillBlocked(c, s.part, f))
  }

  lemma ClaimOf(c: Context, members: set<Id>, a: Id, f: Field)
    requires a in members && a in c.records && f in c.records[a].authority && c.records[a].authority[f] != ""
    ensures (f, c.records[a].authority[f]) in Claims(members, c.records)
  {
  }

  lemma ClaimsMono(small: set<Id>, big: set<Id>, records: Records)
    requires small <= big
    ensures Claims(small, records) <= Claims(big, records)
  {
    forall p | p in Claims(small, records) ensures p in Claims(big, records) {
      var m, f :| m in small && m in records && f in records[m].authority && records[m].authority[f] != ""
                  && p == (f, records[m].authority[f]);
      assert m in big;
    }
  }

  lemma MergeKeepsLinksOutside(c: Context, part: Partition, l: Id, r: Id)
    requires IsPartition(part) && l in part && r in part && !LinkInside(part, c.cannot)
    requires !CannotCross(part[l], part[r], c.cannot)
    ensures !LinkInside(Merge(part, l, r), c.cannot)
  {
    var q := Merge(part, l, r);
    forall p | p in c.cannot && p.0 in q && p.1 in q ensures q[p.0] != q[p.1] {
      MergeSame(part, l, r, p.0, p.1);
      assert p.0 in part[p.0] && p.1 in part[p.1] && part[p.0] != part[p.1];
      CrossingLink(p, part[l], part[r], c.cannot);
    }
  }

  lemma CrossingLink(p: (Id, Id), left: set<Id>, right: set<Id>, cannot: set<(Id, Id)>)
    requires p in cannot
    ensures p.0 in left && p.1 in right ==> CannotCross(left, right, cannot)
    ensures p.0 in right && p.1 in left ==> CannotCross(left, right, cannot)
  {
    assert (p.0, p.1) == p;
  }

  lemma CrossingClaims(c: Context, left: set<Id>, right: set<Id>, a: Id, b: Id, f: Field)
    requires a in left && b in right && Contradicts(c.records, a, b, f)
    ensures Conflict(Claims(left, c.records), Claims(right, c.records))
  {
    var p, q := (f, c.records[a].authority[f]), (f, c.records[b].authority[f]);
    ClaimOf(c, left, a, f);
    ClaimOf(c, right, b, f);
    assert p.0 == q.0 && p.1 != q.1;
  }

  lemma MergeKeepsAuthority(c: Context, base: Partition, part: Partition, l: Id, r: Id)
    requires IsPartition(part) && l in part && r in part
    requires !Conflict(Claims(part[l], c.records), Claims(part[r], c.records))
    requires forall a, b, f | Same(part, a, b) && Contradicts(c.records, a, b, f) :: Same(base, a, b)
    ensures forall a, b, f | Same(Merge(part, l, r), a, b) && Contradicts(c.records, a, b, f) :: Same(base, a, b)
  {
    forall a, b, f | Same(Merge(part, l, r), a, b) && Contradicts(c.records, a, b, f)
      ensures Same(base, a, b)
    {
      MergeSame(part, l, r, a, b);
      assert a in part[a] && b in part[b];
      if part[a] == part[b] {
        assert Same(part, a, b);
      } else if part[a] == part[l] {
        CrossingClaims(c, part[l], part[r], a, b, f);
      } else {
        CrossingClaims(c, part[l], part[r], b, a, f);
      }
    }
  }

  lemma CannotCrossMono(a: set<Id>, b: set<Id>, x: set<Id>, y: set<Id>, cannot: set<(Id, Id)>)
    requires a <= x && b <= y && CannotCross(a, b, cannot)
    ensures CannotCross(x, y, cannot)
  {
    var p, q :| p in a && q in b && ((p, q) in cannot || (q, p) in cannot);
    assert p in x && q in y;
  }

  lemma ConflictMono(a: set<(Field, Value)>, b: set<(Field, Value)>, x: set<(Field, Value)>, y: set<(Field, Value)>)
    requires a <= x && b <= y && Conflict(a, b)
    ensures Conflict(x, y)
  {
    var p, q :| p in a && q in b && p.0 == q.0 && p.1 != q.1;
    assert p in x && q in y;
  }

  lemma MergeKeepsBlocked(c: Context, part: Partition, l: Id, r: Id, f: Fact)
    requires IsPartition(part) && l in part && r in part
    requires !CannotCross(part[l], part[r], c.cannot)
    requires !Conflict(Claims(part[l], c.records), Claims(part[r], c.records))
    requires Permanent(f) && StillBlocked(c, part, f)
    ensures StillBlocked(c, Merge(part, l, r), f)
  {
    var a, b := f.edge.left, f.edge.right;
    var q := Merge(part, l, r);
    MergePartition(part, l, r);
    MergeSame(part, l, r, a, b);
    if f.reason.CannotLink? {
      CannotCrossMono(part[a], part[b], q[a], q[b], c.cannot);
    } else {
      ClaimsMono(part[a], q[a], c.records);
      ClaimsMono(part[b], q[b], c.records);
      ConflictMono(Claims(part[a], c.records), Claims(part[b], c.records), Claims(q[a], c.records),
        Claims(q[b], c.records));
    }
  }

  lemma CoarsensTrans(p: Partition, q: Partition, r: Partition)
    requires Coarsens(p, q) && Coarsens(q, r)
    ensures Coarsens(p, r)
  {
  }

  lemma EndpointsUnordered(left: Id, right: Id, records: Records)
    requires left in records && right in records
    ensures var k := PairKeyOf(left, right, records);
      (k.left == left && k.right == right) || (k.left == right && k.right == left)
  {
  }

  lemma ConflictSymmetric(a: set<(Field, Value)>, b: set<(Field, Value)>)
    requires Conflict(a, b)
    ensures Conflict(b, a)
  {
    var p, q :| p in a && q in b && p.0 == q.0 && p.1 != q.1;
    assert q in b && p in a && q.0 == p.0 && q.1 != p.1;
  }

  lemma CannotCrossSymmetric(a: set<Id>, b: set<Id>, cannot: set<(Id, Id)>)
    requires CannotCross(a, b, cannot)
    ensures CannotCross(b, a, cannot)
  {
    var p, q :| p in a && q in b && ((p, q) in cannot || (q, p) in cannot);
    assert q in b && p in a;
  }

  lemma RejectionBlocks(c: Context, part: Partition, d: PairDecision)
    requires IsPartition(part) && Known(c, part, d.left) && Known(c, part, d.right)
    requires part[d.left] != part[d.right]
    requires Verdict(c, part, d).Some?
    ensures var f := AutomaticFact(c, part, d);
      f.outcome == Rejected && f.reason == Verdict(c, part, d).value && (Permanent(f) ==> StillBlocked(c, part, f))
  {
    EndpointsUnordered(d.left, d.right, c.records);
    var f := AutomaticFact(c, part, d);
    if f.reason.CannotLink? {
      CannotCrossSymmetric(part[d.left], part[d.right], c.cannot);
    }
    if f.reason.AuthoritativeConflict? {
      ConflictSymmetric(Claims(part[d.left], c.records), Claims(part[d.right], c.records));
    }
  }

  lemma MergeSafe(c: Context, base: Partition, edges: set<(Id, Id)>, s: Clustering, l: Id, r: Id, accepted: seq<Fact>)
    requires Safe(c, base, edges, s) && (l, r) in edges && l in s.part && r in s.part
    requires !CannotCross(s.part[l], s.part[r], c.cannot)
    requires !Conflict(Claims(s.part[l], c.records), Claims(s.part[r], c.records))
    ensures Safe(c, base, edges, Clustering(Merge(s.part, l, r), accepted, s.rejected))
  {
    var q := Merge(s.part, l, r);
    MergePartition(s.part, l, r);
    CoarsensTrans(base, s.part, q);
    MergeKeepsLinksOutside(c, s.part, l, r);
    MergeKeepsAuthority(c, base, s.part, l, r);
    forall f | f in s.rejected && Permanent(f) ensures StillBlocked(c, q, f) {
      MergeKeepsBlocked(c, s.part, l, r, f);
    }
    forall a, b | a in q && b in q && q[a] == q[b] ensures Connected(edges, a, b) {
      MergedAreConnected(s.part, edges, l, r, a, b);
      assert edges + {(l, r)} == edges;
    }
  }

  lemma FactVerdict(c: Context, part: Partition, d: PairDecision)
    requires Known(c, part, d.left) && Known(c, part, d.right)
    ensures var f := AutomaticFact(c, part, d);
      && (Merges(f) <==> part[d.left] != part[d.right] && Verdict(c, part, d).None?)
      && (f.outcome.Rejected? <==> part[d.left] != part[d.right] && Verdict(c, part, d).Some?)
  {
  }

  lemma StepSafe(c: Context, base: Partition, edges: set<(Id, Id)>, s: Clustering, d: PairDecision, checks: nat)
    requires Safe(c, base, edges, s) && (d.left, d.right) in edges
    requires AutomaticStep(c, s, d, checks).Ok?
    ensures Safe(c, base, edges, AutomaticStep(c, s, d, checks).value)
  {
    var f := AutomaticFact(c, s.part, d);
    FactVerdict(c, s.part, d);
    if Merges(f) {
      MergeSafe(c, base, edges, s, d.left, d.right, s.accepted + [f]);
    } else if f.outcome.Rejected? {
      RejectionBlocks(c, s.part, d);
    }
  }

  lemma PhaseSafe(c: Context, base: Partition, edges: set<(Id, Id)>, s: Clustering, todo: seq<PairDecision>)
    requires Safe(c, base, edges, s)
    requires forall d | d in todo :: (d.left, d.right) in edges
    requires AutomaticPhase(c, s, todo).Ok?
    ensures Safe(c, base, edges, AutomaticPhase(c, s, todo).value)
  {
    var good := (d: PairDecision) => (d.left, d.right) in edges;
    var safe := (t: Clustering) => Safe(c, base, edges, t);
    var step := AutomaticStepper(c);
    forall t, d, k: nat | safe(t) && good(d) && step(t, d, k).Ok? ensures safe(step(t, d, k).value) {
      StepSafe(c, base, edges, t, d, k);
    }
    FoldInvariant(step, s, todo, 0, good, safe);
  }
}
