/** Locality: on a set of records closed under MATCH and automatic edges the resolver behaves as if
    the other records did not exist. */
module ResolverLocality {
  import opened Prelude
  import opened Sorting
  import opened Folding
  import opened Types
  import opened ResolverSpec
  import opened ResolverSafety
  import opened ResolverTheorems

  // ---- restriction to a scope ----

  function RecordIn(scope: set<Id>): Record -> bool { (r: Record) => r.id in scope }
  function EdgeIn(scope: set<Id>): DecisionEdge -> bool { (e: DecisionEdge) => e.left in scope && e.right in scope }
  function CanonicalIn(scope: set<Id>): ManualEdge -> bool {
    (e: ManualEdge) => e.pair.left in scope && e.pair.right in scope
  }
  function PairIn(scope: set<Id>): PairDecision -> bool { (d: PairDecision) => d.left in scope && d.right in scope }
  function FactIn(scope: set<Id>): Fact -> bool { (f: Fact) => f.edge.left in scope && f.edge.right in scope }
  function RowIn(scope: set<Id>): Membership -> bool { (m: Membership) => m.id in scope }

  /** The part of an input that lies inside `scope`; links leaving it are dropped. */
  function Restrict(input: Input, scope: set<Id>): Input {
    Input(Filter(input.records, RecordIn(scope)), Filter(input.manual, EdgeIn(scope)),
          Filter(input.cannot, EdgeIn(scope)), Filter(input.pairs, PairIn(scope)), input.limits)
  }

  function RestrictResult(r: Resolution, scope: set<Id>): Resolution {
    Resolution(Filter(r.memberships, RowIn(scope)), Filter(r.accepted, FactIn(scope)),
      Filter(r.rejected, FactIn(scope)))
  }

  /** No MATCH edge and no automatic edge crosses the boundary of `scope`; cannot-links may. */
  ghost predicate Closed(manual: seq<DecisionEdge>, pairs: seq<PairDecision>, scope: set<Id>) {
    && (forall e | e in manual :: e.left in scope <==> e.right in scope)
    && (forall d | d in pairs && d.result.IsAutomaticEdge() :: d.left in scope <==> d.right in scope)
  }

  function Within(records: Records, scope: set<Id>): Records {
    map id | id in records && id in scope :: records[id]
  }

  ghost predicate ScopedContext(c: Context, d: Context, scope: set<Id>) {
    && d.records == Within(c.records, scope)
    && d.cannot == (set p | p in c.cannot && p.0 in scope && p.1 in scope)
    && d.decisions == (set x | x in c.decisions && x.left in scope && x.right in scope)
    && d.limits == c.limits
  }

  function Inside(part: Partition, scope: set<Id>): Partition {
    map x | x in part && x in scope :: part[x]
  }

  /** No class crosses the boundary of the scope. */
  ghost predicate Uncrossed(part: Partition, scope: set<Id>) {
    IsPartition(part) && forall x | x in part && x in scope :: part[x] <= scope
  }

  /** `t` is what remains of `s` inside the scope, whose boundary no class of `s` crosses. */
  ghost predicate Scoped(s: Clustering, t: Clustering, scope: set<Id>) {
    && Uncrossed(s.part, scope)
    && t.part == Inside(s.part, scope)
    && t.accepted == Filter(s.accepted, FactIn(scope))
    && t.rejected == Filter(s.rejected, FactIn(scope))
  }

  // ---- summaries and verdicts inside the scope ----

  lemma LocalSummaries(records: Records, scope: set<Id>, members: set<Id>)
    requires members <= scope
    ensures Claims(members, Within(records, scope)) == Claims(members, records)
    ensures ComponentKey(members, Within(records, scope)) == ComponentKey(members, records)
  {
    var local := Within(records, scope);
    forall p ensures p in Claims(members, local) <==> p in Claims(members, records) {
      if p in Claims(members, local) {
        var m, f :| m in members && m in local && f in local[m].authority && local[m].authority[f] != ""
                    && p == (f, local[m].authority[f]);
        assert m in records && f in records[m].authority;
      }
      if p in Claims(members, records) {
        var m, f :| m in members && m in records && f in records[m].authority && records[m].authority[f] != ""
                    && p == (f, records[m].authority[f]);
        assert m in local && f in local[m].authority;
      }
    }
    assert KeysOf(members, local) == KeysOf(members, records) by {
      forall m | m in members ensures m in local <==> m in records {}
    }
  }

  lemma LocalCrossing(c: Context, d: Context, scope: set<Id>, left: set<Id>, right: set<Id>)
    requires ScopedContext(c, d, scope) && left <= scope && right <= scope
    ensures CannotCross(left, right, d.cannot) <==> CannotCross(left, right, c.cannot)
  {
    forall a, b | a in left && b in right
      ensures (a, b) in d.cannot <==> (a, b) in c.cannot
      ensures (b, a) in d.cannot <==> (b, a) in c.cannot
    {
    }
  }

  lemma LocalSingleton(c: Context, d: Context, scope: set<Id>, e: PairDecision, singleton: Id, established: set<Id>)
    requires ScopedContext(c, d, scope) && singleton in scope && established <= scope
    ensures SingletonAdmits(e, singleton, established, d.decisions) <==>
      SingletonAdmits(e, singleton, established, c.decisions)
  {
    forall x, m | x in c.decisions && m in established && ForPair(x, singleton, m) ensures x in d.decisions {
    }
  }

  lemma LocalJoin(c: Context, d: Context, scope: set<Id>, a: Id, b: Id)
    requires ScopedContext(c, d, scope) && a in scope && b in scope
    ensures StronglyJoined(a, b, d.decisions) <==> StronglyJoined(a, b, c.decisions)
    ensures ConnectionGroups((a, b), d.decisions) == ConnectionGroups((a, b), c.decisions)
  {
    forall x | x in c.decisions && StrongFor(x, (a, b)) ensures x in d.decisions {}
    forall g ensures g in ConnectionGroups((a, b), d.decisions) <==> g in ConnectionGroups((a, b), c.decisions) {}
  }

  lemma LocalConnections(c: Context, d: Context, scope: set<Id>, left: set<Id>, right: set<Id>)
    requires ScopedContext(c, d, scope) && left <= scope && right <= scope
    ensures Connections(left, right, d.decisions, d.records) == Connections(left, right, c.decisions, c.records)
    ensures forall p | p in Connections(left, right, c.decisions, c.records) ::
      ConnectionGroups(p, d.decisions) == ConnectionGroups(p, c.decisions)
  {
    var local, full :=
      Connections(left, right, d.decisions, d.records), Connections(left, right, c.decisions, c.records);
    forall p | p in local ensures p in full {
      var a, b :| a in left && b in right && a in d.records && b in d.records && StronglyJoined(a, b, d.decisions)
                  && p == Endpoints(a, b, d.records);
      LocalJoin(c, d, scope, a, b);
      assert p == Endpoints(a, b, c.records);
    }
    forall p | p in full ensures p in local && ConnectionGroups(p, d.decisions) == ConnectionGroups(p, c.decisions) {
      var a, b :| a in left && b in right && a in c.records && b in c.records && StronglyJoined(a, b, c.decisions)
                  && p == Endpoints(a, b, c.records);
      LocalJoin(c, d, scope, a, b);
      LocalJoin(c, d, scope, b, a);
      assert a in d.records && b in d.records && p == Endpoints(a, b, d.records);
    }
  }

  lemma LocalEstablished(c: Context, d: Context, scope: set<Id>, left: set<Id>, right: set<Id>)
    requires ScopedContext(c, d, scope) && left <= scope && right <= scope
    ensures EstablishedRejects(left, right, d.decisions, d.records)
      == EstablishedRejects(left, right, c.decisions, c.records)
  {
    LocalSummaries(c.records, scope, left);
    LocalSummaries(c.records, scope, right);
    LocalConnections(c, d, scope, left, right);
    var connections := Connections(left, right, c.decisions, c.records);
    forall p, q | p in connections && q in connections
      ensures Independent(p, q, d.decisions) <==> Independent(p, q, c.decisions)
    {
    }
  }

  lemma LocalVerdict(c: Context, d: Context, part: Partition, local: Partition, scope: set<Id>, e: PairDecision)
    requires ScopedContext(c, d, scope)
    requires e.left in part && e.right in part && e.left in local && e.right in local
    requires local[e.left] == part[e.left] && local[e.right] == part[e.right]
    requires part[e.left] <= scope && part[e.right] <= scope && e.left in scope && e.right in scope
    ensures Verdict(d, local, e) == Verdict(c, part, e)
  {
    var left, right := part[e.left], part[e.right];
    LocalSummaries(c.records, scope, left);
    LocalSummaries(c.records, scope, right);
    LocalCrossing(c, d, scope, left, right);
    LocalSingleton(c, d, scope, e, e.left, right);
    LocalSingleton(c, d, scope, e, e.right, left);
    LocalEstablished(c, d, scope, left, right);
  }

  lemma LocalPairKey(records: Records, scope: set<Id>, left: Id, right: Id)
    requires left in records && right in records && left in scope && right in scope
    ensures PairKeyOf(left, right, Within(records, scope)) == PairKeyOf(left, right, records)
  {
  }

  lemma LocalFact(c: Context, d: Context, part: Partition, local: Partition, scope: set<Id>, e: PairDecision)
    requires ScopedContext(c, d, scope)
    requires Known(c, part, e.left) && Known(c, part, e.right) && Known(d, local, e.left) && Known(d, local, e.right)
    requires local[e.left] == part[e.left] && local[e.right] == part[e.right]
    requires part[e.left] <= scope && part[e.right] <= scope && e.left in scope && e.right in scope
    ensures AutomaticFact(d, local, e) == AutomaticFact(c, part, e)
  {
    LocalVerdict(c, d, part, local, scope, e);
    LocalPairKey(c.records, scope, e.left, e.right);
    LocalSummaries(c.records, scope, part[e.left]);
    LocalSummaries(c.records, scope, part[e.right]);
  }

  // ---- merges inside and outside the scope ----

  lemma MergeInside(part: Partition, scope: set<Id>, l: Id, r: Id)
    requires Uncrossed(part, scope) && l in part && r in part && l in scope && r in scope
    ensures Uncrossed(Merge(part, l, r), scope)
    ensures Merge(Inside(part, scope), l, r) == Inside(Merge(part, l, r), scope)
  {
    MergePartition(part, l, r);
  }

  lemma MergeOutside(part: Partition, scope: set<Id>, l: Id, r: Id)
    requires Uncrossed(part, scope) && l in part && r in part && l !in scope && r !in scope
    ensures Uncrossed(Merge(part, l, r), scope)
    ensures Inside(Merge(part, l, r), scope) == Inside(part, scope)
  {
    MergePartition(part, l, r);
    var m := Merge(part, l, r);
    forall x | x in m && x in scope ensures m[x] == part[x] {
      InClass(part, x, l);
      InClass(part, x, r);
      assert l in part[l] && r in part[r];
    }
  }

  lemma FactEdge(c: Context, part: Partition, e: PairDecision, scope: set<Id>)
    requires Known(c, part, e.left) && Known(c, part, e.right)
    requires e.left in scope <==> e.right in scope
    ensures FactIn(scope)(AutomaticFact(c, part, e)) <==> e.left in scope
  {
    EndpointsUnordered(e.left, e.right, c.records);
  }

  // ---- the manual phase ----

  lemma ManualStepInside(c: Context, d: Context, s: Clustering, t: Clustering, e: ManualEdge, scope: set<Id>)
    requires ScopedContext(c, d, scope) && Scoped(s, t, scope)
    requires CanonicalIn(scope)(e) && ManualStep(c, s, e).Ok?
    ensures ManualStep(d, t, e).Ok? && Scoped(ManualStep(c, s, e).value, ManualStep(d, t, e).value, scope)
  {
    var l, r := e.pair.left, e.pair.right;
    FilterAppend(s.accepted, ManualFact(c, s.part, e), FactIn(scope));
    LocalCrossing(c, d, scope, s.part[l], s.part[r]);
    LocalSummaries(c.records, scope, s.part[l]);
    LocalSummaries(c.records, scope, s.part[r]);
    MergeInside(s.part, scope, l, r);
  }

  lemma ManualStepOutside(c: Context, s: Clustering, t: Clustering, e: ManualEdge, scope: set<Id>)
    requires Scoped(s, t, scope)
    requires e.pair.left !in scope && e.pair.right !in scope && ManualStep(c, s, e).Ok?
    ensures Scoped(ManualStep(c, s, e).value, t, scope)
  {
    FilterAppend(s.accepted, ManualFact(c, s.part, e), FactIn(scope));
    MergeOutside(s.part, scope, e.pair.left, e.pair.right);
  }

  lemma ManualPhaseLocal(c: Context, d: Context, s: Clustering, t: Clustering, edges: seq<ManualEdge>, scope: set<Id>)
    requires ScopedContext(c, d, scope) && Scoped(s, t, scope)
    requires ManualPhase(c, s, edges).Ok?
    requires forall e | e in edges :: e.pair.left in scope <==> e.pair.right in scope
    ensures ManualPhase(d, t, Filter(edges, CanonicalIn(scope))).Ok?
    ensures Scoped(ManualPhase(c, s, edges).value, ManualPhase(d, t, Filter(edges, CanonicalIn(scope))).value, scope)
  {
    var first, second := ManualStepper(c), ManualStepper(d);
    var good := (e: ManualEdge) => e.pair.left in scope <==> e.pair.right in scope;
    var keep := CanonicalIn(scope);
    var rel := (u: Clustering, v: Clustering) => Scoped(u, v, scope);
    forall u, v, e, i: nat, j: nat | rel(u, v) && good(e) && keep(e) && j <= i && first(u, e, i).Ok?
      ensures second(v, e, j).Ok? && rel(first(u, e, i).value, second(v, e, j).value)
    {
      ManualStepInside(c, d, u, v, e, scope);
    }
    forall u, v, e, i: nat | rel(u, v) && good(e) && !keep(e) && first(u, e, i).Ok?
      ensures rel(first(u, e, i).value, v)
    {
      ManualStepOutside(c, u, v, e, scope);
    }
    FoldSimulation(first, second, s, t, edges, 0, 0, good, keep, rel);
  }

  // ---- the automatic phase ----

  lemma EmitInside(s: Clustering, t: Clustering, f: Fact, part: Partition, scope: set<Id>)
    requires Scoped(s, t, scope) && Uncrossed(part, scope) && FactIn(scope)(f)
    ensures Scoped(Emit(s, f, part), Emit(t, f, Inside(part, scope)), scope)
  {
    FilterAppend(s.accepted, f, FactIn(scope));
    FilterAppend(s.rejected, f, FactIn(scope));
  }

  lemma EmitOutside(s: Clustering, t: Clustering, f: Fact, part: Partition, scope: set<Id>)
    requires Scoped(s, t, scope) && Uncrossed(part, scope) && !FactIn(scope)(f)
    requires Inside(part, scope) == t.part
    ensures Scoped(Emit(s, f, part), t, scope)
  {
    FilterAppend(s.accepted, f, FactIn(scope));
    FilterAppend(s.rejected, f, FactIn(scope));
  }

  lemma AutomaticStepInside(c: Context, d: Context, s: Clustering, t: Clustering, e: PairDecision, checks: nat,
      fewer: nat, scope: set<Id>)
    requires ScopedContext(c, d, scope) && Scoped(s, t, scope)
    requires PairIn(scope)(e) && fewer <= checks
    requires AutomaticStep(c, s, e, checks).Ok?
    ensures AutomaticStep(d, t, e, fewer).Ok?
    ensures Scoped(AutomaticStep(c, s, e, checks).value, AutomaticStep(d, t, e, fewer).value, scope)
  {
    var f := AutomaticFact(c, s.part, e);
    FactEdge(c, s.part, e, scope);
    LocalFact(c, d, s.part, t.part, scope, e);
    MergeInside(s.part, scope, e.left, e.right);
    EmitInside(s, t, f, s.part, scope);
    EmitInside(s, t, f, Merge(s.part, e.left, e.right), scope);
  }

  lemma AutomaticStepOutside(c: Context, s: Clustering, t: Clustering, e: PairDecision, checks: nat, scope: set<Id>)
    requires Scoped(s, t, scope)
    requires e.left !in scope && e.right !in scope
    requires AutomaticStep(c, s, e, checks).Ok?
    ensures Scoped(AutomaticStep(c, s, e, checks).value, t, scope)
  {
    var f := AutomaticFact(c, s.part, e);
    FactEdge(c, s.part, e, scope);
    MergeOutside(s.part, scope, e.left, e.right);
    EmitOutside(s, t, f, s.part, scope);
    EmitOutside(s, t, f, Merge(s.part, e.left, e.right), scope);
  }

  lemma AutomaticPhaseLocal(c: Context, d: Context, s: Clustering, t: Clustering, edges: seq<PairDecision>,
      scope: set<Id>)
    requires ScopedContext(c, d, scope) && Scoped(s, t, scope)
    requires forall e | e in edges :: e.left in scope <==> e.right in scope
    requires AutomaticPhase(c, s, edges).Ok?
    ensures AutomaticPhase(d, t, Filter(edges, PairIn(scope))).Ok?
    ensures Scoped(AutomaticPhase(c, s, edges).value, AutomaticPhase(d, t, Filter(edges, PairIn(scope))).value, scope)
  {
    var first, second := AutomaticStepper(c), AutomaticStepper(d);
    var good := (e: PairDecision) => e.left in scope <==> e.right in scope;
    var keep := PairIn(scope);
    var rel := (u: Clustering, v: Clustering) => Scoped(u, v, scope);
    forall u, v, e, i: nat, j: nat | rel(u, v) && good(e) && keep(e) && j <= i && first(u, e, i).Ok?
      ensures second(v, e, j).Ok? && rel(first(u, e, i).value, second(v, e, j).value)
    {
      AutomaticStepInside(c, d, u, v, e, i, j, scope);
    }
    forall u, v, e, i: nat | rel(u, v) && good(e) && !keep(e) && first(u, e, i).Ok?
      ensures rel(first(u, e, i).value, v)
    {
      AutomaticStepOutside(c, u, v, e, i, scope);
    }
    FoldSimulation(first, second, s, t, edges, 0, 0, good, keep, rel);
  }

  // ---- inputs and outputs ----

  lemma FilterUnique(records: seq<Record>, keep: Record -> bool)
    requires UniqueRecords(records)
    ensures UniqueRecords(Filter(records, keep))
  {
    if records != [] {
      var rest := Filter(records[1..], keep);
      FilterUnique(records[1..], keep);
      forall r | r in rest ensures r.id != records[0].id && r.key != records[0].key {
        var i :| 0 <= i < |records[1..]| && records[1..][i] == r;
        assert records[i + 1] == r;
      }
    }
  }

  lemma IndexLocal(records: seq<Record>, scope: set<Id>)
    requires UniqueRecords(records)
    ensures UniqueRecords(Filter(records, RecordIn(scope)))
    ensures Index(Filter(records, RecordIn(scope))) == Within(Index(records), scope)
  {
    FilterUnique(records, RecordIn(scope));
    UniqueRows(records);
  }

  lemma {:induction false} CanonicalLocal(edges: seq<DecisionEdge>, records: Records, kind: DecisionKind,
      scope: set<Id>)
    requires ValidEdges(edges, records, kind)
    ensures ValidEdges(Filter(edges, EdgeIn(scope)), Within(records, scope), kind)
    ensures Canonical(Filter(edges, EdgeIn(scope)), Within(records, scope), kind)
         == Filter(Canonical(edges, records, kind), CanonicalIn(scope))
  {
    if edges != [] {
      var e := edges[0];
      assert ValidEdge(e, records, kind);
      assert ValidEdges(edges[1..], records, kind) by {
        forall i | 0 <= i < |edges[1..]| ensures ValidEdge(edges[1..][i], records, kind) {
          assert ValidEdge(edges[i + 1], records, kind);
        }
      }
      CanonicalLocal(edges[1..], records, kind, scope);
      EndpointsUnordered(e.left, e.right, records);
      var head := ManualEdge(e.decision, PairKeyOf(e.left, e.right, records));
      FilterCons(head, Canonical(edges[1..], records, kind), CanonicalIn(scope));
      if e.left in scope && e.right in scope {
        LocalPairKey(records, scope, e.left, e.right);
        var rest := Filter(edges[1..], EdgeIn(scope));
        assert Filter(edges, EdgeIn(scope)) == [e] + rest;
        assert ([e] + rest)[1..] == rest;
      }
    }
  }

  lemma ManualEdgesLocal(edges: seq<DecisionEdge>, records: Records, kind: DecisionKind, scope: set<Id>)
    requires CanonicalManualEdges(edges, records, kind).Ok?
    ensures CanonicalManualEdges(Filter(edges, EdgeIn(scope)), Within(records, scope), kind)
         == Ok(Filter(CanonicalManualEdges(edges, records, kind).value, CanonicalIn(scope)))
  {
    CanonicalLocal(edges, records, kind, scope);
    SortFilter(Canonical(edges, records, kind), ManualRank, CanonicalIn(scope));
  }

  lemma CannotLinksLocal(cannot: seq<ManualEdge>, pairs: seq<PairDecision>, records: Records, scope: set<Id>)
    requires ProhibitedKnown(pairs, records)
    ensures ProhibitedKnown(Filter(pairs, PairIn(scope)), Within(records, scope))
    ensures CannotLinks(Filter(cannot, CanonicalIn(scope)), Filter(pairs, PairIn(scope)), Within(records, scope))
         == set p | p in CannotLinks(cannot, pairs, records) && p.0 in scope && p.1 in scope
  {
    var all := CannotLinks(cannot, pairs, records);
    var local := CannotLinks(Filter(cannot, CanonicalIn(scope)), Filter(pairs, PairIn(scope)), Within(records, scope));
    forall d | d in pairs && d.result.Prohibited? && d.left in scope && d.right in scope
      ensures Endpoints(d.left, d.right, Within(records, scope)) == Endpoints(d.left, d.right, records)
    {
    }
    forall p | p in local ensures p in all && p.0 in scope && p.1 in scope {
      if e :| e in Filter(cannot, CanonicalIn(scope)) && p == (e.pair.left, e.pair.right) {
      } else {
        var d :| d in Filter(pairs, PairIn(scope)) && d.result.Prohibited?
                 && p == Endpoints(d.left, d.right, Within(records, scope));
      }
    }
    forall p | p in all && p.0 in scope && p.1 in scope ensures p in local {
      if e :| e in cannot && p == (e.pair.left, e.pair.right) {
        assert e in Filter(cannot, CanonicalIn(scope));
      } else {
        var d :| d in pairs && d.result.Prohibited? && p == Endpoints(d.left, d.right, records);
        assert d in Filter(pairs, PairIn(scope));
      }
    }
  }

  lemma AutomaticLocal(input: Input, scope: set<Id>)
    ensures Automatic(Restrict(input, scope)) == Filter(Automatic(input), PairIn(scope))
  {
    FilterCommutes(input.pairs, PairIn(scope), IsAutomatic);
    SortFilter(Filter(input.pairs, IsAutomatic), AutomaticRank, PairIn(scope));
  }

  lemma PrepareLocal(input: Input, scope: set<Id>)
    requires Prepare(input).Ok?
    ensures Prepare(Restrict(input, scope)).Ok?
    ensures ScopedContext(Prepare(input).value.context, Prepare(Restrict(input, scope)).value.context, scope)
    ensures Prepare(Restrict(input, scope)).value.manual == Filter(Prepare(input).value.manual, CanonicalIn(scope))
  {
    var records := Index(input.records);
    IndexLocal(input.records, scope);
    ManualEdgesLocal(input.manual, records, Match, scope);
    ManualEdgesLocal(input.cannot, records, NotMatch, scope);
    CannotLinksLocal(CanonicalManualEdges(input.cannot, records, NotMatch).value, input.pairs, records, scope);
    var c, d := Prepare(input).value.context, Prepare(Restrict(input, scope)).value.context;
    assert d.decisions == (set x | x in c.decisions && x.left in scope && x.right in scope);
  }

  lemma StartScoped(c: Context, d: Context, scope: set<Id>)
    requires ScopedContext(c, d, scope)
    ensures Scoped(Start(c), Start(d), scope)
  {
    assert Singletons(d.records) == Inside(Singletons(c.records), scope);
  }

  lemma LinksLocal(c: Context, d: Context, s: Clustering, t: Clustering, scope: set<Id>)
    requires ScopedContext(c, d, scope) && Scoped(s, t, scope) && !LinkInside(s.part, c.cannot)
    ensures !LinkInside(t.part, d.cannot)
  {
  }

  // ---- memberships ----

  function IdIn(scope: set<Id>): Id -> bool { (id: Id) => id in scope }

  ghost predicate Increasing(ids: seq<Id>) {
    forall i, j | 0 <= i < j < |ids| :: ids[i] < ids[j]
  }

  lemma {:induction false} FilterAscending(ids: seq<Id>, keep: Id -> bool)
    requires Increasing(ids)
    ensures Increasing(Filter(ids, keep))
  {
    if ids != [] {
      var tail := ids[1..];
      FilterAscending(tail, keep);
      assert ids == [ids[0]] + tail;
      FilterCons(ids[0], tail, keep);
      HeadLess(ids);
      PrependIncreasing(ids[0], Filter(tail, keep));
    }
  }

  lemma HeadLess(ids: seq<Id>)
    requires ids != [] && Increasing(ids)
    ensures forall id | id in ids[1..] :: ids[0] < id
  {
  }

  lemma PrependIncreasing(id: Id, ids: seq<Id>)
    requires Increasing(ids) && forall other | other in ids :: id < other
    ensures Increasing([id] + ids)
  {
    var all := [id] + ids;
    forall i, j | 0 <= i < j < |all| ensures all[i] < all[j] {
      assert all[j] in ids;
    }
  }

  lemma {:induction false} MembershipsLocal(ids: seq<Id>, s: Clustering, t: Clustering, records: Records,
      scope: set<Id>)
    requires Scoped(s, t, scope) && s.part.Keys == records.Keys
    requires forall id | id in ids :: id in records
    ensures forall id | id in Filter(ids, IdIn(scope)) :: id in t.part && id in Within(records, scope)
    ensures Memberships(Filter(ids, IdIn(scope)), t.part, Within(records, scope))
         == Filter(Memberships(ids, s.part, records), RowIn(scope))
  {
    if ids != [] {
      var rest := Memberships(ids[1..], s.part, records);
      MembershipsLocal(ids[1..], s, t, records, scope);
      FilterCons(MembershipOf(ids[0], s.part, records), rest, RowIn(scope));
      if ids[0] in scope {
        LocalSummaries(records, scope, s.part[ids[0]]);
        var f := Filter(ids[1..], IdIn(scope));
        assert ([ids[0]] + f)[1..] == f;
      }
    }
  }

  lemma AscendingLocal(records: Records, scope: set<Id>)
    ensures Filter(Ascending(records.Keys), IdIn(scope)) == Ascending(Within(records, scope).Keys)
  {
    AscendingEnumerates(records.Keys);
    AscendingEnumerates(Within(records, scope).Keys);
    var local := Filter(Ascending(records.Keys), IdIn(scope));
    var keys := Within(records, scope).Keys;
    FilterAscending(Ascending(records.Keys), IdIn(scope));
    forall id ensures id in local <==> id in keys {}
    assert Enumerates(local, keys);
    EnumerationUnique(local, Ascending(keys), keys);
  }

  lemma FinishLocal(s: Clustering, t: Clustering, records: Records, scope: set<Id>)
    requires Scoped(s, t, scope) && s.part.Keys == records.Keys
    ensures t.part.Keys == Within(records, scope).Keys
    ensures Finish(t, Within(records, scope)) == RestrictResult(Finish(s, records), scope)
  {
    var ids := Ascending(records.Keys);
    AscendingEnumerates(records.Keys);
    AscendingLocal(records, scope);
    MembershipsLocal(ids, s, t, records, scope);
    SortFilter(Memberships(ids, s.part, records), MembershipRank, RowIn(scope));
  }

  // ---- the theorem ----

  lemma ClosedCanonical(input: Input, records: Records, scope: set<Id>)
    requires CanonicalManualEdges(input.manual, records, Match).Ok? && Closed(input.manual, input.pairs, scope)
    ensures forall e | e in CanonicalManualEdges(input.manual, records, Match).value ::
      e.pair.left in scope <==> e.pair.right in scope
  {
    var canonical := Canonical(input.manual, records, Match);
    SortElements(canonical, ManualRank);
    forall e | e in canonical ensures e.pair.left in scope <==> e.pair.right in scope {
      var i :| 0 <= i < |canonical| && canonical[i] == e;
      assert ValidEdge(input.manual[i], records, Match);
      assert input.manual[i] in input.manual;
      EndpointsUnordered(input.manual[i].left, input.manual[i].right, records);
    }
  }

  lemma FilterShorter<T>(s: seq<T>, keep: T -> bool)
    ensures |Filter(s, keep)| <= |s|
  {
  }

  /** The phases of the restricted run are the restriction of the phases of the full run. */
  lemma RunLocal(input: Input, run: Run, scope: set<Id>) returns (local: Run)
    requires Completed(input, run) && Closed(input.manual, input.pairs, scope)
    ensures ScopedContext(run.c, local.c, scope)
    ensures Prepare(Restrict(input, scope)) == Ok(Prepared(local.c, local.manual))
    ensures Phased(local, Automatic(Restrict(input, scope)))
    ensures Scoped(run.final, local.final, scope)
  {
    PrepareLocal(input, scope);
    var p := Prepare(Restrict(input, scope)).value;
    ContextLinks(input, run);
    ClosedCanonical(input, run.c.records, scope);
    StartScoped(run.c, p.context, scope);
    ManualPhaseLocal(run.c, p.context, Start(run.c), Start(p.context), run.manual, scope);
    var base := ManualPhase(p.context, Start(p.context), p.manual).value;
    LinksLocal(run.c, p.context, run.base, base, scope);
    AutomaticLocal(input, scope);
    AutomaticElements(input);
    AutomaticPhaseLocal(run.c, p.context, run.base, base, Automatic(input), scope);
    ManualKeys(p.context, Start(p.context), p.manual);
    AutomaticKeys(p.context, base, Automatic(Restrict(input, scope)));
    local := Run(p.context, p.manual, base, AutomaticPhase(p.context, base, Automatic(Restrict(input, scope))).value);
  }

  lemma RunResolves(input: Input, run: Run)
    requires Prepare(input) == Ok(Prepared(run.c, run.manual)) && Phased(run, Automatic(input))
    requires |Automatic(input)| <= input.limits.maxAutomaticEdges && input.limits == run.c.limits
    requires DecisionsKnown(input.pairs, run.c.records)
    ensures Resolve(input) == Ok(Finish(run.final, run.c.records))
  {
  }

  lemma ResolveLimits(input: Input)
    requires Resolve(input).Ok?
    ensures |Automatic(input)| <= input.limits.maxAutomaticEdges
    ensures Prepare(input).Ok? && DecisionsKnown(input.pairs, Prepare(input).value.context.records)
  {
  }

  /** Locality. If the whole input resolves, so does its part inside any closed scope, and the rows
      and facts of that part are exactly the subsequences of the whole result, even when
      cannot-links leave the scope. */
  lemma ResolveIsLocal(input: Input, scope: set<Id>)
    requires Resolve(input).Ok? && Closed(input.manual, input.pairs, scope)
    ensures Resolve(Restrict(input, scope)) == Ok(RestrictResult(Resolve(input).value, scope))
  {
    var run := ResolveRun(input);
    var local := RunLocal(input, run, scope);
    ResolveLimits(input);
    AutomaticLocal(input, scope);
    FilterShorter(Automatic(input), PairIn(scope));
    RunResolves(Restrict(input, scope), local);
    FinishLocal(run.final, local.final, run.c.records, scope);
  }

  function Ids(records: seq<Record>): set<Id> {
    set r | r in records :: r.id
  }

  lemma PreparedEndpoints(input: Input)
    requires Prepare(input).Ok?
    ensures forall e | e in input.manual :: e.left in Ids(input.records) && e.right in Ids(input.records)
    ensures Prepare(input).value.context.records.Keys == Ids(input.records)
  {
    var records := Index(input.records);
    forall e | e in input.manual ensures e.left in Ids(input.records) && e.right in Ids(input.records) {
      var i :| 0 <= i < |input.manual| && input.manual[i] == e;
      assert ValidEdge(input.manual[i], records, Match);
    }
  }

  lemma ClosedOutside(input: Input, scope: set<Id>)
    requires Resolve(input).Ok? && Closed(input.manual, input.pairs, scope)
    ensures Closed(input.manual, input.pairs, Ids(input.records) - scope)
  {
    ResolveLimits(input);
    PreparedEndpoints(input);
  }

  /** The same holds of everything outside the scope. */
  lemma ResolveIsLocalOutside(input: Input, scope: set<Id>)
    requires Resolve(input).Ok? && Closed(input.manual, input.pairs, scope)
    ensures var rest := Ids(input.records) - scope;
      Resolve(Restrict(input, rest)) == Ok(RestrictResult(Resolve(input).value, rest))
  {
    ClosedOutside(input, scope);
    ResolveIsLocal(input, Ids(input.records) - scope);
  }
}
