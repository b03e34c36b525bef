/** The headline guarantee: republishing the affected records gives the ledger that publishing
    everything would have given. */
module Incremental {
  import opened Prelude
  import opened Types
  import opened Connectivity
  import opened Folding
  import opened ResolverSpec
  import opened ResolverSafety
  import opened ResolverTheorems
  import opened ResolverLocality
  import opened IdentitySpec
  import opened IdentityLedger
  import opened IdentityIncremental
  import Affected

  // ---- the resolver's rows as a table ----

  predicate OneRowPerRecord(rows: seq<Membership>) {
    forall m, n | m in rows && n in rows && m.id == n.id :: m == n
  }

  function RowTable(rows: seq<Membership>): Resolved
    requires OneRowPerRecord(rows)
  {
    map m | m in rows :: m.id := m
  }

  lemma ResolvedRows(input: Input)
    requires Resolve(input).Ok?
    ensures OneRowPerRecord(Resolve(input).value.memberships)
    ensures forall m | m in Resolve(input).value.memberships :: m.id in Ids(input.records)
  {
    MembershipsExact(input);
    DistinctRows(input.records, Resolve(input).value.memberships);
    RowsKnown(input);
  }

  lemma DistinctRows(records: seq<Record>, rows: seq<Membership>)
    requires OneRowEach(records, rows)
    ensures OneRowPerRecord(rows)
  {
    forall m, n | m in rows && n in rows && m.id == n.id ensures m == n {
      var i :| 0 <= i < |rows| && rows[i] == m;
      var j :| 0 <= j < |rows| && rows[j] == n;
    }
  }

  lemma RowsKnown(input: Input)
    requires Resolve(input).Ok?
    ensures forall m | m in Resolve(input).value.memberships :: m.id in Ids(input.records)
  {
    var run := ResolveRun(input);
    FinishedMemberships(run.final, run.c.records);
    ResolveLimits(input);
    PreparedEndpoints(input);
  }

  lemma ScopedTable(rows: seq<Membership>, scope: set<Id>)
    requires OneRowPerRecord(rows)
    ensures OneRowPerRecord(Filter(rows, RowIn(scope)))
    ensures RowTable(Filter(rows, RowIn(scope))) == ScopeRows(RowTable(rows), scope)
  {
  }

  /** The table of a successful resolution. */
  ghost function TableOf(input: Input): Resolved
    requires Resolve(input).Ok?
  {
    ResolvedRows(input);
    RowTable(Resolve(input).value.memberships)
  }

  lemma TableRow(input: Input, id: Id)
    requires Resolve(input).Ok? && id in TableOf(input)
    ensures TableOf(input)[id] in Resolve(input).value.memberships && TableOf(input)[id].id == id
  {
    ResolvedRows(input);
  }

  // ---- what a change leaves alone ----

  function EdgeTouches(scope: set<Id>): DecisionEdge -> bool {
    (e: DecisionEdge) => e.left !in scope || e.right !in scope
  }
  function PairTouches(scope: set<Id>): PairDecision -> bool {
    (d: PairDecision) => d.left !in scope || d.right !in scope
  }
  function RecordTouches(scope: set<Id>): Record -> bool { (r: Record) => r.id !in scope }

  /** The two inputs differ only in records of `scope` and in edges with both ends there. */
  ghost predicate UnchangedOutside(before: Input, after: Input, scope: set<Id>) {
    && Filter(before.records, RecordTouches(scope)) == Filter(after.records, RecordTouches(scope))
    && Filter(before.manual, EdgeTouches(scope)) == Filter(after.manual, EdgeTouches(scope))
    && Filter(before.cannot, EdgeTouches(scope)) == Filter(after.cannot, EdgeTouches(scope))
    && Filter(before.pairs, PairTouches(scope)) == Filter(after.pairs, PairTouches(scope))
    && before.limits == after.limits
  }

  lemma FilterBoth<T>(s: seq<T>, t: seq<T>, f: T -> bool, g: T -> bool)
    requires Filter(s, f) == Filter(t, f)
    requires forall x | (x in s || x in t) && g(x) :: f(x)
    ensures Filter(s, g) == Filter(t, g)
  {
    FilterNested(s, f, g);
    FilterNested(t, f, g);
  }

  /** Changes that stay inside the seeds stay inside every larger scope. */
  lemma UnchangedOutsideMono(before: Input, after: Input, seeds: set<Id>, scope: set<Id>)
    requires UnchangedOutside(before, after, seeds) && seeds <= scope
    ensures UnchangedOutside(before, after, scope)
  {
    FilterBoth(before.records, after.records, RecordTouches(seeds), RecordTouches(scope));
    FilterBoth(before.manual, after.manual, EdgeTouches(seeds), EdgeTouches(scope));
    FilterBoth(before.cannot, after.cannot, EdgeTouches(seeds), EdgeTouches(scope));
    FilterBoth(before.pairs, after.pairs, PairTouches(seeds), PairTouches(scope));
  }

  lemma RestIds(before: Input, after: Input, scope: set<Id>)
    requires UnchangedOutside(before, after, scope)
    ensures Ids(before.records) - scope == Ids(after.records) - scope
  {
    var f := RecordTouches(scope);
    forall id ensures id in Ids(before.records) - scope <==> id in Ids(after.records) - scope {
      if id in Ids(before.records) - scope {
        var r :| r in before.records && r.id == id;
        assert r in Filter(before.records, f);
        assert r in Filter(after.records, f);
      }
      if id in Ids(after.records) - scope {
        var r :| r in after.records && r.id == id;
        assert r in Filter(after.records, f);
        assert r in Filter(before.records, f);
      }
    }
  }

  /** Outside the scope both inputs are the same input. */
  lemma RestUnchanged(before: Input, after: Input, scope: set<Id>)
    requires UnchangedOutside(before, after, scope)
    ensures var rest := Ids(after.records) - scope; Restrict(before, rest) == Restrict(after, rest)
  {
    var rest := Ids(after.records) - scope;
    FilterBoth(before.records, after.records, RecordTouches(scope), RecordIn(rest));
    FilterBoth(before.manual, after.manual, EdgeTouches(scope), EdgeIn(rest));
    FilterBoth(before.cannot, after.cannot, EdgeTouches(scope), EdgeIn(rest));
    FilterBoth(before.pairs, after.pairs, PairTouches(scope), PairIn(rest));
  }

  /** The scope was closed before the change too. */
  lemma ClosedBefore(before: Input, after: Input, scope: set<Id>)
    requires UnchangedOutside(before, after, scope) && Closed(after.manual, after.pairs, scope)
    ensures Closed(before.manual, before.pairs, scope)
  {
    forall e | e in before.manual ensures e.left in scope <==> e.right in scope {
      if EdgeTouches(scope)(e) {
        assert e in Filter(before.manual, EdgeTouches(scope));
        assert e in Filter(after.manual, EdgeTouches(scope));
      }
    }
    forall d | d in before.pairs && d.result.IsAutomaticEdge() ensures d.left in scope <==> d.right in scope {
      if PairTouches(scope)(d) {
        assert d in Filter(before.pairs, PairTouches(scope));
        assert d in Filter(after.pairs, PairTouches(scope));
      }
    }
  }

  /** Outside the scope the resolver's rows and facts are those it published before. */
  lemma OutsideUnchanged(before: Input, after: Input, scope: set<Id>)
    requires Resolve(before).Ok? && Resolve(after).Ok?
    requires UnchangedOutside(before, after, scope) && Closed(after.manual, after.pairs, scope)
    ensures var rest := Ids(after.records) - scope;
      RestrictResult(Resolve(before).value, rest) == RestrictResult(Resolve(after).value, rest)
  {
    RestIds(before, after, scope);
    RestUnchanged(before, after, scope);
    ClosedBefore(before, after, scope);
    ResolveIsLocalOutside(before, scope);
    ResolveIsLocalOutside(after, scope);
  }

  // ---- the boundary as the ledger sees it ----

  lemma RowsApart(input: Input, scope: set<Id>)
    requires Resolve(input).Ok? && Closed(input.manual, input.pairs, scope)
    requires OneRowPerRecord(Resolve(input).value.memberships)
    ensures ComponentsApart(RowTable(Resolve(input).value.memberships), scope)
  {
    var rows := Resolve(input).value.memberships;
    forall m, n | m in rows && n in rows && m.component == n.component ensures m.id in scope <==> n.id in scope {
      RowsOneSide(input, scope, m, n);
    }
  }

  lemma RowsOneSide(input: Input, scope: set<Id>, m: Membership, n: Membership)
    requires Resolve(input).Ok? && Closed(input.manual, input.pairs, scope)
    requires m in Resolve(input).value.memberships && n in Resolve(input).value.memberships
      && m.component == n.component
    ensures m.id in scope <==> n.id in scope
  {
    ResolvedRows(input);
    var x :| x in input.records && x.id == m.id;
    var y :| y in input.records && y.id == n.id;
    PartitionSandwich(input, x, y);
    assert Together(Resolve(input).value, x.id, y.id);
    ClosedSides(input, scope, x.id, y.id);
  }

  lemma ClosedSides(input: Input, scope: set<Id>, a: Id, b: Id)
    requires Closed(input.manual, input.pairs, scope) && Connected(MatchEdges(input) + AutomaticEdges(input), a, b)
    ensures a in scope <==> b in scope
  {
    var side := (id: Id) => id in scope;
    ConnectedInvariant(MatchEdges(input) + AutomaticEdges(input), a, b, side);
    assert side(a) == side(b);
  }

  lemma RowsOutside(before: Input, after: Input, scope: set<Id>, m: Membership)
    requires Resolve(before).Ok? && Resolve(after).Ok?
    requires UnchangedOutside(before, after, scope) && Closed(after.manual, after.pairs, scope)
    requires m.id !in scope
    ensures m in Resolve(before).value.memberships <==> m in Resolve(after).value.memberships
  {
    var rest := Ids(after.records) - scope;
    OutsideUnchanged(before, after, scope);
    RestIds(before, after, scope);
    ResolvedRows(before);
    ResolvedRows(after);
    var past, now := Resolve(before).value.memberships, Resolve(after).value.memberships;
    assert Filter(past, RowIn(rest)) == Filter(now, RowIn(rest));
    if m in past { assert m in Filter(past, RowIn(rest)); }
    if m in now { assert m in Filter(now, RowIn(rest)); }
  }

  lemma SameTableOutside(before: Input, after: Input, scope: set<Id>, r: Id)
    requires Resolve(before).Ok? && Resolve(after).Ok?
    requires UnchangedOutside(before, after, scope) && Closed(after.manual, after.pairs, scope)
    requires r !in scope
    ensures r in TableOf(before) <==> r in TableOf(after)
    ensures r in TableOf(before) ==> TableOf(before)[r] == TableOf(after)[r]
  {
    ResolvedRows(before);
    ResolvedRows(after);
    if r in TableOf(before) {
      TableRow(before, r);
      RowsOutside(before, after, scope, TableOf(before)[r]);
    }
    if r in TableOf(after) {
      TableRow(after, r);
      RowsOutside(before, after, scope, TableOf(after)[r]);
    }
  }

  /** Outside the scope the ledger already realises the new resolution. */
  lemma LedgerSettled(before: Input, after: Input, b: Books, scope: set<Id>)
    requires Resolve(before).Ok? && Resolve(after).Ok?
    requires UnchangedOutside(before, after, scope) && Closed(after.manual, after.pairs, scope)
    requires Realises(b, TableOf(before))
    ensures SettledOutside(b, TableOf(after), scope)
  {
    var past, now := TableOf(before), TableOf(after);
    forall r | r !in scope ensures r in past <==> r in now
                           ensures r in past ==> past[r] == now[r]
    {
      SameTableOutside(before, after, scope, r);
    }
    SettledFrom(past, now, b, scope);
  }

  lemma SettledFrom(past: Resolved, now: Resolved, b: Books, scope: set<Id>)
    requires Realises(b, past)
    requires forall r | r !in scope :: (r in past <==> r in now) && (r in past ==> past[r] == now[r])
    ensures SettledOutside(b, now, scope)
  {
  }

  lemma ScopedRows(after: Input, scope: set<Id>)
    requires Resolve(after).Ok? && Closed(after.manual, after.pairs, scope)
    ensures Resolve(Restrict(after, scope)).Ok?
    ensures Resolve(Restrict(after, scope)).value == RestrictResult(Resolve(after).value, scope)
    ensures TableOf(Restrict(after, scope)) == ScopeRows(TableOf(after), scope)
  {
    ResolveIsLocal(after, scope);
    ResolvedRows(after);
    ScopedTable(Resolve(after).value.memberships, scope);
  }

  /** Everything an incremental publication relies on: a sound ledger that realises the previous
      resolution, and a closed scope holding every change. */
  ghost predicate Republishable(before: Input, after: Input, b: Books, now: Revision, scope: set<Id>) {
    && Sound(b, now)
    && Resolve(before).Ok? && Realises(b, TableOf(before))
    && Resolve(after).Ok?
    && UnchangedOutside(before, after, scope)
    && Closed(after.manual, after.pairs, scope) && IdentityClosed(b, scope)
  }

  /** Incremental equals full. Resolving only the scope and splicing the republished part into the
      old ledger gives exactly the ledger of a full publication, drawing the same ids. */
  lemma IncrementalEqualsFull(before: Input, after: Input, b: Books, now: Revision, scope: set<Id>, v: Revision,
      supply: Supply)
    requires Republishable(before, after, b, now, scope)
    requires Publishable(b, now, Publication(TableOf(after), v, supply))
    ensures Resolve(Restrict(after, scope)).Ok?
    ensures Step(b, Publication(TableOf(after), v, supply))
         == Splice(b, scope, Step(ScopeBooks(b, scope), Publication(TableOf(Restrict(after, scope)), v, supply)))
  {
    ResolvedRows(after);
    RowsApart(after, scope);
    LedgerSettled(before, after, b, scope);
    ScopedRows(after, scope);
    ScopedPublication(b, now, Publication(TableOf(after), v, supply), scope);
  }

  // ---- facts ----

  /** The fact's edge joins known records on the same side of the boundary. */
  predicate Sided(f: Fact, known: set<Id>, scope: set<Id>) {
    f.edge.left in known && f.edge.right in known && (f.edge.left in scope <==> f.edge.right in scope)
  }

  ghost predicate AllSided(s: Clustering, known: set<Id>, scope: set<Id>) {
    (forall f | f in s.accepted :: Sided(f, known, scope)) && (forall f | f in s.rejected :: Sided(f, known, scope))
  }

  lemma ManualFactsSided(c: Context, edges: seq<ManualEdge>, scope: set<Id>)
    requires ManualPhase(c, Start(c), edges).Ok?
    requires forall e | e in edges ::
      e.pair.left in c.records && e.pair.right in c.records && (e.pair.left in scope <==> e.pair.right in scope)
    ensures AllSided(ManualPhase(c, Start(c), edges).value, c.records.Keys, scope)
  {
    var good := (e: ManualEdge) => e.pair.left in c.records && e.pair.right in c.records
      && (e.pair.left in scope <==> e.pair.right in scope);
    var inv := (s: Clustering) => AllSided(s, c.records.Keys, scope);
    forall s, e, k: nat | inv(s) && good(e) && ManualStepper(c)(s, e, k).Ok?
      ensures inv(ManualStepper(c)(s, e, k).value) {
      ManualStepSided(c, s, e, scope);
    }
    FoldInvariant(ManualStepper(c), Start(c), edges, 0, good, inv);
  }

  lemma ManualStepSided(c: Context, s: Clustering, e: ManualEdge, scope: set<Id>)
    requires AllSided(s, c.records.Keys, scope) && ManualStep(c, s, e).Ok?
    requires e.pair.left in c.records && e.pair.right in c.records && (e.pair.left in scope <==> e.pair.right in scope)
    ensures AllSided(ManualStep(c, s, e).value, c.records.Keys, scope)
  {
  }

  lemma AutomaticStepSided(c: Context, s: Clustering, d: PairDecision, k: nat, scope: set<Id>)
    requires AllSided(s, c.records.Keys, scope) && AutomaticStep(c, s, d, k).Ok?
    requires d.left in scope <==> d.right in scope
    ensures AllSided(AutomaticStep(c, s, d, k).value, c.records.Keys, scope)
  {
    EndpointsUnordered(d.left, d.right, c.records);
    var f := AutomaticFact(c, s.part, d);
    assert Sided(f, c.records.Keys, scope);
  }

  lemma AutomaticFactsSided(c: Context, s: Clustering, edges: seq<PairDecision>, scope: set<Id>)
    requires AutomaticPhase(c, s, edges).Ok? && AllSided(s, c.records.Keys, scope)
    requires forall d | d in edges :: d.left in scope <==> d.right in scope
    ensures AllSided(AutomaticPhase(c, s, edges).value, c.records.Keys, scope)
  {
    var good := (d: PairDecision) => d.left in scope <==> d.right in scope;
    var inv := (t: Clustering) => AllSided(t, c.records.Keys, scope);
    forall t, d, k: nat | inv(t) && good(d) && AutomaticStepper(c)(t, d, k).Ok?
      ensures inv(AutomaticStepper(c)(t, d, k).value) {
      AutomaticStepSided(c, t, d, k, scope);
    }
    FoldInvariant(AutomaticStepper(c), s, edges, 0, good, inv);
  }

  lemma RunSided(input: Input, run: Run, scope: set<Id>)
    requires Completed(input, run) && Closed(input.manual, input.pairs, scope)
    ensures AllSided(run.final, run.c.records.Keys, scope)
  {
    ContextLinks(input, run);
    ClosedCanonical(input, run.c.records, scope);
    CanonicalKnown(input.manual, run.c.records, Match);
    ManualFactsSided(run.c, run.manual, scope);
    AutomaticElements(input);
    AutomaticFactsSided(run.c, run.base, Automatic(input), scope);
  }

  lemma FactsSided(input: Input, scope: set<Id>)
    requires Resolve(input).Ok? && Closed(input.manual, input.pairs, scope)
    ensures forall f | f in Resolve(input).value.accepted :: Sided(f, Ids(input.records), scope)
    ensures forall f | f in Resolve(input).value.rejected :: Sided(f, Ids(input.records), scope)
  {
    var run := ResolveRun(input);
    RunSided(input, run, scope);
    ResolveLimits(input);
    PreparedEndpoints(input);
  }

  /** The resolver's facts splice the same way: inside the scope the scoped run's, outside it the
      previous publication's, and none across. */
  lemma FactsSplice(before: Input, after: Input, scope: set<Id>)
    requires Resolve(before).Ok? && Resolve(after).Ok?
    requires UnchangedOutside(before, after, scope) && Closed(after.manual, after.pairs, scope)
    ensures Resolve(Restrict(after, scope)) == Ok(RestrictResult(Resolve(after).value, scope))
    ensures var rest := Ids(after.records) - scope;
      RestrictResult(Resolve(after).value, rest) == RestrictResult(Resolve(before).value, rest)
    ensures forall f | f in Resolve(after).value.accepted || f in Resolve(after).value.rejected ::
      FactIn(scope)(f) || FactIn(Ids(after.records) - scope)(f)
  {
    ResolveIsLocal(after, scope);
    OutsideUnchanged(before, after, scope);
    FactsSided(after, scope);
  }

  // ---- the affected set is such a scope ----

  lemma ManualAreMatches(input: Input)
    requires Resolve(input).Ok?
    ensures forall e | e in input.manual :: e.kind.Match?
  {
    ResolveLimits(input);
    ValidAreMatches(input.manual, Index(input.records));
  }

  lemma ValidAreMatches(edges: seq<DecisionEdge>, records: Records)
    requires ValidEdges(edges, records, Match)
    ensures forall e | e in edges :: e.kind.Match?
  {
    forall e | e in edges ensures e.kind.Match? {
      var i :| 0 <= i < |edges| && edges[i] == e;
      assert ValidEdge(edges[i], records, Match);
    }
  }

  lemma MembersClose(b: Books, members: seq<Member>, scope: set<Id>)
    requires forall r | r in b.members :: b.members[r] in members && b.members[r].record == r
    requires Affected.MembersTogether(scope, members)
    ensures IdentityClosed(b, scope)
  {
    forall r, s | r in b.members && s in b.members && b.members[r].identity == b.members[s].identity
      ensures r in scope <==> s in scope
    {
      var m, n := b.members[r], b.members[s];
      assert m in members && n in members && m.identity == n.identity;
      assert m.record in scope <==> n.record in scope;
    }
  }

  lemma AffectedCloses(input: Input, b: Books, members: seq<Member>, scope: set<Id>)
    requires Resolve(input).Ok? && (forall r | r in b.members :: b.members[r] in members && b.members[r].record == r)
    requires Affected.ClosedScope(scope, members, input.manual, input.pairs)
    ensures Closed(input.manual, input.pairs, scope) && IdentityClosed(b, scope)
  {
    ManualAreMatches(input);
    MembersClose(b, members, scope);
  }

  /** The same with the scope that the affected-set closure builds around the changes. */
  lemma AffectedRepublication(before: Input, after: Input, b: Books, now: Revision, members: seq<Member>,
                              seeds: set<Id>, scope: set<Id>, v: Revision, supply: Supply)
    requires Sound(b, now) && (forall r | r in b.members :: b.members[r] in members)
    requires Resolve(before).Ok? && Realises(b, TableOf(before)) && Resolve(after).Ok?
    requires UnchangedOutside(before, after, seeds)
    requires seeds <= scope && Affected.ClosedScope(scope, members, after.manual, after.pairs)
    requires Publishable(b, now, Publication(TableOf(after), v, supply))
    ensures Resolve(Restrict(after, scope)).Ok?
    ensures Step(b, Publication(TableOf(after), v, supply))
         == Splice(b, scope, Step(ScopeBooks(b, scope), Publication(TableOf(Restrict(after, scope)), v, supply)))
  {
    AffectedCloses(after, b, members, scope);
    UnchangedOutsideMono(before, after, seeds, scope);
    IncrementalEqualsFull(before, after, b, now, scope, v, supply);
  }
}
