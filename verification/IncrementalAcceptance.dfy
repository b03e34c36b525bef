/** Republishing the affected part of a ledger is never refused. */
module IncrementalAcceptance {
  import opened Prelude
  import opened Types
  import opened ResolverSpec
  import opened ResolverLocality
  import opened IdentitySpec
  import opened IdentityLedger
  import opened IdentityAliases
  import opened IdentityIncremental
  import opened Identities
  import opened Incremental

  // ---- part of a valid set of aliases ----

  lemma {:induction false} ChaseWithin(small: map<Id, Id>, big: map<Id, Id>, x: Id, visited: set<Id>)
    requires forall k | k in small :: k in big && big[k] == small[k]
    requires Chase(big, x, visited).Ok?
    ensures Chase(small, x, visited).Ok?
    decreases big.Keys - visited
  {
    if x in small {
      ChaseWithin(small, big, small[x], visited + {x});
    }
  }

  lemma FewerAliases(few: set<Alias>, all: set<Alias>, registry: map<Id, IdentityRecord>,
      local: map<Id, IdentityRecord>)
    requires few <= all && ValidAliases(all, registry)
    requires forall a | a in few :: a.source in local && a.target in local
    ensures ValidAliases(few, local)
  {
    forall a | a in few ensures Chase(TargetsOf(few), a.source, {}).Ok? {
      assert a in all;
      ChaseWithin(TargetsOf(few), TargetsOf(all), a.source, {});
    }
  }

  // ---- the scoped publication ----

  /** The lists hold the rows of the scope, without history. */
  ghost predicate ListsScope(l: Ledger, b: Books, scope: set<Id>) {
    && DistinctBy(l.registry, ById()) && TableBy(l.registry, ById()) == ScopeBooks(b, scope).registry
    && DistinctBy(l.members, ByRecord()) && TableBy(l.members, ByRecord()) == ScopeBooks(b, scope).members
    && l.aliases == [] && l.splits == []
  }

  lemma ScopeLoads(b: Books, now: Revision, scope: set<Id>, l: Ledger)
    requires Sound(b, now) && IdentityClosed(b, scope) && ListsScope(l, b, scope)
    ensures Loadable(l) && BooksOf(l) == ScopeBooks(b, scope)
  {
    var c := ScopeBooks(b, scope);
    LocalSound(b, now, scope);
    OneForKey(l.members, ByRecord());
    forall k: nat | k < |l.members| ensures MemberValid(l.members[k], c.registry) {
      var m := l.members[k];
      assert m in l.members && ByRecord()(m) in c.members && c.members[m.record] == m;
      assert RowSound(c.registry[m.identity], now, HasActiveMember(c, m.identity));
      if m.active { assert HasActiveMember(c, m.identity); }
    }
  }

  /** The aliases a scoped publication adds are between identities of its own registry. */
  lemma ScopeAliasesKnown(b: Books, now: Revision, p: Publication, scope: set<Id>, a: Alias)
    requires Sound(b, now) && IdentityClosed(b, scope)
    requires a in Step(ScopeBooks(b, scope), p).aliases
    ensures a.source in Step(ScopeBooks(b, scope), p).registry && a.target in Step(ScopeBooks(b, scope), p).registry
  {
    LocalSound(b, now, scope);
    var c := ScopeBooks(b, scope);
    var r :| r in c.members && c.members[r].identity == a.source;
    assert c.members[r].identity in c.registry;
  }

  /** Whenever a full publication is possible, reconciling the scope alone passes every check. */
  lemma ScopedAccepted(b: Books, now: Revision, p: Publication, scope: set<Id>, l: Ledger, resolved: seq<Membership>)
    requires Sound(b, now) && Publishable(b, now, p) && Separated(b, p.rows, scope) && ListsScope(l, b, scope)
    requires DistinctBy(resolved, ByRow()) && TableBy(resolved, ByRow()) == ScopeRows(p.rows, scope)
    ensures Acceptable(l, resolved, p.revision, p.supply)
  {
    var local := p.(rows := ScopeRows(p.rows, scope));
    var full, part := Step(b, p), Step(ScopeBooks(b, scope), local);
    ScopeLoads(b, now, scope, l);
    ScopedPublication(b, now, p, scope);
    NextSound(b, now, p);
    SoundAliasesValid(full, p.revision);
    assert part.aliases <= full.aliases;
    forall a | a in part.aliases ensures a.source in part.registry && a.target in part.registry {
      ScopeAliasesKnown(b, now, local, scope, a);
    }
    FewerAliases(part.aliases, full.aliases, full.registry, part.registry);
  }

  /** So the incremental evaluation of a settled ledger is never refused where the full one is not. */
  lemma RepublicationAccepted(
    before: Input, after: Input, b: Books, now: Revision, scope: set<Id>, v: Revision, supply: Supply,
    l: Ledger, resolved: seq<Membership>)
    requires Republishable(before, after, b, now, scope)
    requires Publishable(b, now, Publication(TableOf(after), v, supply)) && ListsScope(l, b, scope)
    requires DistinctBy(resolved, ByRow()) && TableBy(resolved, ByRow()) == ScopeRows(TableOf(after), scope)
    ensures Resolve(Restrict(after, scope)).Ok?
    ensures TableBy(resolved, ByRow()) == TableOf(Restrict(after, scope))
    ensures Acceptable(l, resolved, v, supply)
  {
    ResolvedRows(after);
    RowsApart(after, scope);
    LedgerSettled(before, after, b, scope);
    ScopedRows(after, scope);
    ScopedAccepted(b, now, Publication(TableOf(after), v, supply), scope, l, resolved);
  }
}
