/** Republishing only the part of the ledger that a change can reach. */
module IdentityIncremental {
  import opened Prelude
  import opened Types
  import opened IdentitySpec
  import opened IdentityLedger

  /** The identities of the selected records, their inactive memberships included. */
  function SelectedIds(b: Books, scope: set<Id>): set<Id> {
    set r | r in b.members && r in scope :: b.members[r].identity
  }

  /** The books an incremental publication starts from; the history stays behind. */
  function ScopeBooks(b: Books, scope: set<Id>): Books {
    Books(map x | x in b.registry && x in SelectedIds(b, scope) :: b.registry[x],
          map r | r in b.members && r in scope :: b.members[r], {}, {})
  }

  function ScopeRows(rows: Resolved, scope: set<Id>): Resolved {
    map r | r in rows && r in scope :: rows[r]
  }

  /** Puts a republished part back into the books it was taken from. */
  function Splice(b: Books, scope: set<Id>, part: Books): Books {
    Books((map x | x in b.registry && x !in SelectedIds(b, scope) :: b.registry[x]) + part.registry,
          (map r | r in b.members && r !in scope :: b.members[r]) + part.members,
          b.aliases + part.aliases, b.splits + part.splits)
  }

  /** No identity, past or present, has members on both sides of the boundary. */
  ghost predicate IdentityClosed(b: Books, scope: set<Id>) {
    forall r, s | r in b.members && s in b.members && b.members[r].identity == b.members[s].identity ::
      r in scope <==> s in scope
  }

  ghost predicate ComponentsApart(rows: Resolved, scope: set<Id>) {
    forall r, s | r in rows && s in rows && rows[r].component == rows[s].component :: r in scope <==> s in scope
  }

  /** Outside the scope the books already say what the resolver says. */
  ghost predicate SettledOutside(b: Books, rows: Resolved, scope: set<Id>) {
    && (forall r | r in rows && r !in scope :: r in b.members && b.members[r].active && b.members[r].key == rows[r].key)
    && (forall r | r in b.members && b.members[r].active && r !in scope :: r in rows)
    && (forall r, s | r in rows && s in rows && r !in scope && s !in scope ::
          b.members[r].identity == b.members[s].identity <==> rows[r].component == rows[s].component)
  }

  ghost predicate Separated(b: Books, rows: Resolved, scope: set<Id>) {
    IdentityClosed(b, scope) && ComponentsApart(rows, scope) && SettledOutside(b, rows, scope)
  }

  // ---- the same ids on both sides ----

  lemma SettledClaim(b: Books, now: Revision, rows: Resolved, scope: set<Id>, r: Id)
    requires Sound(b, now) && Separated(b, rows, scope) && r in rows && r !in scope
    ensures IsClaimant(b, rows, rows[r].component, b.members[r].identity)
  {
    var x, k := b.members[r].identity, rows[r].component;
    var s := AnchorExists(b, rows, r);
    assert s !in scope && rows[s].component == k;
    assert Anchored(b, rows, x, k);
    forall y | Anchored(b, rows, y, k) ensures y == x {
      var t :| IsAnchor(b, rows, y, t) && rows[t].component == k;
      assert t !in scope;
    }
    assert Sorting.LexLe(IdentityRank(b.registry[x]), IdentityRank(b.registry[x])) by {
      Sorting.LexTotal(IdentityRank(b.registry[x]), IdentityRank(b.registry[x]));
    }
  }

  lemma ScopedAnchor(b: Books, rows: Resolved, scope: set<Id>, x: Id, r: Id)
    requires IdentityClosed(b, scope) && r in scope
    ensures IsAnchor(b, rows, x, r) <==> IsAnchor(ScopeBooks(b, scope), ScopeRows(rows, scope), x, r)
  {
    var c, w := ScopeBooks(b, scope), ScopeRows(rows, scope);
    forall s ensures Standing(c, w, s) <==> Standing(b, rows, s) && s in scope {}
  }

  lemma ScopedAnchored(b: Books, rows: Resolved, scope: set<Id>, x: Id, k: Key)
    requires IdentityClosed(b, scope) && ComponentsApart(rows, scope)
    requires k in ComponentsOf(ScopeRows(rows, scope))
    ensures Anchored(b, rows, x, k) <==> Anchored(ScopeBooks(b, scope), ScopeRows(rows, scope), x, k)
  {
    var c, w := ScopeBooks(b, scope), ScopeRows(rows, scope);
    var q :| q in w && w[q].component == k;
    if Anchored(b, rows, x, k) {
      var r :| IsAnchor(b, rows, x, r) && rows[r].component == k;
      assert r in rows && q in rows;
      ScopedAnchor(b, rows, scope, x, r);
      assert b.members[r].identity in SelectedIds(b, scope);
    }
    if Anchored(c, w, x, k) {
      var r :| IsAnchor(c, w, x, r) && w[r].component == k;
      ScopedAnchor(b, rows, scope, x, r);
    }
  }

  lemma ScopedClaimant(b: Books, rows: Resolved, scope: set<Id>, k: Key, x: Id)
    requires IdentityClosed(b, scope) && ComponentsApart(rows, scope)
    requires k in ComponentsOf(ScopeRows(rows, scope))
    ensures IsClaimant(b, rows, k, x) <==> IsClaimant(ScopeBooks(b, scope), ScopeRows(rows, scope), k, x)
  {
    forall y ensures Anchored(b, rows, y, k) <==> Anchored(ScopeBooks(b, scope), ScopeRows(rows, scope), y, k) {
      ScopedAnchored(b, rows, scope, y, k);
    }
  }

  lemma ScopedClaimed(b: Books, rows: Resolved, scope: set<Id>, k: Key)
    requires IdentityClosed(b, scope) && ComponentsApart(rows, scope)
    requires k in ComponentsOf(ScopeRows(rows, scope))
    ensures Claimed(b, rows, k) <==> Claimed(ScopeBooks(b, scope), ScopeRows(rows, scope), k)
  {
    forall x ensures IsClaimant(b, rows, k, x) <==> IsClaimant(ScopeBooks(b, scope), ScopeRows(rows, scope), k, x) {
      ScopedClaimant(b, rows, scope, k, x);
    }
  }

  /** All new components lie in the scope. */
  lemma NewInScope(b: Books, now: Revision, rows: Resolved, scope: set<Id>)
    requires Sound(b, now) && Separated(b, rows, scope)
    ensures NewComponents(b, rows) == NewComponents(ScopeBooks(b, scope), ScopeRows(rows, scope))
  {
    var c, w := ScopeBooks(b, scope), ScopeRows(rows, scope);
    forall k ensures k in NewComponents(b, rows) <==> k in NewComponents(c, w) {
      if k in ComponentsOf(w) {
        ScopedClaimed(b, rows, scope, k);
        var r :| r in w && w[r].component == k;
        assert r in rows;
      } else if k in ComponentsOf(rows) {
        var r :| r in rows && rows[r].component == k;
        assert r !in w;
        SettledClaim(b, now, rows, scope, r);
      }
    }
  }

  lemma NewBelowInScope(b: Books, now: Revision, rows: Resolved, scope: set<Id>, k: Key)
    requires Sound(b, now) && Separated(b, rows, scope)
    ensures NewBelow(b, rows, k) == NewBelow(ScopeBooks(b, scope), ScopeRows(rows, scope), k)
  {
    NewInScope(b, now, rows, scope);
    forall j ensures j in NewBelow(b, rows, k) <==> j in NewComponents(b, rows) && j < k {}
    var c, w := ScopeBooks(b, scope), ScopeRows(rows, scope);
    forall j ensures j in NewBelow(c, w, k) <==> j in NewComponents(c, w) && j < k {}
  }

  lemma ScopedFresh(b: Books, now: Revision, rows: Resolved, scope: set<Id>, supply: Supply)
    requires Sound(b, now) && Separated(b, rows, scope) && Fresh(b, rows, supply)
    ensures Fresh(ScopeBooks(b, scope), ScopeRows(rows, scope), supply)
  {
    NewInScope(b, now, rows, scope);
  }

  lemma ScopedFiled(b: Books, scope: set<Id>)
    requires Filed(b)
    ensures Filed(ScopeBooks(b, scope))
  {
  }

  lemma ScopedId(b: Books, now: Revision, rows: Resolved, scope: set<Id>, supply: Supply, k: Key)
    requires Sound(b, now) && Separated(b, rows, scope) && Fresh(b, rows, supply)
    requires k in ComponentsOf(ScopeRows(rows, scope)) && k in ComponentsOf(rows)
    ensures Assigned(b, rows, supply)[k] == Assigned(ScopeBooks(b, scope), ScopeRows(rows, scope), supply)[k]
  {
    var c, w := ScopeBooks(b, scope), ScopeRows(rows, scope);
    ScopedFresh(b, now, rows, scope, supply);
    ScopedClaimed(b, rows, scope, k);
    NewBelowInScope(b, now, rows, scope, k);
    if Claimed(b, rows, k) {
      var x, y := IdOf(b, rows, supply, k), IdOf(c, w, supply, k);
      assert IsClaimant(b, rows, k, x) && IsClaimant(c, w, k, y);
      ScopedClaimant(b, rows, scope, k, x);
      ScopedFiled(b, scope);
      ClaimantUnique(c, w, k, x, y);
    }
  }

  /** What the two assignments have in common. */
  ghost predicate Matching(b: Books, rows: Resolved, scope: set<Id>, a: map<Key, Id>, part: map<Key, Id>) {
    && a.Keys == ComponentsOf(rows)
    && part.Keys == ComponentsOf(ScopeRows(rows, scope))
    && (forall k | k in part :: k in a && a[k] == part[k])
    && (forall r | r in rows && r !in scope ::
      r in b.members && rows[r].component in a && a[rows[r].component] == b.members[r].identity)
  }

  lemma AssignmentsMatch(b: Books, now: Revision, rows: Resolved, scope: set<Id>, supply: Supply)
    requires Sound(b, now) && Separated(b, rows, scope) && Fresh(b, rows, supply)
    ensures Matching(b, rows, scope, Assigned(b, rows, supply),
      Assigned(ScopeBooks(b, scope), ScopeRows(rows, scope), supply))
  {
    var a, part := Assigned(b, rows, supply), Assigned(ScopeBooks(b, scope), ScopeRows(rows, scope), supply);
    forall k | k in part ensures k in a && a[k] == part[k] {
      var r :| r in ScopeRows(rows, scope) && ScopeRows(rows, scope)[r].component == k;
      assert r in rows && rows[r].component == k;
      ScopedId(b, now, rows, scope, supply, k);
    }
    forall r | r in rows && r !in scope
      ensures rows[r].component in a && a[rows[r].component] == b.members[r].identity {
      var k := rows[r].component;
      assert k in ComponentsOf(rows);
      SettledClaim(b, now, rows, scope, r);
      AssignedKinds(b, rows, supply, k);
      ClaimantUnique(b, rows, k, a[k], b.members[r].identity);
    }
  }

  // ---- the same rows on both sides ----

  lemma ScopedSuccessors(b: Books, rows: Resolved, scope: set<Id>, a: map<Key, Id>, part: map<Key, Id>, x: Id)
    requires IdentityClosed(b, scope) && Matching(b, rows, scope, a, part) && x in SelectedIds(b, scope)
    ensures Successors(b, rows, a, x) == Successors(ScopeBooks(b, scope), ScopeRows(rows, scope), part, x)
  {
    var c, w := ScopeBooks(b, scope), ScopeRows(rows, scope);
    var q :| q in b.members && q in scope && b.members[q].identity == x;
    forall r | r in b.members && b.members[r].identity == x
      ensures r in c.members && (Standing(b, rows, r) <==> Standing(c, w, r))
      ensures Standing(b, rows, r) ==> w[r].component in part && a[rows[r].component] == part[w[r].component]
    {
      assert r in scope;
      if r in rows { assert w[r].component in ComponentsOf(w); }
    }
  }

  lemma OutsideSuccessors(b: Books, now: Revision, rows: Resolved, scope: set<Id>, a: map<Key, Id>, part: map<Key, Id>,
      x: Id)
    requires Sound(b, now) && Separated(b, rows, scope) && Matching(b, rows, scope, a, part)
    requires x !in SelectedIds(b, scope)
    ensures Successors(b, rows, a, x) <= {x}
    ensures x in b.registry && b.registry[x].status.Active? ==> Successors(b, rows, a, x) == {x}
  {
    forall r | r in b.members && b.members[r].identity == x ensures r !in scope {}
    if x in b.registry && b.registry[x].status.Active? {
      var r :| r in b.members && b.members[r].active && b.members[r].identity == x;
      SuccessorOf(b, rows, a, r);
    }
  }

  /** The assigned ids are those assigned in the scope and those already held outside. */
  lemma AssignedOutside(b: Books, rows: Resolved, scope: set<Id>, a: map<Key, Id>, part: map<Key, Id>, x: Id)
    requires Matching(b, rows, scope, a, part) && x in a.Values
    ensures x in part.Values || exists r | r in b.members && r !in scope :: b.members[r].identity == x
  {
    var k :| k in a && a[k] == x;
    var r :| r in rows && rows[r].component == k;
    if r in scope {
      assert r in ScopeRows(rows, scope) && k in part;
    }
  }

  lemma RegistrySpliced(b: Books, now: Revision, rows: Resolved, scope: set<Id>, a: map<Key, Id>, part: map<Key, Id>,
      v: Revision, x: Id)
    requires Sound(b, now) && Separated(b, rows, scope) && Matching(b, rows, scope, a, part)
    requires forall y | y in part.Values && y in b.registry :: y in SelectedIds(b, scope)
    ensures var c, w := ScopeBooks(b, scope), ScopeRows(rows, scope);
      var full, local := NextRegistry(b, rows, a, v), NextRegistry(c, w, part, v);
      && (x in full <==> x in local || (x in b.registry && x !in SelectedIds(b, scope)))
      && (x in local ==> full[x] == local[x])
      && (x in b.registry && x !in SelectedIds(b, scope) ==> x !in local && full[x] == b.registry[x])
  {
    if x in a.Values { AssignedOutside(b, rows, scope, a, part, x); }
    if x in part.Values {
      var k :| k in part && part[k] == x;
      assert a[k] == x;
    }
    if x in SelectedIds(b, scope) {
      ScopedSuccessors(b, rows, scope, a, part, x);
    } else {
      OutsideSuccessors(b, now, rows, scope, a, part, x);
    }
  }

  lemma PartIdsSelected(b: Books, rows: Resolved, scope: set<Id>, a: map<Key, Id>, part: map<Key, Id>)
    requires Continuous(b, rows, a) && ComponentsApart(rows, scope) && Matching(b, rows, scope, a, part)
    ensures forall y | y in part.Values && y in b.registry :: y in SelectedIds(b, scope)
  {
    forall y | y in part.Values && y in b.registry ensures y in SelectedIds(b, scope) {
      var k :| k in part && part[k] == y;
      var r :| Standing(b, rows, r) && b.members[r].identity == y && rows[r].component == k;
      var q :| q in ScopeRows(rows, scope) && ScopeRows(rows, scope)[q].component == k;
      assert q in rows && q in scope;
    }
  }

  lemma MemberSpliced(b: Books, rows: Resolved, scope: set<Id>, a: map<Key, Id>, part: map<Key, Id>, v: Revision, r: Id)
    requires SettledOutside(b, rows, scope) && Matching(b, rows, scope, a, part)
    ensures var c, w := ScopeBooks(b, scope), ScopeRows(rows, scope);
      var full, local := NextMembers(b, rows, a, v), NextMembers(c, w, part, v);
      && (r in full <==> r in local || (r in b.members && r !in scope))
      && (r in local ==> r in scope && full[r] == local[r])
      && (r in b.members && r !in scope ==> full[r] == b.members[r])
  {
    if r in rows {
      assert rows[r].component in ComponentsOf(rows);
      if r in scope {
        var w := ScopeRows(rows, scope);
        assert r in w && w[r].component in ComponentsOf(w);
      }
    }
  }

  lemma SuccessorsAgree(b: Books, now: Revision, rows: Resolved, scope: set<Id>, a: map<Key, Id>, part: map<Key, Id>,
      x: Id)
    requires Sound(b, now) && Separated(b, rows, scope) && Matching(b, rows, scope, a, part)
    ensures var local := Successors(ScopeBooks(b, scope), ScopeRows(rows, scope), part, x);
      Successors(b, rows, a, x) == local || (Successors(b, rows, a, x) <= {x} && local == {})
  {
    if x in SelectedIds(b, scope) {
      ScopedSuccessors(b, rows, scope, a, part, x);
    } else {
      OutsideSuccessors(b, now, rows, scope, a, part, x);
      forall r | r in ScopeBooks(b, scope).members ensures b.members[r].identity != x {
        assert b.members[r].identity in SelectedIds(b, scope);
      }
    }
  }

  lemma LocalSound(b: Books, now: Revision, scope: set<Id>)
    requires Sound(b, now) && IdentityClosed(b, scope)
    ensures Filed(ScopeBooks(b, scope)) && RegistrySound(ScopeBooks(b, scope), now)
      && MembersSound(ScopeBooks(b, scope), now)
    ensures forall r | r in ScopeBooks(b, scope).members && ScopeBooks(b, scope).members[r].active ::
      ScopeBooks(b, scope).members[r].identity in ScopeBooks(b, scope).registry
  {
    var c := ScopeBooks(b, scope);
    forall r | r in c.members ensures c.members[r].identity in c.registry {
      assert c.members[r].identity in SelectedIds(b, scope);
    }
    forall x {:trigger c.registry[x]} | x in c.registry ensures RowSound(c.registry[x], now, HasActiveMember(c, x)) {
      var q :| q in b.members && q in scope && b.members[q].identity == x;
      assert RowSound(b.registry[x], now, HasActiveMember(b, x));
      if HasActiveMember(b, x) {
        var r :| r in b.members && b.members[r].active && b.members[r].identity == x;
        assert r in c.members && c.members[r].active && c.members[r].identity == x;
      }
      if HasActiveMember(c, x) {
        var r :| r in c.members && c.members[r].active && c.members[r].identity == x;
        assert r in b.members && b.members[r].active && b.members[r].identity == x;
      }
    }
  }

  /** New alias rows depend only on where members go. */
  lemma AliasMeans(b: Books, rows: Resolved, a: map<Key, Id>, v: Revision, x: Id, c: Id)
    requires a.Keys == ComponentsOf(rows)
    requires forall p | p in b.aliases && p.source == x :: Successors(b, rows, a, x) == {}
    ensures Alias(x, c, v) in NewAliases(b, rows, a, v) <==> Successors(b, rows, a, x) == {c} && c != x
  {
    if Successors(b, rows, a, x) == {c} {
      assert c in Successors(b, rows, a, x);
      var r := SuccessorFrom(b, rows, a, x, c);
    }
  }

  lemma SplitMeans(b: Books, rows: Resolved, a: map<Key, Id>, v: Revision, x: Id, c: Id)
    requires a.Keys == ComponentsOf(rows)
    ensures Branch(x, c, v) in NewSplits(b, rows, a, v) <==>
      |Successors(b, rows, a, x)| > 1 && c in Successors(b, rows, a, x)
  {
    if c in Successors(b, rows, a, x) {
      var r := SuccessorFrom(b, rows, a, x, c);
    }
  }

  lemma AliasedStayEmpty(b: Books, now: Revision, rows: Resolved, a: map<Key, Id>, p: Alias)
    requires Sound(b, now) && a.Keys == ComponentsOf(rows) && p in b.aliases
    ensures Successors(b, rows, a, p.source) == {}
  {
    if c :| c in Successors(b, rows, a, p.source) {
      var r := SuccessorFrom(b, rows, a, p.source, c);
      assert HasActiveMember(b, p.source);
      assert false;
    }
  }

  lemma AliasesSpliced(b: Books, now: Revision, rows: Resolved, scope: set<Id>, a: map<Key, Id>, part: map<Key, Id>,
      v: Revision)
    requires Sound(b, now) && Separated(b, rows, scope) && Matching(b, rows, scope, a, part)
    ensures NewAliases(b, rows, a, v) == NewAliases(ScopeBooks(b, scope), ScopeRows(rows, scope), part, v)
  {
    var c, w := ScopeBooks(b, scope), ScopeRows(rows, scope);
    forall p | p in b.aliases ensures Successors(b, rows, a, p.source) == {} { AliasedStayEmpty(b, now, rows, a, p); }
    forall p: Alias ensures p in NewAliases(b, rows, a, v) <==> p in NewAliases(c, w, part, v) {
      if p.revision == v {
        assert p == Alias(p.source, p.target, v);
        AliasMeans(b, rows, a, v, p.source, p.target);
        AliasMeans(c, w, part, v, p.source, p.target);
        SuccessorsAgree(b, now, rows, scope, a, part, p.source);
      }
    }
  }

  lemma SplitsSpliced(b: Books, now: Revision, rows: Resolved, scope: set<Id>, a: map<Key, Id>, part: map<Key, Id>,
      v: Revision)
    requires Sound(b, now) && Separated(b, rows, scope) && Matching(b, rows, scope, a, part)
    ensures NewSplits(b, rows, a, v) == NewSplits(ScopeBooks(b, scope), ScopeRows(rows, scope), part, v)
  {
    var c, w := ScopeBooks(b, scope), ScopeRows(rows, scope);
    forall p: Branch ensures p in NewSplits(b, rows, a, v) <==> p in NewSplits(c, w, part, v) {
      if p.revision == v {
        assert p == Branch(p.parent, p.child, v);
        SplitMeans(b, rows, a, v, p.parent, p.child);
        SplitMeans(c, w, part, v, p.parent, p.child);
        SuccessorsAgree(b, now, rows, scope, a, part, p.parent);
        if Successors(b, rows, a, p.parent) <= {p.parent} { SubsetSize(Successors(b, rows, a, p.parent), {p.parent}); }
      }
    }
  }

  /** Two tables agree when they agree row by row. */
  lemma SplicedRows<T>(full: map<Id, T>, kept: map<Id, T>, part: map<Id, T>)
    requires forall x :: x in full <==> x in part || x in kept
    requires forall x | x in part :: x in full && full[x] == part[x]
    requires forall x | x in kept :: x !in part && x in full && full[x] == kept[x]
    ensures full == kept + part
  {
  }

  lemma RegistriesSpliced(b: Books, now: Revision, rows: Resolved, scope: set<Id>, a: map<Key, Id>, part: map<Key, Id>,
      v: Revision)
    requires Sound(b, now) && Separated(b, rows, scope) && Matching(b, rows, scope, a, part) && Continuous(b, rows, a)
    ensures NextRegistry(b, rows, a, v) == (map x | x in b.registry && x !in SelectedIds(b, scope) :: b.registry[x])
      + NextRegistry(ScopeBooks(b, scope), ScopeRows(rows, scope), part, v)
  {
    PartIdsSelected(b, rows, scope, a, part);
    var kept := map x | x in b.registry && x !in SelectedIds(b, scope) :: b.registry[x];
    var full, local := NextRegistry(b, rows, a, v), NextRegistry(ScopeBooks(b, scope), ScopeRows(rows, scope), part, v);
    forall x ensures x in full <==> x in local || x in kept
             ensures x in local ==> x in full && full[x] == local[x]
             ensures x in kept ==> x !in local && x in full && full[x] == kept[x]
    {
      RegistrySpliced(b, now, rows, scope, a, part, v, x);
    }
    SplicedRows(full, kept, local);
  }

  lemma MembersSpliced(b: Books, rows: Resolved, scope: set<Id>, a: map<Key, Id>, part: map<Key, Id>, v: Revision)
    requires SettledOutside(b, rows, scope) && Matching(b, rows, scope, a, part)
    ensures NextMembers(b, rows, a, v) == (map r | r in b.members && r !in scope :: b.members[r])
      + NextMembers(ScopeBooks(b, scope), ScopeRows(rows, scope), part, v)
  {
    var kept := map r | r in b.members && r !in scope :: b.members[r];
    var full, local := NextMembers(b, rows, a, v), NextMembers(ScopeBooks(b, scope), ScopeRows(rows, scope), part, v);
    forall r ensures r in full <==> r in local || r in kept
             ensures r in local ==> r in full && full[r] == local[r]
             ensures r in kept ==> r !in local && r in full && full[r] == kept[r]
    {
      MemberSpliced(b, rows, scope, a, part, v, r);
    }
    SplicedRows(full, kept, local);
  }

  lemma PublishedSpliced(b: Books, now: Revision, rows: Resolved, scope: set<Id>, a: map<Key, Id>, part: map<Key, Id>,
      v: Revision)
    requires Sound(b, now) && Separated(b, rows, scope) && Matching(b, rows, scope, a, part) && Continuous(b, rows, a)
    ensures Published(b, rows, a, v)
      == Splice(b, scope, Published(ScopeBooks(b, scope), ScopeRows(rows, scope), part, v))
  {
    var full := Published(b, rows, a, v);
    var local := Published(ScopeBooks(b, scope), ScopeRows(rows, scope), part, v);
    assert full.registry == Splice(b, scope, local).registry by {
      RegistriesSpliced(b, now, rows, scope, a, part, v);
    }
    assert full.members == Splice(b, scope, local).members by {
      MembersSpliced(b, rows, scope, a, part, v);
    }
    assert full.aliases == Splice(b, scope, local).aliases by {
      AliasesSpliced(b, now, rows, scope, a, part, v);
      NothingBefore(local.aliases, NewAliases(ScopeBooks(b, scope), ScopeRows(rows, scope), part, v));
    }
    assert full.splits == Splice(b, scope, local).splits by {
      SplitsSpliced(b, now, rows, scope, a, part, v);
      NothingBefore(local.splits, NewSplits(ScopeBooks(b, scope), ScopeRows(rows, scope), part, v));
    }
    SameBooks(full, Splice(b, scope, local));
  }

  lemma NothingBefore<T>(all: set<T>, more: set<T>)
    requires all == {} + more
    ensures all == more
  {
  }

  lemma SameBooks(x: Books, y: Books)
    requires x.registry == y.registry && x.members == y.members && x.aliases == y.aliases && x.splits == y.splits
    ensures x == y
  {
  }

  /** Publishing everything equals republishing the scope and splicing it back, with the same ids
      drawn, whenever the books outside the scope already agree with the resolver. */
  lemma ScopedPublication(b: Books, now: Revision, p: Publication, scope: set<Id>)
    requires Sound(b, now) && Publishable(b, now, p) && Separated(b, p.rows, scope)
    ensures Fresh(ScopeBooks(b, scope), ScopeRows(p.rows, scope), p.supply)
    ensures Step(b, p) == Splice(b, scope, Step(ScopeBooks(b, scope), p.(rows := ScopeRows(p.rows, scope))))
  {
    var a := Assigned(b, p.rows, p.supply);
    var part := Assigned(ScopeBooks(b, scope), ScopeRows(p.rows, scope), p.supply);
    ScopedFresh(b, now, p.rows, scope, p.supply);
    AssignmentsMatch(b, now, p.rows, scope, p.supply);
    AssignedContinuous(b, p.rows, p.supply);
    PublishedSpliced(b, now, p.rows, scope, a, part, p.revision);
  }

  // ---- publishing nothing new ----

  /** The assignment gives every record the identity it has. */
  ghost predicate Kept(b: Books, rows: Resolved, a: map<Key, Id>) {
    && a.Keys == ComponentsOf(rows)
    && forall r | r in rows :: r in b.members && rows[r].component in a && a[rows[r].component] == b.members[r].identity
  }

  lemma AllClaimed(b: Books, now: Revision, rows: Resolved)
    requires Sound(b, now) && Realises(b, rows)
    ensures NewComponents(b, rows) == {}
  {
    forall k | k in ComponentsOf(rows) ensures Claimed(b, rows, k) {
      var r :| r in rows && rows[r].component == k;
      SettledClaim(b, now, rows, {}, r);
    }
  }

  lemma IdKept(b: Books, now: Revision, rows: Resolved, supply: Supply, r: Id)
    requires Sound(b, now) && Realises(b, rows) && Fresh(b, rows, supply) && r in rows
    ensures rows[r].component in ComponentsOf(rows)
    ensures Assigned(b, rows, supply)[rows[r].component] == b.members[r].identity
  {
    var k := rows[r].component;
    assert k in ComponentsOf(rows);
    SettledClaim(b, now, rows, {}, r);
    AssignedKinds(b, rows, supply, k);
    ClaimantUnique(b, rows, k, Assigned(b, rows, supply)[k], b.members[r].identity);
  }

  lemma AssignmentKept(b: Books, now: Revision, rows: Resolved, supply: Supply)
    requires Sound(b, now) && Realises(b, rows)
    ensures Kept(b, rows, Assigned(b, rows, supply))
  {
    AllClaimed(b, now, rows);
    assert Fresh(b, rows, supply);
    forall r | r in rows ensures rows[r].component in ComponentsOf(rows)
                         ensures Assigned(b, rows, supply)[rows[r].component] == b.members[r].identity
    {
      IdKept(b, now, rows, supply, r);
    }
  }

  lemma KeptSuccessors(b: Books, now: Revision, rows: Resolved, a: map<Key, Id>, x: Id)
    requires Sound(b, now) && Realises(b, rows) && Kept(b, rows, a)
    ensures Successors(b, rows, a, x) <= {x}
    ensures x in b.registry && b.registry[x].status.Active? ==> Successors(b, rows, a, x) == {x}
  {
    if x in b.registry && b.registry[x].status.Active? {
      var r :| r in b.members && b.members[r].active && b.members[r].identity == x;
      SuccessorOf(b, rows, a, r);
    }
  }

  lemma KeptRow(b: Books, now: Revision, rows: Resolved, a: map<Key, Id>, v: Revision, x: Id)
    requires Sound(b, now) && Realises(b, rows) && Kept(b, rows, a) && x in b.registry
    ensures NextRegistry(b, rows, a, v)[x] == b.registry[x]
  {
    KeptSuccessors(b, now, rows, a, x);
    assert RowSound(b.registry[x], now, HasActiveMember(b, x)) && b.registry[x].id == x;
  }

  lemma KeptRegistry(b: Books, now: Revision, rows: Resolved, a: map<Key, Id>, v: Revision)
    requires Sound(b, now) && Realises(b, rows) && Kept(b, rows, a)
    ensures NextRegistry(b, rows, a, v) == b.registry
  {
    var n := NextRegistry(b, rows, a, v);
    forall x | x in a.Values ensures x in b.registry {
      var k :| k in a && a[k] == x;
      var r :| r in rows && rows[r].component == k;
    }
    forall x | x in b.registry ensures n[x] == b.registry[x] {
      KeptRow(b, now, rows, a, v, x);
    }
  }

  lemma KeptHistory(b: Books, now: Revision, rows: Resolved, a: map<Key, Id>, v: Revision)
    requires Sound(b, now) && Realises(b, rows) && Kept(b, rows, a)
    ensures NewAliases(b, rows, a, v) == {} && NewSplits(b, rows, a, v) == {}
  {
    forall x ensures Successors(b, rows, a, x) <= {x} && |Successors(b, rows, a, x)| <= 1 {
      KeptSuccessors(b, now, rows, a, x);
      SubsetSize(Successors(b, rows, a, x), {x});
    }
    forall p ensures p !in NewAliases(b, rows, a, v) {
      assert Successors(b, rows, a, p.source) == {p.target} ==> p.target in Successors(b, rows, a, p.source);
    }
    forall p ensures p !in NewSplits(b, rows, a, v) {}
  }

  lemma KeptMembers(b: Books, rows: Resolved, a: map<Key, Id>, v: Revision)
    requires Realises(b, rows) && Kept(b, rows, a)
    ensures NextMembers(b, rows, a, v) == b.members
  {
  }

  lemma PublishedKept(b: Books, now: Revision, rows: Resolved, a: map<Key, Id>, v: Revision)
    requires Sound(b, now) && Realises(b, rows) && Kept(b, rows, a)
    ensures Published(b, rows, a, v) == b
  {
    KeptRegistry(b, now, rows, a, v);
    KeptHistory(b, now, rows, a, v);
    KeptMembers(b, rows, a, v);
  }

  lemma StepIsPublished(b: Books, p: Publication)
    ensures Step(b, p) == Published(b, p.rows, Assigned(b, p.rows, p.supply), p.revision)
  {
  }

  /** Publishing a partition the books already realise draws no id, whatever the allocator. */
  lemma QuiescentDraw(b: Books, now: Revision, p: Publication)
    requires Sound(b, now) && now < p.revision && Realises(b, p.rows)
    ensures NewComponents(b, p.rows) == {} && Publishable(b, now, p)
  {
    AllClaimed(b, now, p.rows);
  }

  /** And it changes no row, whatever the revision. */
  lemma Quiescent(b: Books, now: Revision, p: Publication)
    requires Sound(b, now) && now < p.revision && Realises(b, p.rows)
    ensures Step(b, p) == b
  {
    AssignmentKept(b, now, p.rows, p.supply);
    PublishedKept(b, now, p.rows, Assigned(b, p.rows, p.supply), p.revision);
    StepIsPublished(b, p);
  }
}
