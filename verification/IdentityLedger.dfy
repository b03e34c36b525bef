/** What every publication of the identity ledger keeps, and how it realises the resolver's
    partition. */
module IdentityLedger {
  import opened Prelude
  import opened Sorting
  import opened Types
  import opened IdentitySpec

  // ---- anchors and claimants ----

  lemma AnchorUnique(b: Books, rows: Resolved, x: Id, r: Id, s: Id)
    requires Filed(b) && IsAnchor(b, rows, x, r) && IsAnchor(b, rows, x, s)
    ensures r == s
  {
    LexAntisymmetric(AnchorRank(b.members[r]), AnchorRank(b.members[s]));
    assert AnchorRank(b.members[r])[2] == AnchorRank(b.members[s])[2];
  }

  lemma AnchorExists(b: Books, rows: Resolved, r: Id) returns (s: Id)
    requires Standing(b, rows, r)
    ensures IsAnchor(b, rows, b.members[r].identity, s)
  {
    var x := b.members[r].identity;
    var mine: set<Id> := set m: Id | m in b.members && Standing(b, rows, m) && b.members[m].identity == x;
    var rank := (m: Id) => if m in b.members then AnchorRank(b.members[m]) else [];
    assert r in mine;
    s := LeastByRank(mine, rank);
    forall m | Standing(b, rows, m) && b.members[m].identity == x
      ensures LexLe(AnchorRank(b.members[s]), AnchorRank(b.members[m]))
    {
      assert m in mine && LexLe(rank(s), rank(m));
    }
  }

  lemma ClaimantExists(b: Books, rows: Resolved, x: Id, k: Key)
    requires Anchored(b, rows, x, k)
    ensures Claimed(b, rows, k)
  {
    var claims: set<Id> := set y: Id | y in b.registry && Anchored(b, rows, y, k);
    var rank := (y: Id) => if y in b.registry then IdentityRank(b.registry[y]) else [];
    assert x in claims;
    var y := LeastByRank(claims, rank);
    forall z | Anchored(b, rows, z, k) ensures LexLe(IdentityRank(b.registry[y]), IdentityRank(b.registry[z])) {
      assert z in claims && LexLe(rank(y), rank(z));
    }
    assert IsClaimant(b, rows, k, y);
  }

  lemma ClaimantUnique(b: Books, rows: Resolved, k: Key, x: Id, y: Id)
    requires Filed(b) && IsClaimant(b, rows, k, x) && IsClaimant(b, rows, k, y)
    ensures x == y
  {
    LexAntisymmetric(IdentityRank(b.registry[x]), IdentityRank(b.registry[y]));
    assert IdentityRank(b.registry[x])[1] == IdentityRank(b.registry[y])[1];
  }

  // ---- the assignment of ids to components ----

  lemma NewBelowGrows(b: Books, rows: Resolved, j: Key, k: Key)
    requires j < k && j in NewComponents(b, rows)
    ensures |NewBelow(b, rows, j)| < |NewBelow(b, rows, k)|
  {
    var small, big := NewBelow(b, rows, j), NewBelow(b, rows, k);
    SubsetSize(small + {j}, big);
  }

  lemma NewBelowBound(b: Books, rows: Resolved, k: Key)
    requires k in NewComponents(b, rows)
    ensures |NewBelow(b, rows, k)| < |NewComponents(b, rows)|
  {
    SubsetSize(NewBelow(b, rows, k) + {k}, NewComponents(b, rows));
  }

  /** An assigned id either is the claimant's, and then keeps one of its own standing members in
      the component, or is new to the registry. */
  lemma AssignedKinds(b: Books, rows: Resolved, supply: Supply, k: Key)
    requires Fresh(b, rows, supply) && k in ComponentsOf(rows)
    ensures var x := Assigned(b, rows, supply)[k];
      && (x in b.registry <==> Claimed(b, rows, k))
      && (x in b.registry ==> IsClaimant(b, rows, k, x))
      && (x !in b.registry ==> x == supply(|NewBelow(b, rows, k)|))
  {
    if !Claimed(b, rows, k) {
      NewBelowBound(b, rows, k);
    }
  }

  lemma AssignedKeeps(b: Books, rows: Resolved, supply: Supply, k: Key) returns (r: Id)
    requires Fresh(b, rows, supply) && k in ComponentsOf(rows) && Assigned(b, rows, supply)[k] in b.registry
    ensures IsAnchor(b, rows, Assigned(b, rows, supply)[k], r) && rows[r].component == k
  {
    AssignedKinds(b, rows, supply, k);
    var x := Assigned(b, rows, supply)[k];
    assert Anchored(b, rows, x, k);
    r :| IsAnchor(b, rows, x, r) && rows[r].component == k;
  }

  /** Different components get different ids, so no id is selected twice. */
  lemma AssignedInjective(b: Books, rows: Resolved, supply: Supply, j: Key, k: Key)
    requires Filed(b) && Fresh(b, rows, supply) && j in ComponentsOf(rows) && k in ComponentsOf(rows)
    requires Assigned(b, rows, supply)[j] == Assigned(b, rows, supply)[k]
    ensures j == k
  {
    AssignedKinds(b, rows, supply, j);
    AssignedKinds(b, rows, supply, k);
    var x := Assigned(b, rows, supply)[j];
    if x in b.registry {
      var r := AssignedKeeps(b, rows, supply, j);
      var s := AssignedKeeps(b, rows, supply, k);
      AnchorUnique(b, rows, x, r, s);
    } else {
      NewBelowBound(b, rows, j);
      NewBelowBound(b, rows, k);
      if j < k { NewBelowGrows(b, rows, j, k); }
      if k < j { NewBelowGrows(b, rows, k, j); }
    }
  }

  // ---- the invariant ----

  /** `p` passes members to `c` in publication `v`. */
  predicate Moves(b: Books, p: Id, v: Revision, c: Id) {
    Alias(p, c, v) in b.aliases || Branch(p, c, v) in b.splits
  }

  ghost predicate HasActiveMember(b: Books, x: Id) {
    exists r | r in b.members :: b.members[r].active && b.members[r].identity == x
  }

  /** Only an identity with an active member is active; the others keep the revision that ended them. */
  ghost predicate RowSound(row: IdentityRecord, now: Revision, used: bool) {
    && 0 < row.created <= now
    && (row.status.Active? <==> row.retired.None?)
    && (row.retired.Some? ==> row.created <= row.retired.value <= now)
    && (row.status.Active? <==> used)
  }

  ghost predicate RegistrySound(b: Books, now: Revision) {
    forall x {:trigger b.registry[x]} | x in b.registry :: RowSound(b.registry[x], now, HasActiveMember(b, x))
  }

  ghost predicate MembersSound(b: Books, now: Revision) {
    forall r {:trigger b.members[r]} | r in b.members ::
      && b.members[r].identity in b.registry
      && b.members[r].first <= b.members[r].last <= now
  }

  /** Exactly the merged identities are alias sources, each once, since it was retired. */
  ghost predicate AliasesSound(b: Books) {
    && (forall a | a in b.aliases ::
          a.source in b.registry && b.registry[a.source].status.Merged?
            && b.registry[a.source].retired == Some(a.revision))
    && (forall a, c | a in b.aliases && c in b.aliases && a.source == c.source :: a == c)
    && (forall x | x in b.registry && b.registry[x].status.Merged? :: exists a | a in b.aliases :: a.source == x)
  }

  /** Whoever receives members outlives the publication; whoever survives it receives some. */
  ghost predicate MoveSound(b: Books, now: Revision, p: Id, v: Revision, c: Id) {
    && p in b.registry && c in b.registry && v <= now
    && (b.registry[c].retired.Some? ==> v < b.registry[c].retired.value)
    && (b.registry[p].retired.Some? ==> v <= b.registry[p].retired.value)
    && (b.registry[p].retired == Some(v) || Moves(b, p, v, p))
  }

  ghost predicate MovesSound(b: Books, now: Revision) {
    && (forall p, v, c | Moves(b, p, v, c) :: MoveSound(b, now, p, v, c))
    && (forall p | p in b.registry && b.registry[p].status.Split? ::
          exists v, c :: b.registry[p].retired == Some(v) && Moves(b, p, v, c))
  }

  /** The ledger invariant after publication `now`. */
  ghost predicate Sound(b: Books, now: Revision) {
    && 0 <= now && Filed(b) && RegistrySound(b, now) && MembersSound(b, now) && AliasesSound(b) && MovesSound(b, now)
  }

  // ---- one publication ----

  /** The facts about an assignment that the books depend on. */
  ghost predicate Continuous(b: Books, rows: Resolved, a: map<Key, Id>) {
    && a.Keys == ComponentsOf(rows)
    && (forall j, k | j in a && k in a && a[j] == a[k] :: j == k)
    && (forall k | k in a && a[k] in b.registry ::
          exists r :: Standing(b, rows, r) && b.members[r].identity == a[k] && rows[r].component == k)
  }

  lemma AssignedContinuous(b: Books, rows: Resolved, supply: Supply)
    requires Filed(b) && Fresh(b, rows, supply)
    ensures Continuous(b, rows, Assigned(b, rows, supply))
  {
    var a := Assigned(b, rows, supply);
    forall j, k | j in a && k in a && a[j] == a[k] ensures j == k {
      AssignedInjective(b, rows, supply, j, k);
    }
    forall k | k in a && a[k] in b.registry
      ensures exists r :: Standing(b, rows, r) && b.members[r].identity == a[k] && rows[r].component == k
    {
      var r := AssignedKeeps(b, rows, supply, k);
    }
  }

  lemma SuccessorOf(b: Books, rows: Resolved, a: map<Key, Id>, r: Id)
    requires a.Keys == ComponentsOf(rows) && Standing(b, rows, r)
    ensures rows[r].component in a && a[rows[r].component] in Successors(b, rows, a, b.members[r].identity)
  {
    assert rows[r].component in ComponentsOf(rows);
  }

  lemma SuccessorFrom(b: Books, rows: Resolved, a: map<Key, Id>, x: Id, c: Id) returns (r: Id)
    requires a.Keys == ComponentsOf(rows) && c in Successors(b, rows, a, x)
    ensures Standing(b, rows, r) && b.members[r].identity == x && rows[r].component in a && a[rows[r].component] == c
    ensures c in a.Values
  {
    r :| r in b.members && Standing(b, rows, r) && b.members[r].identity == x && a[rows[r].component] == c;
    assert rows[r].component in ComponentsOf(rows);
  }

  /** Every identity given to a component is active afterwards. */
  lemma AssignedActive(b: Books, now: Revision, rows: Resolved, a: map<Key, Id>, v: Revision, k: Key)
    requires Sound(b, now) && Continuous(b, rows, a) && k in a
    ensures a[k] in NextRegistry(b, rows, a, v)
    ensures NextRegistry(b, rows, a, v)[a[k]].status.Active? && NextRegistry(b, rows, a, v)[a[k]].retired.None?
  {
    var x := a[k];
    assert x in a.Values;
    if x in b.registry {
      var r :| Standing(b, rows, r) && b.members[r].identity == x && rows[r].component == k;
      SuccessorOf(b, rows, a, r);
      assert b.registry[x].id == x && b.registry[x].status.Active?;
    }
  }

  /** What a publication does to one registered identity. */
  lemma IdentityStep(b: Books, now: Revision, rows: Resolved, a: map<Key, Id>, v: Revision, x: Id)
    requires Sound(b, now) && Continuous(b, rows, a) && now < v && x in b.registry
    ensures x in NextRegistry(b, rows, a, v)
    ensures var next := NextRegistry(b, rows, a, v)[x]; var row := b.registry[x]; var succ := Successors(b, rows, a, x);
      && next.id == x && next.created == row.created
      && (!row.status.Active? ==> next == row)
      && (row.status.Active? && x in succ ==> next == row)
      && (row.status.Active? && x !in succ ==> next.retired == Some(v) && !next.status.Active?)
      && (row.status.Active? && x !in succ ==>
        (next.status.Merged? <==> |succ| == 1) && (next.status.Split? <==> |succ| > 1))
  {
  }

  lemma NextRowDated(b: Books, now: Revision, rows: Resolved, a: map<Key, Id>, v: Revision, x: Id)
    requires Sound(b, now) && Continuous(b, rows, a) && now < v && x in NextRegistry(b, rows, a, v)
    ensures var row := NextRegistry(b, rows, a, v)[x]; RowSound(row, v, row.status.Active?)
  {
    if x in b.registry { IdentityStep(b, now, rows, a, v, x); }
  }

  lemma NextRowSound(b: Books, now: Revision, rows: Resolved, a: map<Key, Id>, v: Revision, x: Id)
    requires Sound(b, now) && Continuous(b, rows, a) && now < v && x in NextRegistry(b, rows, a, v)
    ensures RowSound(NextRegistry(b, rows, a, v)[x], v, HasActiveMember(Published(b, rows, a, v), x))
  {
    NextRowDated(b, now, rows, a, v, x);
    MemberKeepsActive(b, now, rows, a, v, x);
    if NextRegistry(b, rows, a, v)[x].status.Active? {
      ActiveHasMember(b, now, rows, a, v, x);
    }
  }

  lemma NextRegistrySound(b: Books, now: Revision, rows: Resolved, a: map<Key, Id>, v: Revision)
    requires Sound(b, now) && Continuous(b, rows, a) && now < v
    ensures RegistrySound(Published(b, rows, a, v), v)
  {
    var n := Published(b, rows, a, v);
    forall x {:trigger n.registry[x]} | x in n.registry ensures RowSound(n.registry[x], v, HasActiveMember(n, x)) {
      NextRowSound(b, now, rows, a, v, x);
    }
  }

  lemma ActiveHasMember(b: Books, now: Revision, rows: Resolved, a: map<Key, Id>, v: Revision, x: Id)
    requires Sound(b, now) && Continuous(b, rows, a) && now < v
    requires x in NextRegistry(b, rows, a, v) && NextRegistry(b, rows, a, v)[x].status.Active?
    ensures HasActiveMember(Published(b, rows, a, v), x)
  {
    var n := Published(b, rows, a, v);
    var r: Id;
    if x in b.registry {
      IdentityStep(b, now, rows, a, v, x);
      r := SuccessorFrom(b, rows, a, x, x);
    } else {
      var k :| k in a && a[k] == x;
      r :| r in rows && rows[r].component == k;
    }
    MemberStep(b, now, rows, a, v, r);
    assert r in n.members && n.members[r].active && n.members[r].identity == x;
  }

  /** What a publication does to one member. */
  lemma MemberStep(b: Books, now: Revision, rows: Resolved, a: map<Key, Id>, v: Revision, r: Id)
    requires Sound(b, now) && a.Keys == ComponentsOf(rows) && now < v && (r in b.members || r in rows)
    ensures r in rows ==> rows[r].component in a
    ensures r in NextMembers(b, rows, a, v)
    ensures var m := NextMembers(b, rows, a, v)[r];
      && m.record == r
      && (m.active <==> r in rows)
      && (r in rows ==> m.identity == a[rows[r].component] && m.key == rows[r].key)
      && (r !in rows ==> m.identity == b.members[r].identity)
      && (r in b.members ==> m.first == b.members[r].first)
      && m.first <= m.last <= v
  {
    if r in rows { assert rows[r].component in ComponentsOf(rows); }
  }

  lemma MemberKeepsActive(b: Books, now: Revision, rows: Resolved, a: map<Key, Id>, v: Revision, x: Id)
    requires Sound(b, now) && Continuous(b, rows, a) && now < v
    requires x in NextRegistry(b, rows, a, v)
    ensures HasActiveMember(Published(b, rows, a, v), x) ==> NextRegistry(b, rows, a, v)[x].status.Active?
  {
    var n := Published(b, rows, a, v);
    if HasActiveMember(n, x) {
      var r :| r in n.members && n.members[r].active && n.members[r].identity == x;
      MemberStep(b, now, rows, a, v, r);
      AssignedActive(b, now, rows, a, v, rows[r].component);
    }
  }

  lemma NextMembersSound(b: Books, now: Revision, rows: Resolved, a: map<Key, Id>, v: Revision)
    requires Sound(b, now) && Continuous(b, rows, a) && now < v
    ensures MembersSound(Published(b, rows, a, v), v) && Filed(Published(b, rows, a, v))
  {
    var n := Published(b, rows, a, v);
    forall r {:trigger n.members[r]} | r in n.members
      ensures n.members[r].identity in n.registry && n.members[r].first <= n.members[r].last <= v
        && n.members[r].record == r
    {
      MemberStep(b, now, rows, a, v, r);
    }
    forall x | x in n.registry ensures n.registry[x].id == x {
      if x in b.registry { IdentityStep(b, now, rows, a, v, x); }
    }
  }

  // ---- what a publication adds to the history ----

  lemma NothingYet(b: Books, now: Revision, x: Id, v: Revision, c: Id)
    requires Sound(b, now) && now < v
    ensures Alias(x, c, v) !in b.aliases && Branch(x, c, v) !in b.splits
  {
    assert Moves(b, x, v, c) ==> MoveSound(b, now, x, v, c);
  }

  lemma NewAliasMeans(b: Books, now: Revision, rows: Resolved, a: map<Key, Id>, v: Revision, x: Id, c: Id)
    requires Sound(b, now) && Continuous(b, rows, a) && now < v
    ensures Alias(x, c, v) in Published(b, rows, a, v).aliases <==> Successors(b, rows, a, x) == {c} && c != x
  {
    var n := Published(b, rows, a, v);
    NothingYet(b, now, x, v, c);
    if Successors(b, rows, a, x) == {c} && c != x {
      var r := SuccessorFrom(b, rows, a, x, c);
      assert b.registry[x].status.Active?;
    }
  }

  lemma NewSplitMeans(b: Books, now: Revision, rows: Resolved, a: map<Key, Id>, v: Revision, x: Id, c: Id)
    requires Sound(b, now) && Continuous(b, rows, a) && now < v
    ensures Branch(x, c, v) in Published(b, rows, a, v).splits
       <==> |Successors(b, rows, a, x)| > 1 && c in Successors(b, rows, a, x)
  {
    NothingYet(b, now, x, v, c);
    if |Successors(b, rows, a, x)| > 1 && c in Successors(b, rows, a, x) {
      var r := SuccessorFrom(b, rows, a, x, c);
    }
  }

  /** The members of `x` move in publication `v` exactly when they do not all stay. */
  lemma NewMoves(b: Books, now: Revision, rows: Resolved, a: map<Key, Id>, v: Revision, x: Id, c: Id)
    requires Sound(b, now) && Continuous(b, rows, a) && now < v
    ensures Moves(Published(b, rows, a, v), x, v, c)
       <==> c in Successors(b, rows, a, x) && Successors(b, rows, a, x) != {x}
  {
    var succ := Successors(b, rows, a, x);
    NewAliasMeans(b, now, rows, a, v, x, c);
    NewSplitMeans(b, now, rows, a, v, x, c);
    if c in succ {
      assert |succ| == 1 ==> succ == {c} by { if |succ| == 1 { OnlyElement(succ, c); } }
      assert |succ| > 0;
    }
  }

  lemma OnlyElement<T>(s: set<T>, x: T)
    requires |s| == 1 && x in s
    ensures s == {x}
  {
    assert |s - {x}| == 0;
  }

  /** Earlier history is neither changed nor extended. */
  lemma OldMoves(b: Books, rows: Resolved, a: map<Key, Id>, v: Revision, x: Id, w: Revision, c: Id)
    requires a.Keys == ComponentsOf(rows) && w != v
    ensures Moves(Published(b, rows, a, v), x, w, c) <==> Moves(b, x, w, c)
  {
  }

  lemma NextAliasesSound(b: Books, now: Revision, rows: Resolved, a: map<Key, Id>, v: Revision)
    requires Sound(b, now) && Continuous(b, rows, a) && now < v
    ensures AliasesSound(Published(b, rows, a, v))
  {
    var n := Published(b, rows, a, v);
    forall p | p in n.aliases
      ensures p.source in n.registry && n.registry[p.source].status.Merged?
        && n.registry[p.source].retired == Some(p.revision)
    {
      AliasKept(b, now, rows, a, v, p);
    }
    forall p, q | p in n.aliases && q in n.aliases && p.source == q.source ensures p == q {
      AliasesAgree(b, now, rows, a, v, p, q);
    }
    forall x | x in n.registry && n.registry[x].status.Merged? ensures exists p | p in n.aliases :: p.source == x {
      MergedHasAlias(b, now, rows, a, v, x);
    }
  }

  lemma AliasesAgree(b: Books, now: Revision, rows: Resolved, a: map<Key, Id>, v: Revision, p: Alias, q: Alias)
    requires Sound(b, now) && Continuous(b, rows, a) && now < v
    requires p in Published(b, rows, a, v).aliases && q in Published(b, rows, a, v).aliases && p.source == q.source
    ensures p == q
  {
    AliasKept(b, now, rows, a, v, p);
    AliasKept(b, now, rows, a, v, q);
  }

  lemma AliasKept(b: Books, now: Revision, rows: Resolved, a: map<Key, Id>, v: Revision, p: Alias)
    requires Sound(b, now) && Continuous(b, rows, a) && now < v && p in Published(b, rows, a, v).aliases
    ensures var n := Published(b, rows, a, v);
      p.source in n.registry && n.registry[p.source].status.Merged? && n.registry[p.source].retired == Some(p.revision)
    ensures p in b.aliases || (p == Alias(p.source, p.target, v) && Successors(b, rows, a, p.source) == {p.target})
    ensures p !in b.aliases ==> p.source in b.registry && b.registry[p.source].status.Active?
  {
    if p in b.aliases {
      IdentityStep(b, now, rows, a, v, p.source);
    } else {
      NewAliasMeans(b, now, rows, a, v, p.source, p.target);
      var r := SuccessorFrom(b, rows, a, p.source, p.target);
      IdentityStep(b, now, rows, a, v, p.source);
    }
  }

  lemma MergedHasAlias(b: Books, now: Revision, rows: Resolved, a: map<Key, Id>, v: Revision, x: Id)
    requires Sound(b, now) && Continuous(b, rows, a) && now < v
    requires x in NextRegistry(b, rows, a, v) && NextRegistry(b, rows, a, v)[x].status.Merged?
    ensures exists p | p in Published(b, rows, a, v).aliases :: p.source == x
  {
    IdentityStep(b, now, rows, a, v, x);
    if b.registry[x].status.Merged? {
      var p :| p in b.aliases && p.source == x;
      assert p in Published(b, rows, a, v).aliases;
    } else {
      var c :| c in Successors(b, rows, a, x);
      OnlyElement(Successors(b, rows, a, x), c);
      NewAliasMeans(b, now, rows, a, v, x, c);
    }
  }

  lemma NextMoveSound(b: Books, now: Revision, rows: Resolved, a: map<Key, Id>, v: Revision, p: Id, w: Revision, c: Id)
    requires Sound(b, now) && Continuous(b, rows, a) && now < v && Moves(Published(b, rows, a, v), p, w, c)
    ensures MoveSound(Published(b, rows, a, v), v, p, w, c)
  {
    var n := Published(b, rows, a, v);
    if w == v {
      NewMoves(b, now, rows, a, v, p, c);
      NewMoves(b, now, rows, a, v, p, p);
      var r := SuccessorFrom(b, rows, a, p, c);
      IdentityStep(b, now, rows, a, v, p);
      AssignedActive(b, now, rows, a, v, rows[r].component);
    } else {
      OldMoves(b, rows, a, v, p, w, c);
      assert MoveSound(b, now, p, w, c);
      IdentityStep(b, now, rows, a, v, p);
      IdentityStep(b, now, rows, a, v, c);
      OldMoves(b, rows, a, v, p, w, p);
    }
  }

  lemma SplitHasMove(b: Books, now: Revision, rows: Resolved, a: map<Key, Id>, v: Revision, p: Id)
    requires Sound(b, now) && Continuous(b, rows, a) && now < v
    requires p in NextRegistry(b, rows, a, v) && NextRegistry(b, rows, a, v)[p].status.Split?
    ensures exists w, c :: NextRegistry(b, rows, a, v)[p].retired == Some(w) && Moves(Published(b, rows, a, v), p, w, c)
  {
    IdentityStep(b, now, rows, a, v, p);
    if b.registry[p].status.Split? {
      var w, c :| b.registry[p].retired == Some(w) && Moves(b, p, w, c);
      assert Moves(Published(b, rows, a, v), p, w, c);
    } else {
      var c :| c in Successors(b, rows, a, p);
      NewMoves(b, now, rows, a, v, p, c);
      assert Moves(Published(b, rows, a, v), p, v, c);
    }
  }

  lemma NextMovesSound(b: Books, now: Revision, rows: Resolved, a: map<Key, Id>, v: Revision)
    requires Sound(b, now) && Continuous(b, rows, a) && now < v
    ensures MovesSound(Published(b, rows, a, v), v)
  {
    var n := Published(b, rows, a, v);
    forall p, w, c | Moves(n, p, w, c) ensures MoveSound(n, v, p, w, c) {
      NextMoveSound(b, now, rows, a, v, p, w, c);
    }
    forall p | p in n.registry && n.registry[p].status.Split?
      ensures exists w, c :: n.registry[p].retired == Some(w) && Moves(n, p, w, c)
    {
      SplitHasMove(b, now, rows, a, v, p);
    }
  }

  /** A publication may be made at `v`: later than everything recorded, with ids the registry does not know. */
  ghost predicate Publishable(b: Books, now: Revision, p: Publication) {
    && now < p.revision && Fresh(b, p.rows, p.supply)
  }

  /** Every publication keeps the ledger invariant. */
  lemma NextSound(b: Books, now: Revision, p: Publication)
    requires Sound(b, now) && Publishable(b, now, p)
    ensures Sound(Step(b, p), p.revision)
  {
    var a := Assigned(b, p.rows, p.supply);
    AssignedContinuous(b, p.rows, p.supply);
    NextRegistrySound(b, now, p.rows, a, p.revision);
    NextMembersSound(b, now, p.rows, a, p.revision);
    NextAliasesSound(b, now, p.rows, a, p.revision);
    NextMovesSound(b, now, p.rows, a, p.revision);
  }

  // ---- the partition ----

  /** The active members are exactly the resolved records, grouped as the resolver grouped them. */
  ghost predicate Realises(b: Books, rows: Resolved) {
    && (forall r | r in rows :: r in b.members && b.members[r].active && b.members[r].key == rows[r].key)
    && (forall r | r in b.members && b.members[r].active :: r in rows)
    && (forall r, s | r in rows && s in rows ::
          b.members[r].identity == b.members[s].identity <==> rows[r].component == rows[s].component)
  }

  /** A publication realises the resolved partition. */
  lemma NextRealises(b: Books, now: Revision, p: Publication)
    requires Sound(b, now) && Publishable(b, now, p)
    ensures Realises(Step(b, p), p.rows)
  {
    var a := Assigned(b, p.rows, p.supply);
    AssignedContinuous(b, p.rows, p.supply);
    var n := Published(b, p.rows, a, p.revision);
    forall r | r in p.rows || (r in n.members && n.members[r].active)
      ensures r in p.rows && r in n.members && n.members[r].active && n.members[r].key == p.rows[r].key
      ensures p.rows[r].component in a && n.members[r].identity == a[p.rows[r].component]
    {
      MemberStep(b, now, p.rows, a, p.revision, r);
    }
  }

  /** A component anchored by any identities keeps the least of them by (created revision, id);
      every other component gets an id the registry never held. */
  lemma OldestClaimantKept(b: Books, now: Revision, p: Publication, r: Id)
    requires Sound(b, now) && Publishable(b, now, p) && r in p.rows
    ensures var n := Step(b, p); var k := p.rows[r].component;
      && r in n.members
      && (forall x | Anchored(b, p.rows, x, k) ::
            && Anchored(b, p.rows, n.members[r].identity, k)
            && LexLe(IdentityRank(b.registry[n.members[r].identity]), IdentityRank(b.registry[x])))
      && ((forall x :: !Anchored(b, p.rows, x, k)) ==> n.members[r].identity !in b.registry)
  {
    forall x | Anchored(b, p.rows, x, p.rows[r].component) ensures Claimed(b, p.rows, p.rows[r].component) {
      ClaimantExists(b, p.rows, x, p.rows[r].component);
    }
    var a := Assigned(b, p.rows, p.supply);
    MemberStep(b, now, p.rows, a, p.revision, r);
    AssignedKinds(b, p.rows, p.supply, p.rows[r].component);
  }

  /** `later` extends the history of `b`: nothing recorded is lost, and what has ended stays ended. */
  ghost predicate Extends(b: Books, later: Books) {
    && (forall x | x in b.registry :: x in later.registry && later.registry[x].created == b.registry[x].created
          && (!b.registry[x].status.Active? ==> later.registry[x] == b.registry[x]))
    && (forall r | r in b.members :: r in later.members && later.members[r].first == b.members[r].first)
    && b.aliases <= later.aliases && b.splits <= later.splits
  }

  /** Merged, split and retired are final, and no row of the history is ever lost. */
  lemma NextExtends(b: Books, now: Revision, p: Publication)
    requires Sound(b, now) && Publishable(b, now, p)
    ensures Extends(b, Step(b, p))
  {
    var a := Assigned(b, p.rows, p.supply);
    AssignedContinuous(b, p.rows, p.supply);
    var n := Published(b, p.rows, a, p.revision);
    forall x | x in b.registry
      ensures x in n.registry && n.registry[x].created == b.registry[x].created
      ensures !b.registry[x].status.Active? ==> n.registry[x] == b.registry[x]
    {
      IdentityStep(b, now, p.rows, a, p.revision, x);
    }
    forall r | r in b.members ensures r in n.members && n.members[r].first == b.members[r].first {
      MemberStep(b, now, p.rows, a, p.revision, r);
    }
  }

  // ---- runs ----

  const EMPTY := Books(map[], map[], {}, {})

  ghost function Step(b: Books, p: Publication): Books {
    Next(b, p.rows, p.revision, p.supply)
  }

  ghost function After(b: Books, run: seq<Publication>): Books
    decreases |run|
  {
    if run == [] then b else After(Step(b, run[0]), run[1..])
  }

  /** Publications made one after the other, each at a later revision. */
  ghost predicate ValidRun(b: Books, now: Revision, run: seq<Publication>)
    decreases |run|
  {
    run == [] || (Publishable(b, now, run[0])
                  && ValidRun(Step(b, run[0]), run[0].revision, run[1..]))
  }

  function LastRevision(now: Revision, run: seq<Publication>): Revision {
    if run == [] then now else run[|run| - 1].revision
  }

  lemma ExtendsTrans(a: Books, b: Books, c: Books)
    requires Extends(a, b) && Extends(b, c)
    ensures Extends(a, c)
  {
  }

  /** The ledger invariant holds after every run. */
  lemma {:induction false} RunSound(b: Books, now: Revision, run: seq<Publication>)
    requires Sound(b, now) && ValidRun(b, now, run)
    ensures Sound(After(b, run), LastRevision(now, run))
    decreases |run|
  {
    if run != [] {
      NextSound(b, now, run[0]);
      RunSound(Step(b, run[0]), run[0].revision, run[1..]);
    }
  }

  /** A run only adds to the history. */
  lemma {:induction false} RunExtends(b: Books, now: Revision, run: seq<Publication>)
    requires Sound(b, now) && ValidRun(b, now, run)
    ensures Extends(b, After(b, run))
    decreases |run|
  {
    if run != [] {
      NextSound(b, now, run[0]);
      NextExtends(b, now, run[0]);
      RunExtends(Step(b, run[0]), run[0].revision, run[1..]);
      ExtendsTrans(b, Step(b, run[0]), After(b, run));
    }
  }

  lemma AfterOne(b: Books, run: seq<Publication>)
    requires |run| == 1
    ensures After(b, run) == Step(b, run[0])
  {
    assert run[1..] == [];
  }

  /** After a run the ledger realises the partition resolved last. */
  lemma {:induction false} RunRealises(b: Books, now: Revision, run: seq<Publication>)
    requires Sound(b, now) && ValidRun(b, now, run) && run != []
    ensures Realises(After(b, run), run[|run| - 1].rows)
    decreases |run|
  {
    if |run| == 1 {
      NextRealises(b, now, run[0]);
      AfterOne(b, run);
    } else {
      NextSound(b, now, run[0]);
      RunRealises(Step(b, run[0]), run[0].revision, run[1..]);
    }
  }

  /** In particular it holds after every run from the empty ledger. */
  lemma LedgerSound(run: seq<Publication>)
    requires ValidRun(EMPTY, 0, run)
    ensures Sound(After(EMPTY, run), LastRevision(0, run))
  {
    RunSound(EMPTY, 0, run);
  }
}
