/** One publication in plain words: which identity each component carries, and every row of the four
    tables, said of the books before and after it alone. */
module IdentityLaws {
  import opened Prelude
  import opened Sorting
  import opened Types
  import opened ResolverSpec
  import opened IdentitySpec
  import opened IdentityLedger
  import opened IdentityAliases
  import opened Identities

  /** `s` was an active member of `x`, and the resolver knows it still. */
  predicate Stays(b: Books, p: Publication, x: Id, s: Id) {
    s in b.members && b.members[s].active && b.members[s].identity == x && s in p.rows
  }

  /** First seen earlier; in one revision, of the lesser key; of one key, the lesser record. */
  predicate Earlier(m: Member, w: Member) {
    || m.first < w.first
    || (m.first == w.first && m.key < w.key)
    || (m.first == w.first && m.key == w.key && m.record <= w.record)
  }

  predicate Older(x: IdentityRecord, y: IdentityRecord) {
    x.created < y.created || (x.created == y.created && x.id <= y.id)
  }

  /** `s` is the earliest of the members of `x` that stay. */
  ghost predicate Leads(b: Books, p: Publication, x: Id, s: Id) {
    Stays(b, p, x, s) && forall t | Stays(b, p, x, t) :: Earlier(b.members[s], b.members[t])
  }

  /** The earliest staying member of `x` lies in component `k`. */
  ghost predicate Contends(b: Books, p: Publication, k: Key, x: Id) {
    x in b.registry && exists s :: Leads(b, p, x, s) && p.rows[s].component == k
  }

  /** No identity contending for `k` is older than `x`. */
  ghost predicate Prevails(b: Books, p: Publication, k: Key, x: Id) {
    Contends(b, p, k, x) && forall y | Contends(b, p, k, y) :: Older(b.registry[x], b.registry[y])
  }

  ghost predicate Contended(b: Books, p: Publication, k: Key) {
    exists x :: Contends(b, p, k, x)
  }

  /** The components before `k` for which no identity contends. */
  ghost function UncontendedBefore(b: Books, p: Publication, k: Key): set<Key> {
    set r | r in p.rows && p.rows[r].component < k && !Contended(b, p, p.rows[r].component) :: p.rows[r].component
  }

  // ---- which identity a component carries ----

  lemma RanksMean(m: Member, w: Member, x: IdentityRecord, y: IdentityRecord)
    ensures LexLe(AnchorRank(m), AnchorRank(w)) <==> Earlier(m, w)
    ensures LexLe(IdentityRank(x), IdentityRank(y)) <==> Older(x, y)
  {
    LexTriple(m.first, m.key, m.record, w.first, w.key, w.record);
    LexPair(x.id, y.id, [], []);
    LexPair(x.created, y.created, [x.id], [y.id]);
    assert IdentityRank(x) == [x.created] + [x.id] && IdentityRank(y) == [y.created] + [y.id];
    assert [x.id] == [x.id] + [] && [y.id] == [y.id] + [];
  }

  lemma LeadsMeans(b: Books, p: Publication, x: Id, s: Id)
    ensures Leads(b, p, x, s) <==> IsAnchor(b, p.rows, x, s)
  {
    forall t: Id | Stays(b, p, x, s) && Stays(b, p, x, t)
      ensures LexLe(AnchorRank(b.members[s]), AnchorRank(b.members[t])) <==> Earlier(b.members[s], b.members[t])
    {
      RanksMean(b.members[s], b.members[t], IdentityRecord(0, 0, None, Active), IdentityRecord(0, 0, None, Active));
    }
  }

  lemma ContendsMeans(b: Books, p: Publication, k: Key, x: Id)
    ensures Contends(b, p, k, x) <==> Anchored(b, p.rows, x, k)
  {
    forall s: Id ensures Leads(b, p, x, s) <==> IsAnchor(b, p.rows, x, s) {
      LeadsMeans(b, p, x, s);
    }
  }

  lemma PrevailsMeans(b: Books, p: Publication, k: Key, x: Id)
    ensures Prevails(b, p, k, x) <==> IsClaimant(b, p.rows, k, x)
  {
    var some := Member(0, 0, 0, true, 0, 0, "", 0);
    forall y: Id ensures Contends(b, p, k, y) <==> Anchored(b, p.rows, y, k) {
      ContendsMeans(b, p, k, y);
    }
    forall y: Id | x in b.registry && y in b.registry
      ensures LexLe(IdentityRank(b.registry[x]), IdentityRank(b.registry[y])) <==> Older(b.registry[x], b.registry[y])
    {
      RanksMean(some, some, b.registry[x], b.registry[y]);
    }
  }

  lemma ContendedMeans(b: Books, p: Publication, k: Key)
    ensures Contended(b, p, k) <==> Claimed(b, p.rows, k)
  {
    if x: Id :| Contends(b, p, k, x) {
      ContendsMeans(b, p, k, x);
      ClaimantExists(b, p.rows, x, k);
    }
    if x: Id :| IsClaimant(b, p.rows, k, x) {
      ContendsMeans(b, p, k, x);
    }
  }

  lemma UncontendedMeans(b: Books, p: Publication, k: Key)
    ensures UncontendedBefore(b, p, k) == NewBelow(b, p.rows, k)
  {
    forall j: Key ensures Contended(b, p, j) <==> Claimed(b, p.rows, j) {
      ContendedMeans(b, p, j);
    }
    forall j: Key ensures j in UncontendedBefore(b, p, k) <==> j in NewBelow(b, p.rows, k) {
      if j in NewBelow(b, p.rows, k) {
        var r :| r in p.rows && p.rows[r].component == j;
      }
    }
  }

  /** A record carries a known identity exactly when the earliest staying member of that identity is
      in the record's component and no older identity can say the same; a component that no identity
      contends for gets the next id supplied, in the order of the components. */
  lemma IdentityFollowsEarliest(b: Books, now: Revision, p: Publication, r: Id)
    requires Sound(b, now) && Publishable(b, now, p) && r in p.rows
    ensures var n := Step(b, p); var k := p.rows[r].component;
      && r in n.members
      && (forall x | x in b.registry :: n.members[r].identity == x <==> Prevails(b, p, k, x))
      && (n.members[r].identity !in b.registry <==> !Contended(b, p, k))
      && (!Contended(b, p, k) ==> n.members[r].identity == p.supply(|UncontendedBefore(b, p, k)|))
  {
    var k := p.rows[r].component;
    var a := Assigned(b, p.rows, p.supply);
    MemberStep(b, now, p.rows, a, p.revision, r);
    AssignedKinds(b, p.rows, p.supply, k);
    ContendedMeans(b, p, k);
    UncontendedMeans(b, p, k);
    forall x | x in b.registry ensures a[k] == x <==> Prevails(b, p, k, x) {
      PrevailsMeans(b, p, k, x);
      if Prevails(b, p, k, x) { ClaimantUnique(b, p.rows, k, x, a[k]); }
    }
  }

  /** When the members of an identity part, only the component of its earliest member can keep it. */
  lemma SplitKeepsEarliest(b: Books, now: Revision, p: Publication, x: Id, r: Id) returns (s: Id)
    requires Sound(b, now) && Publishable(b, now, p) && r in p.rows && x in b.registry
    requires r in Step(b, p).members && Step(b, p).members[r].identity == x
    ensures Stays(b, p, x, s) && p.rows[s].component == p.rows[r].component
    ensures forall t | Stays(b, p, x, t) ::
      var m := b.members[s];
      var w := b.members[t];
      m.first <= w.first && (m.first == w.first ==> m.key <= w.key && (m.key == w.key ==> s <= t))
  {
    IdentityFollowsEarliest(b, now, p, r);
    s :| Leads(b, p, x, s) && p.rows[s].component == p.rows[r].component;
    forall t | Stays(b, p, x, t) ensures b.members[t].record == t && Earlier(b.members[s], b.members[t]) {
    }
  }

  // ---- the four tables ----

  /** A member of `x` that stays is found under `c` afterwards. */
  ghost predicate Reaches(b: Books, p: Publication, n: Books, x: Id, c: Id) {
    exists s :: Stays(b, p, x, s) && s in n.members && n.members[s].identity == c
  }

  /** Members of `x` that stay are found under two identities. */
  ghost predicate Parts(b: Books, p: Publication, n: Books, x: Id) {
    exists c, d :: Reaches(b, p, n, x, c) && Reaches(b, p, n, x, d) && c != d
  }

  /** An active identity: retired when no member stays, unchanged when some stay with it, otherwise
      split or merged as those who stay part or keep together. */
  ghost predicate RowLaw(b: Books, p: Publication, n: Books, x: Id)
    requires x in b.registry
  {
    var ended := (s: Status) => IdentityRecord(x, b.registry[x].created, Some(p.revision), s);
    x in n.registry && n.registry[x] ==
      if !b.registry[x].status.Active? then b.registry[x]
      else if Reaches(b, p, n, x, x) then IdentityRecord(x, b.registry[x].created, None, Active)
      else if Parts(b, p, n, x) then ended(Split)
      else if exists s :: Stays(b, p, x, s) then ended(Merged)
      else ended(Retired)
  }

  /** A newcomer is new; one that stays keeps its first revision, and its last too unless it changes
      identity; one no longer resolved is removed in this revision, and one long gone stays as it was. */
  ghost predicate MemberLaw(b: Books, p: Publication, m: Member, r: Id)
    requires r in b.members || r in p.rows
  {
    var v := p.revision;
    if r !in b.members then m == Member(r, p.rows[r].key, m.identity, true, v, v, "new", v)
    else
      var o := b.members[r];
      if r in p.rows then
        var k := p.rows[r].key;
        if !o.active then m == Member(r, k, m.identity, true, o.first, v, "reactivated", v)
        else if m.identity != o.identity then m == Member(r, k, m.identity, true, o.first, v, "reconciled", v)
        else m == Member(r, k, o.identity, true, o.first, o.last, o.reason, o.changed)
      else if o.active then m == Member(r, o.key, o.identity, false, o.first, v, "removed", v)
      else m == o
  }

  ghost predicate AliasLaw(b: Books, p: Publication, n: Books, e: Alias) {
    e in n.aliases <==> (
      || e in b.aliases
      || (e.revision == p.revision && e.source != e.target && Reaches(b, p, n, e.source, e.target)
          && !Parts(b, p, n, e.source)))
  }

  ghost predicate BranchLaw(b: Books, p: Publication, n: Books, e: Branch) {
    e in n.splits <==> (
      || e in b.splits
      || (e.revision == p.revision && Parts(b, p, n, e.parent) && Reaches(b, p, n, e.parent, e.child)))
  }

  lemma ReachesMeans(b: Books, now: Revision, p: Publication, a: map<Key, Id>, x: Id, c: Id)
    requires Sound(b, now) && Continuous(b, p.rows, a) && now < p.revision
    ensures Reaches(b, p, Published(b, p.rows, a, p.revision), x, c) <==> c in Successors(b, p.rows, a, x)
  {
    var n := Published(b, p.rows, a, p.revision);
    if s: Id :| Stays(b, p, x, s) && s in n.members && n.members[s].identity == c {
      MemberStep(b, now, p.rows, a, p.revision, s);
      SuccessorOf(b, p.rows, a, s);
    }
    if c in Successors(b, p.rows, a, x) {
      var s := SuccessorFrom(b, p.rows, a, x, c);
      MemberStep(b, now, p.rows, a, p.revision, s);
      assert Stays(b, p, x, s);
    }
  }

  lemma SeveralMeans(s: set<Id>)
    ensures |s| > 1 <==> exists c, d :: c in s && d in s && c != d
  {
    if |s| > 1 {
      var c :| c in s;
      assert |s - {c}| > 0;
      var d :| d in s - {c};
      assert d in s;
    } else if |s| == 1 {
      var c :| c in s;
      OnlyElement(s, c);
    }
  }

  lemma PartsMeans(b: Books, now: Revision, p: Publication, a: map<Key, Id>, x: Id)
    requires Sound(b, now) && Continuous(b, p.rows, a) && now < p.revision
    ensures Parts(b, p, Published(b, p.rows, a, p.revision), x) <==> |Successors(b, p.rows, a, x)| > 1
  {
    forall c: Id ensures Reaches(b, p, Published(b, p.rows, a, p.revision), x, c) <==> c in Successors(b, p.rows, a, x)
    {
      ReachesMeans(b, now, p, a, x, c);
    }
    SeveralMeans(Successors(b, p.rows, a, x));
  }

  lemma RowFollows(b: Books, now: Revision, p: Publication, a: map<Key, Id>, x: Id)
    requires Sound(b, now) && Continuous(b, p.rows, a) && now < p.revision && x in b.registry
    ensures RowLaw(b, p, Published(b, p.rows, a, p.revision), x)
  {
    var n := Published(b, p.rows, a, p.revision);
    var succ := Successors(b, p.rows, a, x);
    ReachesMeans(b, now, p, a, x, x);
    PartsMeans(b, now, p, a, x);
    if succ != {} {
      var c :| c in succ;
      var s := SuccessorFrom(b, p.rows, a, x, c);
      assert Stays(b, p, x, s);
    }
    if s: Id :| Stays(b, p, x, s) {
      SuccessorOf(b, p.rows, a, s);
    }
  }

  lemma MemberFollows(b: Books, now: Revision, p: Publication, a: map<Key, Id>, r: Id)
    requires Sound(b, now) && Continuous(b, p.rows, a) && now < p.revision && (r in b.members || r in p.rows)
    ensures r in Published(b, p.rows, a, p.revision).members
    ensures MemberLaw(b, p, Published(b, p.rows, a, p.revision).members[r], r)
  {
    MemberStep(b, now, p.rows, a, p.revision, r);
  }

  lemma AliasFollows(b: Books, now: Revision, p: Publication, a: map<Key, Id>, e: Alias)
    requires Sound(b, now) && Continuous(b, p.rows, a) && now < p.revision
    ensures AliasLaw(b, p, Published(b, p.rows, a, p.revision), e)
  {
    var succ := Successors(b, p.rows, a, e.source);
    ReachesMeans(b, now, p, a, e.source, e.target);
    PartsMeans(b, now, p, a, e.source);
    NewAliasMeans(b, now, p.rows, a, p.revision, e.source, e.target);
    if e.target in succ && |succ| <= 1 {
      OnlyElement(succ, e.target);
    }
  }

  lemma BranchFollows(b: Books, now: Revision, p: Publication, a: map<Key, Id>, e: Branch)
    requires Sound(b, now) && Continuous(b, p.rows, a) && now < p.revision
    ensures BranchLaw(b, p, Published(b, p.rows, a, p.revision), e)
  {
    ReachesMeans(b, now, p, a, e.parent, e.child);
    PartsMeans(b, now, p, a, e.parent);
    NewSplitMeans(b, now, p.rows, a, p.revision, e.parent, e.child);
  }

  /** An identity the registry did not know is the one of some resolved record, created now. */
  ghost predicate NewcomerLaw(b: Books, p: Publication, n: Books, x: Id)
    requires x !in b.registry
  {
    && (x in n.registry <==> exists r :: r in p.rows && r in n.members && n.members[r].identity == x)
    && (x in n.registry ==> n.registry[x] == IdentityRecord(x, p.revision, None, Active))
  }

  lemma NewcomerFollows(b: Books, now: Revision, p: Publication, a: map<Key, Id>, x: Id)
    requires Sound(b, now) && Continuous(b, p.rows, a) && now < p.revision && x !in b.registry
    ensures NewcomerLaw(b, p, Published(b, p.rows, a, p.revision), x)
  {
    var n := Published(b, p.rows, a, p.revision);
    if x in n.registry {
      var k :| k in a && a[k] == x;
      var r :| r in p.rows && p.rows[r].component == k;
      MemberStep(b, now, p.rows, a, p.revision, r);
    }
    if r: Id :| r in p.rows && r in n.members && n.members[r].identity == x {
      MemberStep(b, now, p.rows, a, p.revision, r);
      assert a[p.rows[r].component] in a.Values;
    }
  }

  /** Every row of the four tables after a publication. */
  lemma PublicationExplained(b: Books, now: Revision, p: Publication)
    requires Sound(b, now) && Publishable(b, now, p)
    ensures forall x | x in b.registry :: RowLaw(b, p, Step(b, p), x)
    ensures forall x | x !in b.registry :: NewcomerLaw(b, p, Step(b, p), x)
    ensures forall r :: r in Step(b, p).members <==> r in b.members || r in p.rows
    ensures forall r | r in Step(b, p).members :: MemberLaw(b, p, Step(b, p).members[r], r)
    ensures forall e :: AliasLaw(b, p, Step(b, p), e)
    ensures forall e :: BranchLaw(b, p, Step(b, p), e)
  {
    var a := Assigned(b, p.rows, p.supply);
    AssignedContinuous(b, p.rows, p.supply);
    var n := Published(b, p.rows, a, p.revision);
    forall x: Id | x in b.registry ensures RowLaw(b, p, n, x) { RowFollows(b, now, p, a, x); }
    forall x: Id | x !in b.registry ensures NewcomerLaw(b, p, n, x) { NewcomerFollows(b, now, p, a, x); }
    forall r: Id | r in n.members ensures MemberLaw(b, p, n.members[r], r) { MemberFollows(b, now, p, a, r); }
    forall e: Alias ensures AliasLaw(b, p, n, e) { AliasFollows(b, now, p, a, e); }
    forall e: Branch ensures BranchLaw(b, p, n, e) { BranchFollows(b, now, p, a, e); }
  }

  // ---- the ledger as lists ----

  /** Two aliases name one source only if they are the same row. */
  ghost predicate OneAliasEach(aliases: seq<Alias>) {
    forall i, j | 0 <= i < |aliases| && 0 <= j < |aliases| && aliases[i].source == aliases[j].source :: i == j
  }

  /** Following aliases from `x` comes to an id that is no alias. */
  ghost predicate ComesToAnEnd(aliases: seq<Alias>, x: Id) {
    exists p :: p != [] && p[0] == x && FollowsAliases(aliases, p)
  }

  ghost predicate FollowsAliases(aliases: seq<Alias>, p: seq<Id>)
    requires p != []
  {
    && (forall i: nat | i < |p| - 1 :: Points(aliases, p[i], p[i + 1]))
    && (forall a | a in aliases :: a.source != p[|p| - 1])
  }

  ghost predicate Points(aliases: seq<Alias>, x: Id, y: Id) {
    exists a :: a in aliases && a.source == x && a.target == y
  }

  lemma TargetIs(aliases: seq<Alias>, x: Id, y: Id)
    requires SingleTargets(aliases)
    ensures x in Targets(aliases) && Targets(aliases)[x] == y <==> Points(aliases, x, y)
  {
    OneTarget(aliases);
  }

  lemma ChainFollows(aliases: seq<Alias>, p: seq<Id>)
    requires SingleTargets(aliases) && p != []
    ensures ChainTo(Targets(aliases), p, p[0], p[|p| - 1]) <==> FollowsAliases(aliases, p)
  {
    var m := Targets(aliases);
    OneTarget(aliases);
    if FollowsAliases(aliases, p) {
      forall i: nat | i < |p| - 1 ensures p[i] in m && m[p[i]] == p[i + 1] {
        assert Points(aliases, p[i], p[i + 1]);
        TargetIs(aliases, p[i], p[i + 1]);
      }
    }
    if Chain(m, p) {
      forall i: nat | i < |p| - 1 ensures Points(aliases, p[i], p[i + 1]) {
        assert p[i] in m;
        TargetIs(aliases, p[i], p[i + 1]);
      }
    }
  }

  lemma EndMeans(aliases: seq<Alias>, x: Id)
    requires SingleTargets(aliases)
    ensures AliasEnd(aliases, x).Ok? <==> ComesToAnEnd(aliases, x)
  {
    if AliasEnd(aliases, x).Ok? {
      ResolvesAlongChain(aliases, x, AliasEnd(aliases, x).value);
      var p :| ChainTo(Targets(aliases), p, x, AliasEnd(aliases, x).value);
      ChainFollows(aliases, p);
    }
    if p :| p != [] && p[0] == x && FollowsAliases(aliases, p) {
      ChainFollows(aliases, p);
      ResolvesAlongChain(aliases, x, p[|p| - 1]);
    }
  }

  ghost predicate IsActive(registry: seq<IdentityRecord>, x: Id) {
    exists i :: 0 <= i < |registry| && registry[i].id == x && registry[i].status == Active
  }

  ghost predicate IsListed(registry: seq<IdentityRecord>, x: Id) {
    exists i :: 0 <= i < |registry| && registry[i].id == x
  }

  ghost predicate MembersFit(l: Ledger) {
    && (forall i, j | 0 <= i < j < |l.members| :: l.members[i].record != l.members[j].record)
    && (forall m | m in l.members ::
          if m.active then IsActive(l.registry, m.identity) else IsListed(l.registry, m.identity))
  }

  ghost predicate AliasesFit(l: Ledger) {
    && OneAliasEach(l.aliases)
    && (forall a | a in l.aliases :: a.source != a.target && ComesToAnEnd(l.aliases, a.source))
    && (forall a | a in l.aliases :: IsListed(l.registry, a.source) && IsListed(l.registry, a.target))
  }

  lemma ListedIs(registry: seq<IdentityRecord>, x: Id)
    requires DistinctBy(registry, ById())
    ensures IsListed(registry, x) <==> x in TableBy(registry, ById())
    ensures IsActive(registry, x) <==>
      x in TableBy(registry, ById()) && TableBy(registry, ById())[x].status.Active?
  {
    var table := TableBy(registry, ById());
    OneForKey(registry, ById());
    forall i | 0 <= i < |registry| ensures registry[i].id in table && table[registry[i].id] == registry[i] {
      assert registry[i] in registry && ById()(registry[i]) == registry[i].id;
    }
    if x in table {
      var row :| row in registry && ById()(row) == x;
      var i :| 0 <= i < |registry| && registry[i] == row;
    }
  }

  lemma SingleTargetsMean(aliases: seq<Alias>)
    ensures SingleTargets(aliases) <==> OneAliasEach(aliases) && forall a | a in aliases :: a.source != a.target
  {
    forall i | 0 <= i < |aliases| ensures aliases[i] in aliases {
    }
  }

  lemma AliasesFitIs(l: Ledger)
    requires DistinctBy(l.registry, ById())
    ensures AliasesValid(l.aliases, TableBy(l.registry, ById())) <==> AliasesFit(l)
  {
    forall x: Id
      ensures IsListed(l.registry, x) <==> x in TableBy(l.registry, ById())
      ensures IsActive(l.registry, x) <==>
        x in TableBy(l.registry, ById()) && TableBy(l.registry, ById())[x].status.Active?
    {
      ListedIs(l.registry, x);
    }
    SingleTargetsMean(l.aliases);
    if SingleTargets(l.aliases) {
      forall x: Id ensures AliasEnd(l.aliases, x).Ok? <==> ComesToAnEnd(l.aliases, x) { EndMeans(l.aliases, x); }
    }
  }

  lemma MembersFitIs(l: Ledger)
    requires DistinctBy(l.registry, ById())
    ensures DistinctBy(l.members, ByRecord()) && MembersChecked(l.members, TableBy(l.registry, ById())) <==>
      MembersFit(l)
  {
    forall x: Id
      ensures IsListed(l.registry, x) <==> x in TableBy(l.registry, ById())
      ensures IsActive(l.registry, x) <==>
        x in TableBy(l.registry, ById()) && TableBy(l.registry, ById())[x].status.Active?
    {
      ListedIs(l.registry, x);
    }
  }

  /** A ledger is accepted for publication exactly when no id and no record is listed twice, members
      belong to listed identities, active ones to active identities, and every alias is the only one of
      its source, joins two listed identities, and leads to an end. */
  lemma LoadingExplained(l: Ledger)
    ensures Loadable(l) <==>
      && (forall i, j | 0 <= i < j < |l.registry| :: l.registry[i].id != l.registry[j].id)
      && MembersFit(l) && AliasesFit(l)
  {
    if DistinctBy(l.registry, ById()) {
      MembersFitIs(l);
      AliasesFitIs(l);
    }
  }

  predicate MemberBefore(m: Member, w: Member) {
    m.key < w.key || (m.key == w.key && m.record <= w.record)
  }

  predicate AliasBefore(a: Alias, c: Alias) {
    || a.source < c.source
    || (a.source == c.source && (a.revision < c.revision || (a.revision == c.revision && a.target <= c.target)))
  }

  predicate SplitBefore(a: Branch, c: Branch) {
    || a.parent < c.parent
    || (a.parent == c.parent && (a.revision < c.revision || (a.revision == c.revision && a.child <= c.child)))
  }

  lemma OrdersMean(r: IdentityRecord, s: IdentityRecord, m: Member, w: Member, a: Alias, c: Alias, d: Branch,
      e: Branch)
    ensures LexLe(RegistryOrder(r), RegistryOrder(s)) <==> r.id <= s.id
    ensures LexLe(MemberOrder(m), MemberOrder(w)) <==> MemberBefore(m, w)
    ensures LexLe(AliasOrder(a), AliasOrder(c)) <==> AliasBefore(a, c)
    ensures LexLe(SplitOrder(d), SplitOrder(e)) <==> SplitBefore(d, e)
  {
    PairInOrder(r.id, 0, s.id, 0);
    PairInOrder(m.key, m.record, w.key, w.record);
    LexTriple(a.source, a.revision, a.target, c.source, c.revision, c.target);
    LexTriple(d.parent, d.revision, d.child, e.parent, e.revision, e.child);
  }

  /** The lists published hold exactly the rows of the books: identities by id, members by key and
      record, aliases and splits by the identity left, the revision and the identity reached. */
  lemma ListsExplained(l: Ledger, b: Books)
    requires Lists(l, b)
    ensures Elements(l.registry) == b.registry.Values && Elements(l.members) == b.members.Values
    ensures Elements(l.aliases) == b.aliases && Elements(l.splits) == b.splits
    ensures forall i, j | 0 <= i < j < |l.registry| :: l.registry[i].id <= l.registry[j].id
    ensures forall i, j | 0 <= i < j < |l.members| :: MemberBefore(l.members[i], l.members[j])
    ensures forall i, j | 0 <= i < j < |l.aliases| :: AliasBefore(l.aliases[i], l.aliases[j])
    ensures forall i, j | 0 <= i < j < |l.splits| :: SplitBefore(l.splits[i], l.splits[j])
  {
    var row, m := IdentityRecord(0, 0, None, Active), Member(0, 0, 0, true, 0, 0, "", 0);
    var a, e := Alias(0, 0, 0), Branch(0, 0, 0);
    forall i, j | 0 <= i < j < |l.registry| ensures l.registry[i].id <= l.registry[j].id {
      OrdersMean(l.registry[i], l.registry[j], m, m, a, a, e, e);
    }
    forall i, j | 0 <= i < j < |l.members| ensures MemberBefore(l.members[i], l.members[j]) {
      OrdersMean(row, row, l.members[i], l.members[j], a, a, e, e);
    }
    forall i, j | 0 <= i < j < |l.aliases| ensures AliasBefore(l.aliases[i], l.aliases[j]) {
      OrdersMean(row, row, m, m, l.aliases[i], l.aliases[j], e, e);
    }
    forall i, j | 0 <= i < j < |l.splits| ensures SplitBefore(l.splits[i], l.splits[j]) {
      OrdersMean(row, row, m, m, a, a, l.splits[i], l.splits[j]);
    }
  }

  lemma PairInOrder(a: int, b: int, x: int, y: int)
    ensures LexLe([a, b], [x, y]) <==> a < x || (a == x && b <= y)
    ensures LexLe([a], [x]) <==> a <= x
  {
    LexPair(a, x, [], []);
    LexPair(b, y, [], []);
    LexPair(a, x, [b], [y]);
    assert [a, b] == [a] + [b] && [x, y] == [x] + [y];
    assert [a] == [a] + [] && [x] == [x] + [] && [b] == [b] + [] && [y] == [y] + [];
  }
}
