/** The identity ledger as it runs: loops over maps and lists, tied to one publication step. */
module Identities {
  import opened Prelude
  import opened Sorting
  import opened Types
  import opened ResolverSpec
  import opened IdentitySpec
  import opened IdentityLedger
  import opened IdentityLineage
  import opened IdentityAliases

  /** The tables as the lists that are loaded and returned. */
  datatype Ledger = Ledger(registry: seq<IdentityRecord>, members: seq<Member>, aliases: seq<Alias>,
      splits: seq<Branch>)

  // ---- loading ----

  /** No two elements have the same key. */
  ghost predicate DistinctBy<T(!new)>(s: seq<T>, key: T -> Id) {
    forall i, j | 0 <= i < j < |s| :: key(s[i]) != key(s[j])
  }

  lemma OneForKey<T(!new)>(s: seq<T>, key: T -> Id)
    requires DistinctBy(s, key)
    ensures forall x, y | x in s && y in s && key(x) == key(y) :: x == y
  {
    forall x, y | x in s && y in s && key(x) == key(y) ensures x == y {
      var i :| 0 <= i < |s| && s[i] == x;
      var j :| 0 <= j < |s| && s[j] == y;
      assert key(s[i]) == key(s[j]);
    }
  }

  /** The elements filed under their keys. */
  ghost function TableBy<T(!new)>(s: seq<T>, key: T -> Id): map<Id, T>
    requires DistinctBy(s, key)
  {
    OneForKey(s, key);
    map x | x in s :: key(x) := x
  }

  lemma TableNext<T(!new)>(s: seq<T>, i: nat, key: T -> Id)
    requires i < |s| && DistinctBy(s[..i], key)
    ensures key(s[i]) in TableBy(s[..i], key) ==> !DistinctBy(s, key)
    ensures key(s[i]) !in TableBy(s[..i], key) ==>
      (DistinctBy(s[..i + 1], key) && TableBy(s[..i + 1], key) == TableBy(s[..i], key)[key(s[i]) := s[i]])
  {
    var seen, x := s[..i], s[i];
    assert s[..i + 1] == seen + [x];
    if key(x) in TableBy(seen, key) {
      var y :| y in seen && key(y) == key(x);
      var j :| 0 <= j < |seen| && seen[j] == y;
      assert s[j] == y;
    } else {
      forall y | y in seen ensures key(y) != key(x) { assert key(y) in TableBy(seen, key); }
      forall j | 0 <= j < i ensures key((seen + [x])[j]) != key(x) { assert seen[j] in seen; }
      OneForKey(seen + [x], key);
    }
  }

  function ById(): IdentityRecord -> Id { (r: IdentityRecord) => r.id }
  function ByRecord(): Member -> Id { (m: Member) => m.record }
  function ByRow(): Membership -> Id { (m: Membership) => m.id }

  predicate MemberValid(m: Member, registry: map<Id, IdentityRecord>) {
    m.identity in registry && (m.active ==> registry[m.identity].status.Active?)
  }

  method RegistryMap(rows: seq<IdentityRecord>) returns (r: Result<map<Id, IdentityRecord>, LedgerError>)
    ensures r == if DistinctBy(rows, ById()) then Ok(TableBy(rows, ById())) else Err(IdentityInvalid)
  {
    var registry: map<Id, IdentityRecord> := map[];
    for i := 0 to |rows|
      invariant DistinctBy(rows[..i], ById()) && registry == TableBy(rows[..i], ById())
    {
      TableNext(rows, i, ById());
      if rows[i].id in registry { return Err(IdentityInvalid); }
      registry := registry[rows[i].id := rows[i]];
    }
    assert rows[..|rows|] == rows;
    r := Ok(registry);
  }

  predicate MembersChecked(rows: seq<Member>, registry: map<Id, IdentityRecord>) {
    forall k: nat {:trigger rows[k]} | k < |rows| :: MemberValid(rows[k], registry)
  }

  method MembershipMap(rows: seq<Member>, registry: map<Id, IdentityRecord>)
    returns (r: Result<map<Id, Member>, LedgerError>)
    ensures r == if DistinctBy(rows, ByRecord()) && MembersChecked(rows, registry)
                 then Ok(TableBy(rows, ByRecord())) else Err(IdentityInvalid)
  {
    var members: map<Id, Member> := map[];
    for i := 0 to |rows|
      invariant forall k: nat {:trigger rows[k]} | k < i :: MemberValid(rows[k], registry)
      invariant DistinctBy(rows[..i], ByRecord()) && members == TableBy(rows[..i], ByRecord())
    {
      var m := rows[i];
      TableNext(rows, i, ByRecord());
      if m.identity !in registry { return Err(IdentityInvalid); }
      if m.active && !registry[m.identity].status.Active? { return Err(IdentityInvalid); }
      if m.record in members { return Err(IdentityInvalid); }
      members := members[m.record := m];
    }
    assert rows[..|rows|] == rows;
    r := Ok(members);
  }

  /** The resolved rows by record, and the component keys. */
  method Components(resolved: seq<Membership>) returns (r: Result<(set<Key>, Resolved), LedgerError>)
    ensures r == if DistinctBy(resolved, ByRow())
                 then Ok((ComponentsOf(TableBy(resolved, ByRow())), TableBy(resolved, ByRow())))
                   else Err(IdentityInvalid)
  {
    var byRecord: Resolved := map[];
    var keys: set<Key> := {};
    for i := 0 to |resolved|
      invariant DistinctBy(resolved[..i], ByRow()) && byRecord == TableBy(resolved[..i], ByRow())
      invariant keys == ComponentsOf(byRecord)
    {
      var m := resolved[i];
      TableNext(resolved, i, ByRow());
      if m.id in byRecord { return Err(IdentityInvalid); }
      ComponentsNext(byRecord, m);
      byRecord := byRecord[m.id := m];
      keys := keys + {m.component};
    }
    assert resolved[..|resolved|] == resolved;
    r := Ok((keys, byRecord));
  }

  lemma ComponentsNext(rows: Resolved, m: Membership)
    requires m.id !in rows
    ensures ComponentsOf(rows[m.id := m]) == ComponentsOf(rows) + {m.component}
  {
    var longer := rows[m.id := m];
    forall k | k in ComponentsOf(rows) + {m.component} ensures k in ComponentsOf(longer) {
      if k in ComponentsOf(rows) {
        var r :| r in rows && rows[r].component == k;
        assert r in longer && longer[r] == rows[r];
      } else {
        assert m.id in longer && longer[m.id] == m;
      }
    }
  }

  // ---- anchors and claims ----

  ghost predicate AnchorsAmong(b: Books, rows: Resolved, seen: set<Id>, anchors: map<Id, Id>) {
    && (forall r | r in seen && Standing(b, rows, r) :: b.members[r].identity in anchors)
    && (forall x | x in anchors :: Standing(b, rows, anchors[x]) && b.members[anchors[x]].identity == x)
    && (forall r | r in seen && Standing(b, rows, r) && b.members[r].identity in anchors ::
          LexLe(AnchorRank(b.members[anchors[b.members[r].identity]]), AnchorRank(b.members[r])))
  }

  /** The anchor of every identity that still has a resolved active member. */
  method Anchors(b: Books, rows: Resolved) returns (anchors: map<Id, Id>)
    ensures AllAnchors(b, rows, anchors)
  {
    anchors := map[];
    var todo := b.members.Keys;
    while todo != {}
      invariant todo <= b.members.Keys
      invariant AnchorsAmong(b, rows, b.members.Keys - todo, anchors)
    {
      var r :| r in todo;
      var m := b.members[r];
      ghost var before := anchors;
      if m.active && r in rows {
        if m.identity !in anchors || !LexLe(AnchorRank(b.members[anchors[m.identity]]), AnchorRank(m)) {
          anchors := anchors[m.identity := r];
        }
        AnchorReplaced(b, rows, b.members.Keys - todo, before, r, anchors);
      }
      todo := todo - {r};
      assert b.members.Keys - todo == (b.members.Keys - (todo + {r})) + {r};
    }
  }

  lemma AnchorReplaced(b: Books, rows: Resolved, seen: set<Id>, before: map<Id, Id>, r: Id, after: map<Id, Id>)
    requires AnchorsAmong(b, rows, seen, before) && Standing(b, rows, r)
    requires var x := b.members[r].identity;
      after ==
        if x !in before || !LexLe(AnchorRank(b.members[before[x]]), AnchorRank(b.members[r])) then before[x := r]
        else before
    ensures AnchorsAmong(b, rows, seen + {r}, after)
  {
    var x := b.members[r].identity;
    LexTotal(AnchorRank(b.members[r]), AnchorRank(b.members[r]));
    if x in before && after != before {
      LexTotal(AnchorRank(b.members[before[x]]), AnchorRank(b.members[r]));
      forall q | q in seen && Standing(b, rows, q) && b.members[q].identity == x
        ensures LexLe(AnchorRank(b.members[r]), AnchorRank(b.members[q]))
      {
        LexTransitive(AnchorRank(b.members[r]), AnchorRank(b.members[before[x]]), AnchorRank(b.members[q]));
      }
    }
  }

  /** The anchor of `x` lies in component `k`. */
  predicate Placed(rows: Resolved, anchors: map<Id, Id>, x: Id, k: Key) {
    x in anchors && anchors[x] in rows && rows[anchors[x]].component == k
  }

  /** `claims` lists, for each component, the identities of `seen` anchored there. */
  ghost predicate ClaimsAmong(rows: Resolved, anchors: map<Id, Id>, seen: set<Id>, claims: map<Key, seq<Id>>) {
    && (forall x, k | x in seen && Placed(rows, anchors, x, k) :: k in claims)
    && (forall k | k in claims :: claims[k] != [])
    && (forall k, x | k in claims && x in claims[k] :: x in seen && Placed(rows, anchors, x, k))
    && (forall k, x | k in claims && x in seen && Placed(rows, anchors, x, k) :: x in claims[k])
  }

  method CollectClaims(rows: Resolved, anchors: map<Id, Id>) returns (claims: map<Key, seq<Id>>)
    requires forall x | x in anchors :: anchors[x] in rows
    ensures ClaimsAmong(rows, anchors, anchors.Keys, claims)
  {
    claims := map[];
    var todo := anchors.Keys;
    while todo != {}
      invariant todo <= anchors.Keys
      invariant ClaimsAmong(rows, anchors, anchors.Keys - todo, claims)
    {
      var x :| x in todo;
      var k := rows[anchors[x]].component;
      ClaimAdded(rows, anchors, anchors.Keys - todo, claims, x, k);
      claims := claims[k := (if k in claims then claims[k] else []) + [x]];
      todo := todo - {x};
      assert anchors.Keys - todo == (anchors.Keys - (todo + {x})) + {x};
    }
    assert anchors.Keys - todo == anchors.Keys;
  }

  /** The identities anchored in each component, oldest first. */
  method AnchorClaims(b: Books, rows: Resolved, anchors: map<Id, Id>) returns (claims: map<Key, seq<Id>>)
    requires forall x | x in anchors :: anchors[x] in rows
    ensures ClaimsAmong(rows, anchors, anchors.Keys, claims)
    ensures forall k | k in claims :: Sorted(claims[k], OrderIn(b))
  {
    claims := CollectClaims(rows, anchors);
    var keys := claims.Keys;
    while keys != {}
      invariant keys <= claims.Keys
      invariant ClaimsAmong(rows, anchors, anchors.Keys, claims)
      invariant forall k | k in claims.Keys - keys :: Sorted(claims[k], OrderIn(b))
    {
      var k :| k in keys;
      var sorted := SortBy(claims[k], OrderIn(b));
      SortSorted(claims[k], OrderIn(b));
      ClaimsSorted(rows, anchors, anchors.Keys, claims, k, OrderIn(b));
      claims := claims[k := sorted];
      keys := keys - {k};
    }
  }

  lemma ClaimsSorted(rows: Resolved, anchors: map<Id, Id>, seen: set<Id>, claims: map<Key, seq<Id>>, k: Key,
      rank: Id -> seq<int>)
    requires ClaimsAmong(rows, anchors, seen, claims) && k in claims
    ensures ClaimsAmong(rows, anchors, seen, claims[k := SortBy(claims[k], rank)])
  {
    SortElements(claims[k], rank);
    SortMultiset(claims[k], rank);
  }

  lemma ClaimAdded(rows: Resolved, anchors: map<Id, Id>, seen: set<Id>, claims: map<Key, seq<Id>>, x: Id, k: Key)
    requires ClaimsAmong(rows, anchors, seen, claims) && Placed(rows, anchors, x, k)
    ensures ClaimsAmong(rows, anchors, seen + {x}, claims[k := (if k in claims then claims[k] else []) + [x]])
  {
  }

  function OrderIn(b: Books): Id -> seq<int> {
    (x: Id) => if x in b.registry then IdentityRank(b.registry[x]) else []
  }

  /** `anchors` holds exactly the anchors. */
  ghost predicate AllAnchors(b: Books, rows: Resolved, anchors: map<Id, Id>) {
    && (forall r | Standing(b, rows, r) :: b.members[r].identity in anchors)
    && (forall x | x in anchors :: IsAnchor(b, rows, x, anchors[x]))
  }

  lemma AnchoredIn(b: Books, rows: Resolved, anchors: map<Id, Id>, x: Id, k: Key)
    requires Filed(b) && MembersValid(b) && AllAnchors(b, rows, anchors)
    ensures Anchored(b, rows, x, k) <==> Placed(rows, anchors, x, k)
  {
    if Anchored(b, rows, x, k) {
      var r :| IsAnchor(b, rows, x, r) && rows[r].component == k;
      AnchorUnique(b, rows, x, r, anchors[x]);
    }
    if Placed(rows, anchors, x, k) {
      assert IsAnchor(b, rows, x, anchors[x]);
    }
  }

  /** The first claim on a component is its claimant. */
  lemma FirstClaim(b: Books, rows: Resolved, anchors: map<Id, Id>, claims: map<Key, seq<Id>>, k: Key)
    requires Filed(b) && MembersValid(b) && AllAnchors(b, rows, anchors)
    requires ClaimsAmong(rows, anchors, anchors.Keys, claims)
    requires forall j | j in claims :: Sorted(claims[j], OrderIn(b))
    ensures k in claims <==> Claimed(b, rows, k)
    ensures k in claims ==> claims[k] != [] && IsClaimant(b, rows, k, claims[k][0])
  {
    forall x ensures Anchored(b, rows, x, k) <==> Placed(rows, anchors, x, k) {
      AnchoredIn(b, rows, anchors, x, k);
    }
    if k in claims {
      forall x | x in claims[k] ensures x in b.registry { assert Anchored(b, rows, x, k); }
      FirstIsLeast(b, claims[k]);
      assert claims[k][0] in claims[k];
      assert IsClaimant(b, rows, k, claims[k][0]);
    }
  }

  lemma FirstIsLeast(b: Books, s: seq<Id>)
    requires s != [] && Sorted(s, OrderIn(b)) && forall x | x in s :: x in b.registry
    ensures forall x | x in s :: LexLe(IdentityRank(b.registry[s[0]]), IdentityRank(b.registry[x]))
  {
    forall x | x in s ensures LexLe(IdentityRank(b.registry[s[0]]), IdentityRank(b.registry[x])) {
      var i :| 0 <= i < |s| && s[i] == x;
      LexTotal(OrderIn(b)(s[0]), OrderIn(b)(s[0]));
      assert LexLe(OrderIn(b)(s[0]), OrderIn(b)(s[i]));
    }
  }

  // ---- ids for the components ----

  /** The ids drawn are unknown to the registry and pairwise different. */
  ghost predicate DrawnFresh(registry: set<Id>, supply: Supply, n: nat) {
    && (forall i: nat | i < n :: supply(i) !in registry)
    && (forall i: nat, j: nat | i < j < n :: supply(i) != supply(j))
  }

  /** Components with a claim keep it; the others draw ids in key order. */
  ghost function ChosenId(keys: set<Key>, fixed: map<Key, Id>, supply: Supply, k: Key): Id {
    if k in fixed then fixed[k] else supply(|set j | j in keys - fixed.Keys && j < k|)
  }

  ghost function Chosen(keys: set<Key>, fixed: map<Key, Id>, supply: Supply): map<Key, Id> {
    map k | k in keys :: ChosenId(keys, fixed, supply, k)
  }

  /** No identity is claimed for two components, and all claimed identities are active. */
  ghost predicate FixedValid(keys: set<Key>, fixed: map<Key, Id>, registry: map<Id, IdentityRecord>) {
    && fixed.Keys <= keys
    && (forall k | k in fixed :: fixed[k] in registry && registry[fixed[k]].status.Active?)
    && (forall j, k | j in fixed && k in fixed && fixed[j] == fixed[k] :: j == k)
  }

  /** The components of `done` are the lower ones and have been given their ids. */
  ghost predicate ServedKeys(keys: set<Key>, claimed: set<Key>, goal: map<Key, Id>, done: set<Key>, todo: set<Key>,
      a: map<Key, Id>, drawn: nat) {
    && Lower(keys, done, todo)
    && goal.Keys == keys && a.Keys == done
    && (forall k {:trigger a[k]} | k in a :: a[k] == goal[k])
    && drawn == |done - claimed|
  }

  ghost predicate Lower(keys: set<Key>, done: set<Key>, todo: set<Key>) {
    keys == done + todo && forall j, i | j in done && i in todo :: j < i
  }

  /** The used ids are those claimed for served components and those drawn. */
  ghost predicate UsedKnown(served: set<Key>, fixed: map<Key, Id>, supply: Supply, used: set<Id>, drawn: nat) {
    && (forall i: nat | i < drawn :: supply(i) in used)
    && (forall x | x in used :: ClaimedFor(served, fixed, x) || DrawnAs(supply, drawn, x))
  }

  ghost predicate ClaimedFor(served: set<Key>, fixed: map<Key, Id>, x: Id) {
    exists k | k in fixed :: k in served && fixed[k] == x
  }

  ghost predicate DrawnAs(supply: Supply, drawn: nat, x: Id) {
    exists i: nat :: i < drawn && supply(i) == x
  }

  /** What holds before the components of `todo` are served. */
  ghost predicate Serving(keys: set<Key>, fixed: map<Key, Id>, registry: set<Id>, supply: Supply, done: set<Key>,
      todo: set<Key>, a: map<Key, Id>, used: set<Id>, drawn: nat) {
    && ServedKeys(keys, fixed.Keys, Chosen(keys, fixed, supply), done, todo, a, drawn)
    && DrawnFresh(registry, supply, drawn)
    && UsedKnown(done, fixed, supply, used, drawn)
  }

  lemma BelowIsServed(keys: set<Key>, claimed: set<Key>, done: set<Key>, todo: set<Key>, k: Key)
    requires Lower(keys, done, todo) && k in todo && forall j | j in todo :: k <= j
    ensures (set j | j in keys - claimed && j < k) == done - claimed
  {
    forall j ensures j in (set i | i in keys - claimed && i < k) <==> j in done - claimed {}
  }

  lemma ServedCount(keys: set<Key>, claimed: set<Key>, done: set<Key>, todo: set<Key>, k: Key)
    requires Lower(keys, done, todo) && k in todo
    ensures k in claimed ==> |(done + {k}) - claimed| == |done - claimed|
    ensures k !in claimed ==> |(done + {k}) - claimed| == |done - claimed| + 1 <= |keys - claimed|
  {
    var before, after := done - claimed, (done + {k}) - claimed;
    if k in claimed {
      assert after == before;
    } else {
      assert after == before + {k};
      SubsetSize(after, keys - claimed);
    }
  }

  lemma ServeKey(keys: set<Key>, claimed: set<Key>, goal: map<Key, Id>, done: set<Key>, todo: set<Key>,
      a: map<Key, Id>, drawn: nat, k: Key)
    requires ServedKeys(keys, claimed, goal, done, todo, a, drawn)
    requires k in todo && (forall j | j in todo :: k <= j)
    ensures ServedKeys(keys, claimed, goal, done + {k}, todo - {k}, a[k := goal[k]],
      if k in claimed then drawn else drawn + 1)
  {
    LowerNext(keys, done, todo, k);
    ServedCount(keys, claimed, done, todo, k);
    UpdatedAgrees(goal, a, k);
  }

  lemma LowerNext(keys: set<Key>, done: set<Key>, todo: set<Key>, k: Key)
    requires Lower(keys, done, todo) && k in todo && forall j | j in todo :: k <= j
    ensures Lower(keys, done + {k}, todo - {k})
  {
  }

  lemma UpdatedAgrees(goal: map<Key, Id>, a: map<Key, Id>, k: Key)
    requires k in goal && forall j {:trigger a[j]} | j in a :: j in goal && a[j] == goal[j]
    ensures a[k := goal[k]].Keys == a.Keys + {k}
    ensures var b := a[k := goal[k]]; forall j {:trigger b[j]} | j in b :: b[j] == goal[j]
  {
  }

  lemma ChosenAt(keys: set<Key>, fixed: map<Key, Id>, supply: Supply, done: set<Key>, todo: set<Key>, k: Key)
    requires Lower(keys, done, todo) && k in todo && (forall j | j in todo :: k <= j)
    ensures Chosen(keys, fixed, supply)[k] == if k in fixed then fixed[k] else supply(|done - fixed.Keys|)
  {
    BelowIsServed(keys, fixed.Keys, done, todo, k);
  }

  lemma UseKey(served: set<Key>, fixed: map<Key, Id>, supply: Supply, used: set<Id>, drawn: nat, k: Key, x: Id)
    requires UsedKnown(served, fixed, supply, used, drawn)
    requires x == if k in fixed then fixed[k] else supply(drawn)
    ensures UsedKnown(served + {k}, fixed, supply, used + {x}, if k in fixed then drawn else drawn + 1)
  {
    var n := if k in fixed then drawn else drawn + 1;
    forall y | y in used + {x} ensures ClaimedFor(served + {k}, fixed, y) || DrawnAs(supply, n, y) {
      if y !in used {
        assert k !in fixed ==> drawn < n && supply(drawn) == y;
      } else if ClaimedFor(served, fixed, y) {
        var j :| j in fixed && j in served && fixed[j] == y;
        assert j in served + {k};
      } else {
        var i: nat :| i < drawn && supply(i) == y;
        assert i < n;
      }
    }
  }

  /** A claimed id was used neither for another component nor by the allocator. */
  lemma ClaimUnused(served: set<Key>, fixed: map<Key, Id>, registry: set<Id>, supply: Supply, used: set<Id>,
      drawn: nat, k: Key)
    requires UsedKnown(served, fixed, supply, used, drawn) && DrawnFresh(registry, supply, drawn)
    requires k in fixed && k !in served && fixed[k] in registry
    requires forall j | j in fixed && fixed[j] == fixed[k] :: j == k
    ensures fixed[k] !in used
  {
    assert !DrawnAs(supply, drawn, fixed[k]);
    assert !ClaimedFor(served, fixed, fixed[k]);
  }

  lemma ServeClaimed(keys: set<Key>, fixed: map<Key, Id>, registry: map<Id, IdentityRecord>, supply: Supply,
      done: set<Key>, todo: set<Key>, a: map<Key, Id>, used: set<Id>, drawn: nat, k: Key)
    requires FixedValid(keys, fixed, registry)
      && Serving(keys, fixed, registry.Keys, supply, done, todo, a, used, drawn)
    requires k in todo && (forall j | j in todo :: k <= j) && k in fixed
    ensures fixed[k] !in used
    ensures Serving(keys, fixed, registry.Keys, supply, done + {k}, todo - {k}, a[k := fixed[k]], used + {fixed[k]},
      drawn)
  {
    ClaimUnused(done, fixed, registry.Keys, supply, used, drawn, k);
    ChosenAt(keys, fixed, supply, done, todo, k);
    ServeKey(keys, fixed.Keys, Chosen(keys, fixed, supply), done, todo, a, drawn, k);
    UseKey(done, fixed, supply, used, drawn, k, fixed[k]);
  }

  lemma DrawnNext(served: set<Key>, fixed: map<Key, Id>, registry: set<Id>, supply: Supply, used: set<Id>, drawn: nat)
    requires UsedKnown(served, fixed, supply, used, drawn) && DrawnFresh(registry, supply, drawn)
    requires supply(drawn) !in registry && supply(drawn) !in used
    ensures DrawnFresh(registry, supply, drawn + 1)
  {
  }

  lemma ServeNew(keys: set<Key>, fixed: map<Key, Id>, registry: set<Id>, supply: Supply, done: set<Key>, todo: set<Key>,
                 a: map<Key, Id>, used: set<Id>, drawn: nat, k: Key)
    requires fixed.Keys <= keys && Serving(keys, fixed, registry, supply, done, todo, a, used, drawn)
    requires k in todo && (forall j | j in todo :: k <= j) && k !in fixed
    requires supply(drawn) !in registry && supply(drawn) !in used
    ensures Serving(keys, fixed, registry, supply, done + {k}, todo - {k}, a[k := supply(drawn)],
      used + {supply(drawn)}, drawn + 1)
  {
    ChosenAt(keys, fixed, supply, done, todo, k);
    ServeKey(keys, fixed.Keys, Chosen(keys, fixed, supply), done, todo, a, drawn, k);
    UseKey(done, fixed, supply, used, drawn, k, supply(drawn));
    DrawnNext(done, fixed, registry, supply, used, drawn);
  }

  /** A drawn id that is already taken shows that the allocator repeated itself. */
  lemma TakenIsStale(keys: set<Key>, fixed: map<Key, Id>, registry: map<Id, IdentityRecord>, supply: Supply,
      done: set<Key>, todo: set<Key>, a: map<Key, Id>, used: set<Id>, drawn: nat, k: Key)
    requires FixedValid(keys, fixed, registry)
      && Serving(keys, fixed, registry.Keys, supply, done, todo, a, used, drawn)
    requires k in todo && k !in fixed
    requires supply(drawn) in registry || supply(drawn) in used
    ensures !DrawnFresh(registry.Keys, supply, |keys - fixed.Keys|)
  {
    ServedCount(keys, fixed.Keys, done, todo, k);
    if supply(drawn) !in registry {
      assert !ClaimedFor(done, fixed, supply(drawn));
      var i: nat :| i < drawn && supply(i) == supply(drawn);
    }
  }

  lemma LeastKey(s: set<Key>)
    requires s != {}
    ensures exists m :: m in s && forall x | x in s :: m <= x
  {
    var m := MinOf(s);
  }

  lemma ServedAll(keys: set<Key>, fixed: map<Key, Id>, registry: set<Id>, supply: Supply, done: set<Key>,
      a: map<Key, Id>, used: set<Id>, drawn: nat)
    requires Serving(keys, fixed, registry, supply, done, {}, a, used, drawn)
    ensures DrawnFresh(registry, supply, |keys - fixed.Keys|) && a == Chosen(keys, fixed, supply)
      && drawn == |keys - fixed.Keys|
  {
    assert keys == done;
  }

  method LeastOf(s: set<Key>) returns (k: Key)
    requires s != {}
    ensures k in s && forall j | j in s :: k <= j
  {
    LeastKey(s);
    k :| k in s && forall j | j in s :: k <= j;
  }

  /** Chooses the identity of one component, or none if the allocator repeats itself. Neither
      continuity error can occur. */
  method AssignOne(keys: set<Key>, fixed: map<Key, Id>, registry: map<Id, IdentityRecord>, supply: Supply,
      ghost done: set<Key>, ghost todo: set<Key>, ghost a: map<Key, Id>, used: set<Id>, drawn: nat, k: Key)
      returns (id: Option<Id>, n: nat)
    requires FixedValid(keys, fixed, registry)
      && Serving(keys, fixed, registry.Keys, supply, done, todo, a, used, drawn)
    requires k in todo && (forall j | j in todo :: k <= j)
    ensures id.None? ==> !DrawnFresh(registry.Keys, supply, |keys - fixed.Keys|)
    ensures id.Some? ==>
      Serving(keys, fixed, registry.Keys, supply, done + {k}, todo - {k}, a[k := id.value], used + {id.value}, n)
  {
    if k in fixed {
      var claimed := fixed[k];
      ServeClaimed(keys, fixed, registry, supply, done, todo, a, used, drawn, k);
      if !(claimed in registry && registry[claimed].status.Active?) {
        assert false;
      }
      if claimed in used {
        assert false;
      }
      return Some(claimed), drawn;
    }
    var next := supply(drawn);
    if next in registry || next in used {
      TakenIsStale(keys, fixed, registry, supply, done, todo, a, used, drawn, k);
      return None, drawn;
    }
    ServeNew(keys, fixed, registry.Keys, supply, done, todo, a, used, drawn, k);
    return Some(next), drawn + 1;
  }

  /** Chooses the identities of all components in key order. */
  method Assign(keys: set<Key>, fixed: map<Key, Id>, registry: map<Id, IdentityRecord>, supply: Supply)
    returns (r: Result<map<Key, Id>, LedgerError>, drawn: nat)
    requires FixedValid(keys, fixed, registry)
    ensures r == if DrawnFresh(registry.Keys, supply, |keys - fixed.Keys|) then Ok(Chosen(keys, fixed, supply))
      else Err(IdentityInvalid)
    ensures r.Ok? ==> drawn == |keys - fixed.Keys|
  {
    var chosen: map<Key, Id> := map[];
    var used: set<Id> := {};
    drawn := 0;
    var todo := keys;
    ghost var done: set<Key> := {};
    while todo != {}
      invariant Serving(keys, fixed, registry.Keys, supply, done, todo, chosen, used, drawn)
    {
      var k := LeastOf(todo);
      var id, n := AssignOne(keys, fixed, registry, supply, done, todo, chosen, used, drawn, k);
      if id.None? { return Err(IdentityInvalid), drawn; }
      chosen, used, drawn := chosen[k := id.value], used + {id.value}, n;
      done, todo := done + {k}, todo - {k};
    }
    ServedAll(keys, fixed, registry.Keys, supply, done, chosen, used, drawn);
    r := Ok(chosen);
  }

  // ---- the choice is the specified assignment ----

  /** `fixed` gives every claimed component its claimant. */
  ghost predicate FixesClaimants(b: Books, rows: Resolved, fixed: map<Key, Id>) {
    forall k | k in ComponentsOf(rows) || k in fixed ::
      (k in fixed <==> Claimed(b, rows, k)) && (k in fixed ==> IsClaimant(b, rows, k, fixed[k]))
  }

  lemma ClaimantComponents(b: Books, rows: Resolved, fixed: map<Key, Id>)
    requires Filed(b) && MembersValid(b) && FixesClaimants(b, rows, fixed)
    ensures FixedValid(ComponentsOf(rows), fixed, b.registry)
  {
    forall k | k in fixed
      ensures k in ComponentsOf(rows) && fixed[k] in b.registry && b.registry[fixed[k]].status.Active? {
      AnchorIsActive(b, rows, fixed[k], k);
    }
    forall j, k | j in fixed && k in fixed && fixed[j] == fixed[k] ensures j == k {
      AnchoredOnce(b, rows, fixed[j], j, k);
    }
  }

  lemma AnchorIsActive(b: Books, rows: Resolved, x: Id, k: Key)
    requires MembersValid(b) && Anchored(b, rows, x, k)
    ensures k in ComponentsOf(rows) && x in b.registry && b.registry[x].status.Active?
  {
    var r :| IsAnchor(b, rows, x, r) && rows[r].component == k;
  }

  lemma AnchoredOnce(b: Books, rows: Resolved, x: Id, j: Key, k: Key)
    requires Filed(b) && Anchored(b, rows, x, j) && Anchored(b, rows, x, k)
    ensures j == k
  {
    var r :| IsAnchor(b, rows, x, r) && rows[r].component == j;
    var s :| IsAnchor(b, rows, x, s) && rows[s].component == k;
    AnchorUnique(b, rows, x, r, s);
  }

  lemma ChosenIdIsAssigned(b: Books, rows: Resolved, fixed: map<Key, Id>, supply: Supply, k: Key)
    requires Filed(b) && FixesClaimants(b, rows, fixed) && k in ComponentsOf(rows)
    ensures ChosenId(ComponentsOf(rows), fixed, supply, k) == IdOf(b, rows, supply, k)
  {
    if k in fixed {
      ClaimantUnique(b, rows, k, fixed[k], IdOf(b, rows, supply, k));
    } else {
      BelowUnclaimed(b, rows, fixed, k);
    }
  }

  lemma BelowUnclaimed(b: Books, rows: Resolved, fixed: map<Key, Id>, k: Key)
    requires FixesClaimants(b, rows, fixed)
    ensures (set j | j in ComponentsOf(rows) - fixed.Keys && j < k) == NewBelow(b, rows, k)
    ensures ComponentsOf(rows) - fixed.Keys == NewComponents(b, rows)
  {
    forall j | j in ComponentsOf(rows) ensures j in fixed <==> Claimed(b, rows, j) {}
  }

  lemma ChosenIsAssigned(b: Books, rows: Resolved, fixed: map<Key, Id>, supply: Supply)
    requires Filed(b) && FixesClaimants(b, rows, fixed)
    ensures Chosen(ComponentsOf(rows), fixed, supply) == Assigned(b, rows, supply)
  {
    forall k | k in ComponentsOf(rows)
      ensures ChosenId(ComponentsOf(rows), fixed, supply, k) == IdOf(b, rows, supply, k) {
      ChosenIdIsAssigned(b, rows, fixed, supply, k);
    }
  }

  lemma FreshIsDrawn(b: Books, rows: Resolved, fixed: map<Key, Id>, supply: Supply)
    requires FixesClaimants(b, rows, fixed)
    ensures |ComponentsOf(rows) - fixed.Keys| == |NewComponents(b, rows)|
    ensures DrawnFresh(b.registry.Keys, supply, |ComponentsOf(rows) - fixed.Keys|) <==> Fresh(b, rows, supply)
  {
    BelowUnclaimed(b, rows, fixed, 0);
  }

  // ---- the new tables ----

  /** Where the members of each old identity go; only identities with resolved members have an entry. */
  method SuccessorMap(b: Books, rows: Resolved, a: map<Key, Id>) returns (succ: map<Id, set<Id>>)
    requires a.Keys == ComponentsOf(rows)
    ensures forall x :: x in succ <==> Successors(b, rows, a, x) != {}
    ensures forall x | x in succ :: succ[x] == Successors(b, rows, a, x)
  {
    succ := map[];
    var todo := b.members.Keys;
    while todo != {}
      invariant todo <= b.members.Keys
      invariant SuccessorsAmong(b, rows, a, b.members.Keys - todo, succ)
    {
      var r :| r in todo;
      var x := b.members[r].identity;
      assert b.members.Keys - (todo - {r}) == (b.members.Keys - todo) + {r};
      if b.members[r].active && r in rows {
        SuccessorAdded(b, rows, a, b.members.Keys - todo, succ, r);
        succ := succ[x := (if x in succ then succ[x] else {}) + {a[rows[r].component]}];
      } else {
        SuccessorSkipped(b, rows, a, b.members.Keys - todo, succ, r);
      }
      todo := todo - {r};
    }
    SuccessorsComplete(b, rows, a, b.members.Keys - todo, succ);
  }

  ghost function SuccessorsIn(b: Books, rows: Resolved, a: map<Key, Id>, seen: set<Id>, x: Id): set<Id>
    requires a.Keys == ComponentsOf(rows)
  {
    set r | r in seen && Standing(b, rows, r) && b.members[r].identity == x :: a[rows[r].component]
  }

  ghost predicate SuccessorsAmong(b: Books, rows: Resolved, a: map<Key, Id>, seen: set<Id>, succ: map<Id, set<Id>>)
    requires a.Keys == ComponentsOf(rows)
  {
    forall x :: (if x in succ then succ[x] else {}) == SuccessorsIn(b, rows, a, seen, x)
      && (x in succ ==> succ[x] != {})
  }

  lemma SuccessorAdded(b: Books, rows: Resolved, a: map<Key, Id>, seen: set<Id>, succ: map<Id, set<Id>>, r: Id)
    requires a.Keys == ComponentsOf(rows) && SuccessorsAmong(b, rows, a, seen, succ) && Standing(b, rows, r)
    ensures rows[r].component in a
    ensures var x := b.members[r].identity;
      SuccessorsAmong(b, rows, a, seen + {r}, succ[x := (if x in succ then succ[x] else {}) + {a[rows[r].component]}])
  {
    var x, c := b.members[r].identity, rows[r].component;
    assert c in ComponentsOf(rows);
    var longer := succ[x := (if x in succ then succ[x] else {}) + {a[c]}];
    forall y ensures (if y in longer then longer[y] else {}) == SuccessorsIn(b, rows, a, seen + {r}, y)
      && (y in longer ==> longer[y] != {}) {
      SuccessorInAdded(b, rows, a, seen, r, y);
    }
  }

  lemma SuccessorInAdded(b: Books, rows: Resolved, a: map<Key, Id>, seen: set<Id>, r: Id, y: Id)
    requires a.Keys == ComponentsOf(rows) && Standing(b, rows, r) && rows[r].component in a
    ensures SuccessorsIn(b, rows, a, seen + {r}, y)
         == SuccessorsIn(b, rows, a, seen, y) + (if y == b.members[r].identity then {a[rows[r].component]} else {})
  {
    var c := a[rows[r].component];
    var more := SuccessorsIn(b, rows, a, seen + {r}, y);
    if y == b.members[r].identity { assert r in seen + {r} && c in more; }
  }

  lemma SuccessorSkipped(b: Books, rows: Resolved, a: map<Key, Id>, seen: set<Id>, succ: map<Id, set<Id>>, r: Id)
    requires a.Keys == ComponentsOf(rows) && SuccessorsAmong(b, rows, a, seen, succ) && !Standing(b, rows, r)
    ensures SuccessorsAmong(b, rows, a, seen + {r}, succ)
  {
    forall y ensures SuccessorsIn(b, rows, a, seen + {r}, y) == SuccessorsIn(b, rows, a, seen, y) {}
  }

  lemma SuccessorsComplete(b: Books, rows: Resolved, a: map<Key, Id>, seen: set<Id>, succ: map<Id, set<Id>>)
    requires a.Keys == ComponentsOf(rows) && SuccessorsAmong(b, rows, a, seen, succ) && seen == b.members.Keys
    ensures forall x :: x in succ <==> Successors(b, rows, a, x) != {}
    ensures forall x | x in succ :: succ[x] == Successors(b, rows, a, x)
  {
    forall x ensures SuccessorsIn(b, rows, a, seen, x) == Successors(b, rows, a, x) {}
  }

  /** Adds a row for every component's identity that the registry does not hold yet. */
  method RegisterNew(registry: map<Id, IdentityRecord>, a: map<Key, Id>, revision: Revision)
    returns (next: map<Id, IdentityRecord>)
    ensures next.Keys == registry.Keys + a.Values
    ensures forall x | x in next ::
      next[x] == if x in registry then registry[x] else IdentityRecord(x, revision, None, Active)
  {
    next := registry;
    var todo := a.Keys;
    while todo != {}
      invariant todo <= a.Keys
      invariant next.Keys == registry.Keys + set k | k in a.Keys - todo :: a[k]
      invariant forall x | x in next ::
        next[x] == if x in registry then registry[x] else IdentityRecord(x, revision, None, Active)
    {
      var k :| k in todo;
      if a[k] !in next { next := next[a[k] := IdentityRecord(a[k], revision, None, Active)]; }
      todo := todo - {k};
    }
    assert a.Values == set k | k in a.Keys - todo :: a[k];
  }

  /** Settles the status of one active identity by where its members went. */
  method SettleStatus(row: IdentityRecord, next: set<Id>, revision: Revision) returns (r: IdentityRecord)
    ensures r == NextIdentity(row, next, revision)
  {
    if |next| == 0 {
      r := row.(status := Retired, retired := Some(revision));
    } else if |next| == 1 && row.id in next {
      r := row.(status := Active, retired := None);
    } else if |next| == 1 {
      r := row.(status := Merged, retired := Some(revision));
    } else if row.id in next {
      r := row.(status := Active, retired := None);
    } else {
      r := row.(status := Split, retired := Some(revision));
    }
  }

  lemma RegistryGoal(b: Books, rows: Resolved, a: map<Key, Id>, succ: map<Id, set<Id>>, revision: Revision)
    requires a.Keys == ComponentsOf(rows)
    requires forall x :: x in succ <==> Successors(b, rows, a, x) != {}
    requires forall x | x in succ :: succ[x] == Successors(b, rows, a, x)
    ensures var goal := NextRegistry(b, rows, a, revision);
      && goal.Keys == b.registry.Keys + a.Values
      && (forall x | x in goal && x !in b.registry :: goal[x] == IdentityRecord(x, revision, None, Active))
      && (forall x | x in b.registry && !b.registry[x].status.Active? :: goal[x] == b.registry[x])
      && (forall x | x in b.registry && b.registry[x].status.Active? ::
            goal[x] == NextIdentity(b.registry[x], if x in succ then succ[x] else {}, revision))
  {
  }

  /** Registers new identities and settles the active ones. */
  method BuildRegistry(registry: map<Id, IdentityRecord>, a: map<Key, Id>, succ: map<Id, set<Id>>, revision: Revision,
                       ghost goal: map<Id, IdentityRecord>) returns (next: map<Id, IdentityRecord>)
    requires goal.Keys == registry.Keys + a.Values
    requires forall x | x in goal && x !in registry :: goal[x] == IdentityRecord(x, revision, None, Active)
    requires forall x | x in registry && !registry[x].status.Active? :: goal[x] == registry[x]
    requires forall x | x in registry && registry[x].status.Active? ::
      goal[x] == NextIdentity(registry[x], if x in succ then succ[x] else {}, revision)
    ensures next == goal
  {
    next := RegisterNew(registry, a, revision);
    var todo := set x | x in registry && registry[x].status.Active?;
    while todo != {}
      invariant forall x | x in todo :: x in registry && registry[x].status.Active?
      invariant next.Keys == goal.Keys
      invariant forall x | x in next :: next[x] == if x in todo then registry[x] else goal[x]
    {
      var x :| x in todo;
      var row := SettleStatus(next[x], if x in succ then succ[x] else {}, revision);
      next := next[x := row];
      todo := todo - {x};
    }
  }

  method BuildMembers(b: Books, rows: Resolved, a: map<Key, Id>, revision: Revision) returns (next: map<Id, Member>)
    requires a.Keys == ComponentsOf(rows) && forall r | r in rows :: rows[r].component in a
    ensures next == NextMembers(b, rows, a, revision)
  {
    next := b.members;
    var todo := b.members.Keys;
    while todo != {}
      invariant todo <= b.members.Keys && next.Keys == b.members.Keys
      invariant forall r | r in next ::
        next[r] == if r in todo then b.members[r] else NextMembers(b, rows, a, revision)[r]
    {
      var r :| r in todo;
      var m := next[r];
      if r in rows {
        var id := a[rows[r].component];
        var wasActive := m.active;
        var moved := !wasActive || m.identity != id;
        m := m.(identity := id, active := true, key := rows[r].key);
        if moved {
          m := m.(last := revision, changed := revision, reason := if wasActive then "reconciled" else "reactivated");
        }
      } else if m.active {
        m := m.(active := false, last := revision, changed := revision, reason := "removed");
      }
      assert m == NextMembers(b, rows, a, revision)[r];
      next := next[r := m];
      todo := todo - {r};
    }
    todo := rows.Keys;
    while todo != {}
      invariant todo <= rows.Keys && next.Keys == b.members.Keys + (rows.Keys - todo)
      invariant forall r | r in next :: next[r] == NextMembers(b, rows, a, revision)[r]
    {
      var r :| r in todo;
      if r !in b.members {
        next := next[r := Member(r, rows[r].key, a[rows[r].component], true, revision, revision, "new", revision)];
      }
      todo := todo - {r};
    }
  }

  // ---- the new history rows ----

  ghost predicate NewAlias(known: set<Alias>, succ: map<Id, set<Id>>, revision: Revision, p: Alias) {
    && p.revision == revision && p.source in succ && succ[p.source] == {p.target} && p.target != p.source
    && !HasTarget(known, p.source, p.target)
  }

  ghost predicate HasTarget(known: set<Alias>, source: Id, target: Id) {
    exists q | q in known :: q.source == source && q.target == target
  }

  ghost predicate NewSplit(succ: map<Id, set<Id>>, revision: Revision, p: Branch) {
    p.revision == revision && p.parent in succ && |succ[p.parent]| > 1 && p.child in succ[p.parent]
  }

  /** `list` is `before` and the new aliases of the identities outside `todo`. */
  ghost predicate AliasesAmong(before: seq<Alias>, succ: map<Id, set<Id>>, revision: Revision, todo: set<Id>,
      list: seq<Alias>) {
    && (forall p | p in before :: p in list)
    && (forall p | p in list :: p in before || (NewAlias(Elements(before), succ, revision, p) && p.source !in todo))
    && (forall p | NewAlias(Elements(before), succ, revision, p) && p.source !in todo :: p in list)
    && (Distinct(before) ==> Distinct(list))
  }

  method OnlyMember(s: set<Id>) returns (x: Id)
    requires |s| == 1
    ensures s == {x}
  {
    x :| x in s;
    OnlyElement(s, x);
  }

  method AddAliases(aliases: seq<Alias>, succ: map<Id, set<Id>>, revision: Revision) returns (list: seq<Alias>)
    ensures AliasesAmong(aliases, succ, revision, {}, list)
  {
    list := aliases;
    var todo := succ.Keys;
    while todo != {}
      invariant todo <= succ.Keys
      invariant AliasesAmong(aliases, succ, revision, todo, list)
    {
      var x :| x in todo;
      if |succ[x]| == 1 {
        var c := OnlyMember(succ[x]);
        AliasSeen(aliases, succ, revision, todo, list, x, c);
        if c != x && !exists q | q in list :: q.source == x && q.target == c {
          AliasPushed(aliases, succ, revision, todo, list, x, c);
          list := list + [Alias(x, c, revision)];
        } else {
          NoAliasFor(aliases, succ, revision, todo, list, x);
        }
      } else {
        NoAliasFor(aliases, succ, revision, todo, list, x);
      }
      todo := todo - {x};
    }
  }

  lemma AliasSeen(aliases: seq<Alias>, succ: map<Id, set<Id>>, revision: Revision, todo: set<Id>, list: seq<Alias>,
      x: Id, c: Id)
    requires AliasesAmong(aliases, succ, revision, todo, list) && x in todo
    ensures (exists q | q in list :: q.source == x && q.target == c) <==> HasTarget(Elements(aliases), x, c)
  {
    if HasTarget(Elements(aliases), x, c) {
      var q :| q in Elements(aliases) && q.source == x && q.target == c;
      assert q in list;
    }
    if q :| q in list && q.source == x && q.target == c {
      assert q in Elements(aliases);
    }
  }

  lemma AliasPushed(aliases: seq<Alias>, succ: map<Id, set<Id>>, revision: Revision, todo: set<Id>, list: seq<Alias>,
      x: Id, c: Id)
    requires AliasesAmong(aliases, succ, revision, todo, list) && x in todo && x in succ && succ[x] == {c} && c != x
    requires !HasTarget(Elements(aliases), x, c)
    ensures AliasesAmong(aliases, succ, revision, todo - {x}, list + [Alias(x, c, revision)])
  {
    var p := Alias(x, c, revision);
    assert p !in list by {
      assert p in aliases ==> p in Elements(aliases);
    }
    assert NewAlias(Elements(aliases), succ, revision, p);
    assert forall q | NewAlias(Elements(aliases), succ, revision, q) && q.source == x :: q == p by {
      forall q | NewAlias(Elements(aliases), succ, revision, q) && q.source == x ensures q == p {
        assert q.target in succ[x];
      }
    }
  }

  lemma NoAliasFor(aliases: seq<Alias>, succ: map<Id, set<Id>>, revision: Revision, todo: set<Id>, list: seq<Alias>,
      x: Id)
    requires AliasesAmong(aliases, succ, revision, todo, list) && x in todo && x in succ
    requires |succ[x]| != 1 || succ[x] == {x} || exists c :: succ[x] == {c} && HasTarget(Elements(aliases), x, c)
    ensures AliasesAmong(aliases, succ, revision, todo - {x}, list)
  {
    forall q | NewAlias(Elements(aliases), succ, revision, q) ensures q.source != x {
      assert q.target in succ[q.source] && |succ[q.source]| == 1;
      if succ[x] != {x} && |succ[x]| == 1 {
        var c :| succ[x] == {c} && HasTarget(Elements(aliases), x, c);
        assert c in succ[x];
      }
    }
  }

  ghost predicate SplitsAmong(before: seq<Branch>, succ: map<Id, set<Id>>, revision: Revision, todo: set<Id>,
      list: seq<Branch>) {
    && (forall p | p in before :: p in list)
    && (forall p | p in list :: p in before || NewSplit(succ, revision, p))
    && (forall p | NewSplit(succ, revision, p) && p.parent !in todo :: p in list)
    && (Distinct(before) ==> Distinct(list))
  }

  method AddSplits(splits: seq<Branch>, succ: map<Id, set<Id>>, revision: Revision) returns (list: seq<Branch>)
    ensures SplitsAmong(splits, succ, revision, {}, list)
  {
    list := splits;
    var todo := succ.Keys;
    while todo != {}
      invariant todo <= succ.Keys
      invariant SplitsAmong(splits, succ, revision, todo, list)
    {
      var x :| x in todo;
      if |succ[x]| > 1 {
        list := AddChildren(splits, succ, revision, todo, list, x);
      }
      todo := todo - {x};
    }
  }

  method AddChildren(splits: seq<Branch>, succ: map<Id, set<Id>>, revision: Revision, ghost todo: set<Id>,
      list: seq<Branch>, x: Id)
    returns (longer: seq<Branch>)
    requires SplitsAmong(splits, succ, revision, todo, list) && x in todo && x in succ && |succ[x]| > 1
    ensures SplitsAmong(splits, succ, revision, todo - {x}, longer)
  {
    longer := list;
    var children := succ[x];
    while children != {}
      invariant children <= succ[x]
      invariant SplitsAmong(splits, succ, revision, todo, longer)
      invariant forall c | c in succ[x] - children :: Branch(x, c, revision) in longer
    {
      var c :| c in children;
      if !exists q | q in longer :: q.parent == x && q.child == c && q.revision == revision {
        assert Branch(x, c, revision) !in longer;
        longer := longer + [Branch(x, c, revision)];
      } else {
        var q :| q in longer && q.parent == x && q.child == c && q.revision == revision;
        assert q == Branch(x, c, revision);
      }
      children := children - {c};
    }
    forall p | NewSplit(succ, revision, p) && p.parent !in todo - {x} ensures p in longer {
      if p.parent == x { assert p == Branch(x, p.child, revision); }
    }
  }

  // ---- storing ----

  method ListTable<T(!new, ==)>(table: map<Id, T>, ghost key: T -> Id) returns (list: seq<T>)
    requires forall x | x in table :: key(table[x]) == x
    ensures Distinct(list) && Elements(list) == table.Values
  {
    list := [];
    var todo := table.Keys;
    while todo != {}
      invariant todo <= table.Keys
      invariant Distinct(list) && (forall v | v in list :: key(v) in table && key(v) !in todo && v == table[key(v)])
      invariant forall x | x in table && x !in todo :: table[x] in list
    {
      var x :| x in todo;
      assert table[x] !in list;
      list := list + [table[x]];
      todo := todo - {x};
    }
    forall v | v in table.Values ensures v in list {
      var x :| x in table && table[x] == v;
    }
  }

  function RegistryOrder(r: IdentityRecord): seq<int> { [r.id] }
  function MemberOrder(m: Member): seq<int> { [m.key, m.record] }
  function AliasOrder(a: Alias): seq<int> { [a.source, a.revision, a.target] }
  function SplitOrder(s: Branch): seq<int> { [s.parent, s.revision, s.child] }

  /** `list` holds the rows of `all` in order. */
  ghost predicate OrderedRows<T>(list: seq<T>, rank: T -> seq<int>, all: set<T>) {
    Sorted(list, rank) && Elements(list) == all
  }

  /** The lists hold exactly the rows of the books, in their published order. */
  ghost predicate Lists(l: Ledger, b: Books) {
    && OrderedRows(l.registry, RegistryOrder, b.registry.Values) && Distinct(l.registry)
    && OrderedRows(l.members, MemberOrder, b.members.Values) && Distinct(l.members)
    && OrderedRows(l.aliases, AliasOrder, b.aliases) && Distinct(l.aliases)
    && OrderedRows(l.splits, SplitOrder, b.splits)
  }

  lemma SortedRows<T>(list: seq<T>, rank: T -> seq<int>)
    ensures OrderedRows(SortBy(list, rank), rank, Elements(list))
    ensures Distinct(list) ==> Distinct(SortBy(list, rank))
  {
    SortSorted(list, rank);
    SortElements(list, rank);
    SortMultiset(list, rank);
    if Distinct(list) { DistinctPermuted(list, SortBy(list, rank)); }
  }

  // ---- the whole publication ----

  /** What loading checks: unique keys, members of known identities, usable aliases. */
  ghost predicate Loadable(l: Ledger) {
    && DistinctBy(l.registry, ById())
    && DistinctBy(l.members, ByRecord())
    && MembersChecked(l.members, TableBy(l.registry, ById()))
    && AliasesValid(l.aliases, TableBy(l.registry, ById()))
  }

  ghost function BooksOf(l: Ledger): Books
    requires Loadable(l)
  {
    Books(TableBy(l.registry, ById()), TableBy(l.members, ByRecord()), Elements(l.aliases), Elements(l.splits))
  }

  /** When a publication is accepted. */
  ghost predicate Acceptable(l: Ledger, resolved: seq<Membership>, revision: Revision, supply: Supply) {
    && 0 < revision && Loadable(l) && DistinctBy(resolved, ByRow())
    && Fresh(BooksOf(l), TableBy(resolved, ByRow()), supply)
    && var n := Next(BooksOf(l), TableBy(resolved, ByRow()), revision, supply); ValidAliases(n.aliases, n.registry)
  }

  lemma LoadedBooks(l: Ledger)
    requires Loadable(l)
    ensures Filed(BooksOf(l)) && MembersValid(BooksOf(l))
  {
    var b := BooksOf(l);
    OneForKey(l.members, ByRecord());
    forall r | r in b.members ensures b.members[r].record == r && MemberValid(b.members[r], b.registry) {
      var k :| 0 <= k < |l.members| && l.members[k] == b.members[r];
      assert MemberValid(l.members[k], b.registry);
    }
    OneForKey(l.registry, ById());
  }

  method Load(l: Ledger) returns (r: Result<Books, LedgerError>)
    ensures r == if Loadable(l) then Ok(BooksOf(l)) else Err(IdentityInvalid)
  {
    var registry := RegistryMap(l.registry);
    if registry.Err? { return Err(registry.error); }
    var members := MembershipMap(l.members, registry.value);
    if members.Err? { return Err(members.error); }
    var aliases := ValidateAliases(l.aliases, registry.value);
    if aliases.Err? { return Err(aliases.error); }
    r := Ok(Books(registry.value, members.value, Elements(l.aliases), Elements(l.splits)));
  }

  /** The identity of every component, by the claims of the standing members. */
  method ChooseIds(b: Books, rows: Resolved, keys: set<Key>, supply: Supply)
    returns (r: Result<map<Key, Id>, LedgerError>, drawn: nat)
    requires Filed(b) && MembersValid(b) && keys == ComponentsOf(rows)
    ensures r == if Fresh(b, rows, supply) then Ok(Assigned(b, rows, supply)) else Err(IdentityInvalid)
    ensures r.Ok? ==> drawn == |NewComponents(b, rows)|
  {
    var anchors := Anchors(b, rows);
    AnchorsPlaced(b, rows, anchors);
    var claims := AnchorClaims(b, rows, anchors);
    var fixed: map<Key, Id> := FirstClaims(claims);
    FirstClaimsFix(b, rows, anchors, claims);
    ClaimantComponents(b, rows, fixed);
    ChosenIsAssigned(b, rows, fixed, supply);
    FreshIsDrawn(b, rows, fixed, supply);
    r, drawn := Assign(keys, fixed, b.registry, supply);
  }

  function FirstClaims(claims: map<Key, seq<Id>>): map<Key, Id> {
    map k | k in claims && claims[k] != [] :: claims[k][0]
  }

  lemma AnchorsPlaced(b: Books, rows: Resolved, anchors: map<Id, Id>)
    requires AllAnchors(b, rows, anchors)
    ensures forall x | x in anchors :: anchors[x] in rows
  {
    forall x | x in anchors ensures anchors[x] in rows { assert IsAnchor(b, rows, x, anchors[x]); }
  }

  lemma FirstClaimsFix(b: Books, rows: Resolved, anchors: map<Id, Id>, claims: map<Key, seq<Id>>)
    requires Filed(b) && MembersValid(b) && AllAnchors(b, rows, anchors)
    requires ClaimsAmong(rows, anchors, anchors.Keys, claims)
    requires forall j | j in claims :: Sorted(claims[j], OrderIn(b))
    ensures FixesClaimants(b, rows, FirstClaims(claims))
  {
    var fixed := FirstClaims(claims);
    forall k ensures (k in fixed <==> Claimed(b, rows, k)) && (k in fixed ==> IsClaimant(b, rows, k, fixed[k])) {
      FirstClaim(b, rows, anchors, claims, k);
    }
  }

  ghost predicate MapsSuccessors(b: Books, rows: Resolved, a: map<Key, Id>, succ: map<Id, set<Id>>)
    requires a.Keys == ComponentsOf(rows)
  {
    && (forall x :: x in succ <==> Successors(b, rows, a, x) != {})
    && (forall x | x in succ :: succ[x] == Successors(b, rows, a, x))
  }

  lemma AliasRowsAre(b: Books, rows: Resolved, a: map<Key, Id>, succ: map<Id, set<Id>>, revision: Revision,
      before: seq<Alias>, list: seq<Alias>)
    requires a.Keys == ComponentsOf(rows) && MapsSuccessors(b, rows, a, succ) && b.aliases == Elements(before)
    requires AliasesAmong(before, succ, revision, {}, list)
    ensures Elements(list) == b.aliases + NewAliases(b, rows, a, revision)
  {
    forall p: Alias ensures NewAlias(b.aliases, succ, revision, p) <==> p in NewAliases(b, rows, a, revision) {
      AliasRowIs(b, rows, a, succ, revision, p);
    }
  }

  lemma AliasRowIs(b: Books, rows: Resolved, a: map<Key, Id>, succ: map<Id, set<Id>>, revision: Revision, p: Alias)
    requires a.Keys == ComponentsOf(rows) && MapsSuccessors(b, rows, a, succ)
    ensures NewAlias(b.aliases, succ, revision, p) <==> p in NewAliases(b, rows, a, revision)
  {
    var x, c := p.source, p.target;
    if Successors(b, rows, a, x) == {c} {
      assert c in Successors(b, rows, a, x);
      var r := SuccessorFrom(b, rows, a, x, c);
      assert b.members[r].identity == x;
    }
    if NewAlias(b.aliases, succ, revision, p) { assert p == Alias(x, c, revision); }
  }

  lemma SplitRowsAre(b: Books, rows: Resolved, a: map<Key, Id>, succ: map<Id, set<Id>>, revision: Revision,
      before: seq<Branch>, list: seq<Branch>)
    requires a.Keys == ComponentsOf(rows) && MapsSuccessors(b, rows, a, succ) && b.splits == Elements(before)
    requires SplitsAmong(before, succ, revision, {}, list)
    ensures Elements(list) == b.splits + NewSplits(b, rows, a, revision)
  {
    forall p: Branch ensures NewSplit(succ, revision, p) <==> p in NewSplits(b, rows, a, revision) {
      SplitRowIs(b, rows, a, succ, revision, p);
    }
  }

  lemma SplitRowIs(b: Books, rows: Resolved, a: map<Key, Id>, succ: map<Id, set<Id>>, revision: Revision, p: Branch)
    requires a.Keys == ComponentsOf(rows) && MapsSuccessors(b, rows, a, succ)
    ensures NewSplit(succ, revision, p) <==> p in NewSplits(b, rows, a, revision)
  {
    var x, c := p.parent, p.child;
    if c in Successors(b, rows, a, x) {
      var r := SuccessorFrom(b, rows, a, x, c);
      assert b.members[r].identity == x;
    }
    if NewSplit(succ, revision, p) { assert p == Branch(x, c, revision); }
  }

  lemma RowsHaveComponents(rows: Resolved)
    ensures forall r | r in rows :: rows[r].component in ComponentsOf(rows)
  {
  }

  lemma FiledNext(b: Books, rows: Resolved, a: map<Key, Id>, revision: Revision)
    requires Filed(b) && a.Keys == ComponentsOf(rows)
    ensures Filed(Published(b, rows, a, revision))
  {
    RowsHaveComponents(rows);
  }

  /** The history lists after the publication, validated. */
  method BuildHistory(b: Books, rows: Resolved, a: map<Key, Id>, succ: map<Id, set<Id>>, aliases: seq<Alias>,
      splits: seq<Branch>, revision: Revision)
    returns (nextAliases: seq<Alias>, nextSplits: seq<Branch>)
    requires a.Keys == ComponentsOf(rows) && MapsSuccessors(b, rows, a, succ)
    requires b.aliases == Elements(aliases) && b.splits == Elements(splits) && Distinct(aliases)
    ensures Elements(nextAliases) == b.aliases + NewAliases(b, rows, a, revision) && Distinct(nextAliases)
    ensures Elements(nextSplits) == b.splits + NewSplits(b, rows, a, revision)
    ensures Distinct(splits) ==> Distinct(nextSplits)
  {
    nextAliases := AddAliases(aliases, succ, revision);
    AliasRowsAre(b, rows, a, succ, revision, aliases, nextAliases);
    nextSplits := AddSplits(splits, succ, revision);
    SplitRowsAre(b, rows, a, succ, revision, splits, nextSplits);
  }

  method Sort(registry: map<Id, IdentityRecord>, members: map<Id, Member>, aliases: seq<Alias>, splits: seq<Branch>)
    returns (l: Ledger)
    requires (forall x | x in registry :: registry[x].id == x) && (forall r | r in members :: members[r].record == r)
    requires Distinct(aliases)
    ensures Lists(l, Books(registry, members, Elements(aliases), Elements(splits)))
    ensures Distinct(splits) ==> Distinct(l.splits)
  {
    var identities := ListTable(registry, ById());
    var rows := ListTable(members, ByRecord());
    SortedRows(identities, RegistryOrder);
    SortedRows(rows, MemberOrder);
    SortedRows(aliases, AliasOrder);
    SortedRows(splits, SplitOrder);
    l := Ledger(SortBy(identities, RegistryOrder), SortBy(rows, MemberOrder), SortBy(aliases, AliasOrder),
      SortBy(splits, SplitOrder));
  }

  /** Builds, validates and stores the new tables. */
  method Publish(b: Books, rows: Resolved, a: map<Key, Id>, aliases: seq<Alias>, splits: seq<Branch>,
      revision: Revision)
    returns (r: Result<Ledger, LedgerError>)
    requires Filed(b) && a.Keys == ComponentsOf(rows)
    requires b.aliases == Elements(aliases) && b.splits == Elements(splits) && Distinct(aliases)
    ensures r.Ok? <==> ValidAliases(Published(b, rows, a, revision).aliases, Published(b, rows, a, revision).registry)
    ensures r.Err? ==> r.error == IdentityInvalid
    ensures r.Ok? ==> Lists(r.value, Published(b, rows, a, revision)) && (Distinct(splits) ==> Distinct(r.value.splits))
  {
    var succ := SuccessorMap(b, rows, a);
    RegistryGoal(b, rows, a, succ, revision);
    var registry := BuildRegistry(b.registry, a, succ, revision, NextRegistry(b, rows, a, revision));
    var nextAliases, nextSplits := BuildHistory(b, rows, a, succ, aliases, splits, revision);
    ListedAliases(nextAliases, registry);
    var valid := ValidateAliases(nextAliases, registry);
    if valid.Err? { return Err(valid.error); }
    RowsHaveComponents(rows);
    var members := BuildMembers(b, rows, a, revision);
    FiledNext(b, rows, a, revision);
    var l := Sort(registry, members, nextAliases, nextSplits);
    r := Ok(l);
  }

  /** One publication of the ledger: accepted exactly when the checks allow it, and then the lists of
      the specified books. */
  method Reconcile(ledger: Ledger, resolved: seq<Membership>, revision: Revision, supply: Supply)
    returns (r: Result<Ledger, LedgerError>, drawn: nat)
    ensures r.Ok? <==> Acceptable(ledger, resolved, revision, supply)
    ensures r.Err? ==> r.error == IdentityInvalid
    ensures r.Ok? ==> Lists(r.value, Next(BooksOf(ledger), TableBy(resolved, ByRow()), revision, supply))
    ensures r.Ok? ==> drawn == |NewComponents(BooksOf(ledger), TableBy(resolved, ByRow()))|
    ensures r.Ok? && Distinct(ledger.splits) ==> Distinct(r.value.splits)
  {
    drawn := 0;
    if revision <= 0 { return Err(IdentityInvalid), drawn; }
    var loaded := Load(ledger);
    if loaded.Err? { return Err(loaded.error), drawn; }
    var b := loaded.value;
    LoadedBooks(ledger);
    var components := Components(resolved);
    if components.Err? { return Err(components.error), drawn; }
    var (keys, rows) := components.value;
    var a;
    a, drawn := ChooseIds(b, rows, keys, supply);
    if a.Err? { return Err(a.error), drawn; }
    SingleTargetsDistinct(ledger.aliases);
    r := Publish(b, rows, a.value, ledger.aliases, ledger.splits, revision);
  }

  lemma SingleTargetsDistinct(aliases: seq<Alias>)
    requires SingleTargets(aliases)
    ensures Distinct(aliases)
  {
  }

  /** On a sound ledger every publication with a fresh allocator and a later revision is accepted:
      the alias check on the new rows cannot fail. */
  lemma SoundIsAccepted(l: Ledger, now: Revision, resolved: seq<Membership>, revision: Revision, supply: Supply)
    requires DistinctBy(l.registry, ById()) && DistinctBy(l.members, ByRecord()) && Distinct(l.aliases)
    requires var b :=
      Books(TableBy(l.registry, ById()), TableBy(l.members, ByRecord()), Elements(l.aliases), Elements(l.splits));
      && Sound(b, now) && DistinctBy(resolved, ByRow())
      && Publishable(b, now, Publication(TableBy(resolved, ByRow()), revision, supply))
    ensures Acceptable(l, resolved, revision, supply)
  {
    var b := Books(TableBy(l.registry, ById()), TableBy(l.members, ByRecord()), Elements(l.aliases),
      Elements(l.splits));
    SoundAliasesValid(b, now);
    ListedAliases(l.aliases, b.registry);
    SoundMembers(b, now, l.members);
    var p := Publication(TableBy(resolved, ByRow()), revision, supply);
    NextSound(b, now, p);
    SoundAliasesValid(Step(b, p), revision);
  }

  lemma SoundMembers(b: Books, now: Revision, list: seq<Member>)
    requires Sound(b, now) && DistinctBy(list, ByRecord()) && b.members == TableBy(list, ByRecord())
    ensures MembersChecked(list, b.registry)
  {
    forall k: nat | k < |list| ensures MemberValid(list[k], b.registry) {
      var m := list[k];
      OneForKey(list, ByRecord());
      assert ByRecord()(m) in b.members && b.members[m.record] == m;
      assert m.active ==> HasActiveMember(b, m.identity);
    }
  }
}
