/** Alias chains: following them, validating them, and why a published ledger never breaks them. */
module IdentityAliases {
  import opened Prelude
  import opened Types
  import opened IdentitySpec
  import opened IdentityLedger

  datatype LedgerError = IdentityInvalid | IdentityLimit(observed: nat, limit: nat)

  /** No alias names itself, and no alias has two targets. */
  predicate SingleTargets(aliases: seq<Alias>) {
    && (forall i | 0 <= i < |aliases| :: aliases[i].source != aliases[i].target)
    && (forall i, j | 0 <= i < j < |aliases| :: aliases[i].source != aliases[j].source)
  }

  ghost predicate OneTargetEach(aliases: set<Alias>) {
    forall a, c | a in aliases && c in aliases && a.source == c.source :: a == c
  }

  ghost function TargetsOf(aliases: set<Alias>): map<Id, Id>
    requires OneTargetEach(aliases)
  {
    map a | a in aliases :: a.source := a.target
  }

  lemma OneTarget(aliases: seq<Alias>)
    requires SingleTargets(aliases)
    ensures OneTargetEach(Elements(aliases))
  {
    forall a, c | a in aliases && c in aliases && a.source == c.source ensures a == c {
      var i :| 0 <= i < |aliases| && aliases[i] == a;
      var j :| 0 <= j < |aliases| && aliases[j] == c;
    }
  }

  ghost function Targets(aliases: seq<Alias>): map<Id, Id>
    requires SingleTargets(aliases)
  {
    OneTarget(aliases);
    TargetsOf(Elements(aliases))
  }

  /** Follows targets until one is not itself an alias; fails on coming back to a visited id. */
  ghost function Chase(m: map<Id, Id>, x: Id, visited: set<Id>): Result<Id, LedgerError>
    decreases m.Keys - visited
  {
    if x !in m then Ok(x)
    else if x in visited then Err(IdentityInvalid)
    else Chase(m, m[x], visited + {x})
  }

  ghost function AliasEnd(aliases: seq<Alias>, start: Id): Result<Id, LedgerError> {
    if SingleTargets(aliases) then Chase(Targets(aliases), start, {}) else Err(IdentityInvalid)
  }

  lemma TargetsNext(seen: seq<Alias>, a: Alias)
    requires SingleTargets(seen) && a.source != a.target && a.source !in Targets(seen)
    ensures SingleTargets(seen + [a]) && Targets(seen + [a]) == Targets(seen)[a.source := a.target]
  {
    forall c | c in seen ensures c.source != a.source { assert c.source in Targets(seen); }
    forall i | 0 <= i < |seen| ensures (seen + [a])[i].source != a.source { assert seen[i] in seen; }
    OneTarget(seen + [a]);
    OneTarget(seen);
  }

  method IndexAliases(aliases: seq<Alias>) returns (r: Result<map<Id, Id>, LedgerError>)
    ensures r == if SingleTargets(aliases) then Ok(Targets(aliases)) else Err(IdentityInvalid)
  {
    var byAlias: map<Id, Id> := map[];
    for i := 0 to |aliases|
      invariant SingleTargets(aliases[..i])
      invariant byAlias == Targets(aliases[..i])
    {
      var a := aliases[i];
      assert aliases[..i + 1] == aliases[..i] + [a];
      if a.source == a.target { return Err(IdentityInvalid); }
      if a.source in byAlias {
        var c :| c in aliases[..i] && c.source == a.source;
        return Err(IdentityInvalid);
      }
      TargetsNext(aliases[..i], a);
      byAlias := byAlias[a.source := a.target];
    }
    assert aliases[..|aliases|] == aliases;
    r := Ok(byAlias);
  }

  /** Resolves an alias through its chain. */
  method ResolveAlias(aliases: seq<Alias>, start: Id) returns (r: Result<Id, LedgerError>)
    ensures r == AliasEnd(aliases, start)
  {
    var byAlias := IndexAliases(aliases);
    if byAlias.Err? { return Err(byAlias.error); }
    var m := byAlias.value;
    var current := start;
    var visited: set<Id> := {};
    while current in m
      invariant Chase(m, current, visited) == Chase(m, start, {})
      decreases m.Keys - visited
    {
      if current in visited { return Err(IdentityInvalid); }
      visited := visited + {current};
      current := m[current];
    }
    r := Ok(current);
  }

  // ---- what resolving an alias means ----

  /** Each id of `p` is the target of the one before it. */
  ghost predicate Chain(m: map<Id, Id>, p: seq<Id>) {
    p != [] && forall i: nat | i < |p| - 1 :: p[i] in m && m[p[i]] == p[i + 1]
  }

  ghost predicate ChainTo(m: map<Id, Id>, p: seq<Id>, x: Id, y: Id) {
    Chain(m, p) && p[0] == x && p[|p| - 1] == y && y !in m
  }

  lemma {:induction false} ChaseFinds(m: map<Id, Id>, x: Id, visited: set<Id>) returns (p: seq<Id>)
    requires Chase(m, x, visited).Ok?
    ensures ChainTo(m, p, x, Chase(m, x, visited).value)
    decreases m.Keys - visited
  {
    if x !in m {
      p := [x];
    } else {
      var q := ChaseFinds(m, m[x], visited + {x});
      p := [x] + q;
      forall i: nat | i < |p| - 1 ensures p[i] in m && m[p[i]] == p[i + 1] {
        if i > 0 { assert p[i] == q[i - 1] && p[i + 1] == q[i]; }
      }
    }
  }

  /** A chain that ends visits nothing twice. */
  lemma {:induction false} ChainDistinct(m: map<Id, Id>, p: seq<Id>, i: nat, j: nat)
    requires Chain(m, p) && p[|p| - 1] !in m && i < j < |p|
    ensures p[i] != p[j]
    decreases |p| - j
  {
    if j < |p| - 1 {
      ChainDistinct(m, p, i + 1, j + 1);
      assert m[p[i]] == p[i + 1] && m[p[j]] == p[j + 1];
    } else {
      assert p[i] in m;
    }
  }

  lemma {:induction false} ChaseFollows(m: map<Id, Id>, p: seq<Id>, i: nat, visited: set<Id>)
    requires Chain(m, p) && p[|p| - 1] !in m && i < |p|
    requires visited == set k: nat | k < i :: p[k]
    ensures Chase(m, p[i], visited) == Ok(p[|p| - 1])
    decreases |p| - i
  {
    if i < |p| - 1 {
      forall k: nat | k < i ensures p[k] != p[i] { ChainDistinct(m, p, k, i); }
      assert p[i] !in visited;
      assert visited + {p[i]} == set k: nat | k < i + 1 :: p[k];
      ChaseFollows(m, p, i + 1, visited + {p[i]});
    }
  }

  /** Resolving succeeds exactly when some chain of targets leaves the aliases, and gives its end. */
  lemma ResolvesAlongChain(aliases: seq<Alias>, start: Id, y: Id)
    requires SingleTargets(aliases)
    ensures AliasEnd(aliases, start) == Ok(y) <==> exists p :: ChainTo(Targets(aliases), p, start, y)
  {
    var m := Targets(aliases);
    if AliasEnd(aliases, start) == Ok(y) {
      var p := ChaseFinds(m, start, {});
    }
    if p :| ChainTo(m, p, start, y) {
      ChaseFollows(m, p, 0, {});
    }
  }

  // ---- validation ----

  ghost predicate AliasesValid(aliases: seq<Alias>, registry: map<Id, IdentityRecord>) {
    && (forall a | a in aliases :: a.source in registry && a.target in registry)
    && SingleTargets(aliases)
    && (forall a | a in aliases :: AliasEnd(aliases, a.source).Ok?)
  }

  method ValidateAliases(aliases: seq<Alias>, registry: map<Id, IdentityRecord>) returns (r: Result<(), LedgerError>)
    ensures r == if AliasesValid(aliases, registry) then Ok(()) else Err(IdentityInvalid)
  {
    for i := 0 to |aliases|
      invariant forall a | a in aliases[..i] :: a.source in registry && a.target in registry
    {
      assert aliases[..i + 1] == aliases[..i] + [aliases[i]];
      if aliases[i].source !in registry || aliases[i].target !in registry { return Err(IdentityInvalid); }
    }
    assert aliases[..|aliases|] == aliases;
    for i := 0 to |aliases|
      invariant i > 0 ==> SingleTargets(aliases)
      invariant forall a | a in aliases[..i] :: AliasEnd(aliases, a.source).Ok?
    {
      assert aliases[..i + 1] == aliases[..i] + [aliases[i]];
      var end := ResolveAlias(aliases, aliases[i].source);
      if end.Err? {
        assert aliases[i] in aliases;
        return Err(IdentityInvalid);
      }
    }
    r := Ok(());
  }

  /** The same on the table: one target each, known ids, no cycle. */
  ghost predicate ValidAliases(aliases: set<Alias>, registry: map<Id, IdentityRecord>) {
    && (forall a | a in aliases :: a.source in registry && a.target in registry && a.source != a.target)
    && OneTargetEach(aliases)
    && (forall a | a in aliases :: Chase(TargetsOf(aliases), a.source, {}).Ok?)
  }

  lemma ListedAliases(aliases: seq<Alias>, registry: map<Id, IdentityRecord>)
    requires Distinct(aliases)
    ensures AliasesValid(aliases, registry) <==> ValidAliases(Elements(aliases), registry)
  {
    if OneTargetEach(Elements(aliases)) && forall a | a in Elements(aliases) :: a.source != a.target {
      forall i, j | 0 <= i < j < |aliases| ensures aliases[i].source != aliases[j].source {
        assert aliases[i] in Elements(aliases) && aliases[j] in Elements(aliases);
      }
      forall i | 0 <= i < |aliases| ensures aliases[i].source != aliases[i].target {
        assert aliases[i] in Elements(aliases);
      }
      assert SingleTargets(aliases);
    }
    if SingleTargets(aliases) {
      OneTarget(aliases);
      forall a | a in aliases ensures a.source != a.target {
        var i :| 0 <= i < |aliases| && aliases[i] == a;
      }
    }
  }

  // ---- a sound ledger's aliases ----

  ghost predicate RetiredBefore(first: IdentityRecord, second: IdentityRecord) {
    first.retired.Some? && (second.retired.Some? ==> first.retired.value < second.retired.value)
  }

  /** Along a chain identities were retired later and later, so no chain comes back. */
  lemma {:induction false} SoundChase(b: Books, now: Revision, x: Id, visited: set<Id>)
    requires Sound(b, now) && x in b.registry
    requires forall u | u in visited :: u in b.registry && RetiredBefore(b.registry[u], b.registry[x])
    ensures var end := Chase(TargetsOf(b.aliases), x, visited);
      end.Ok? && end.value in b.registry && !b.registry[end.value].status.Merged?
    decreases TargetsOf(b.aliases).Keys - visited
  {
    var m := TargetsOf(b.aliases);
    if x in m {
      var a :| a in b.aliases && a.source == x;
      assert a == Alias(x, m[x], a.revision);
      assert MoveSound(b, now, x, a.revision, m[x]);
      SoundChase(b, now, m[x], visited + {x});
    }
  }

  /** Validating the aliases of a sound ledger never fails. */
  lemma SoundAliasesValid(b: Books, now: Revision)
    requires Sound(b, now)
    ensures ValidAliases(b.aliases, b.registry)
  {
    forall a | a in b.aliases
      ensures a.source in b.registry && a.target in b.registry && a.source != a.target
      ensures Chase(TargetsOf(b.aliases), a.source, {}).Ok?
    {
      assert a == Alias(a.source, a.target, a.revision);
      assert MoveSound(b, now, a.source, a.revision, a.target);
      SoundChase(b, now, a.source, {});
    }
  }

  /** And every registered id resolves to one that was not merged. */
  lemma SoundAliasesResolve(b: Books, now: Revision, aliases: seq<Alias>, x: Id)
    requires Sound(b, now) && Distinct(aliases) && Elements(aliases) == b.aliases && x in b.registry
    ensures AliasEnd(aliases, x).Ok? && AliasEnd(aliases, x).value in b.registry
    ensures !b.registry[AliasEnd(aliases, x).value].status.Merged?
  {
    SoundAliasesValid(b, now);
    ListedAliases(aliases, b.registry);
    SoundChase(b, now, x, {});
  }
}
