/** Answering "what became of this identity": a bounded walk over the recorded moves. */
module IdentityHistory {
  import opened Prelude
  import opened Types
  import opened ResolverSpec
  import opened IdentitySpec
  import opened IdentityLedger
  import opened IdentityLineage
  import opened IdentityAliases
  import opened Identities

  /** The least 64-bit integer: every recorded revision comes after it. */
  const BEFORE_ALL: Revision := -0x8000_0000_0000_0000

  /** Only the history rows matter to the walk. */
  function HistoryOf(l: Ledger): Books {
    Books(map[], map[], Elements(l.aliases), Elements(l.splits))
  }

  type Transitions = map<(Id, Revision), set<Id>>

  /** Every move, by who moved and when. */
  ghost predicate Indexes(t: Transitions, b: Books) {
    && (forall p: Id, v, c: Id | Moves(b, p, v, c) :: (p, v) in t)
    && (forall p: Id, v | (p, v) in t :: t[(p, v)] == Children(b, p, v) && t[(p, v)] != {})
  }

  // ---- the cost of the walk ----

  /** How many identities the walk from `p` looks at; shared successors are looked at once per path. */
  ghost function Visits(b: Books, p: Id, since: Revision): nat
    decreases Remaining(b, since), 0
  {
    if Later(b, p, since) == {} then 1
    else
      var v := Earliest(Later(b, p, since));
      RemainingShrinks(b, p, since);
      1 + VisitsOfAll(b, Ascending(Children(b, p, v)), v)
  }

  ghost function VisitsOfAll(b: Books, todo: seq<Id>, since: Revision): nat
    decreases Remaining(b, since), |todo| + 1
  {
    if todo == [] then 0 else Visits(b, todo[0], since) + VisitsOfAll(b, todo[1..], since)
  }

  type Frontier = seq<(Id, Revision)>

  ghost function FrontierVisits(b: Books, f: Frontier): nat {
    if f == [] then 0 else FrontierVisits(b, f[..|f| - 1]) + Visits(b, f[|f| - 1].0, f[|f| - 1].1)
  }

  ghost function FrontierTerminals(b: Books, f: Frontier): set<Id> {
    if f == [] then {} else FrontierTerminals(b, f[..|f| - 1]) + Terminals(b, f[|f| - 1].0, f[|f| - 1].1)
  }

  ghost function TerminalsOfAll(b: Books, todo: seq<Id>, since: Revision): set<Id> {
    if todo == [] then {} else Terminals(b, todo[0], since) + TerminalsOfAll(b, todo[1..], since)
  }

  lemma TerminalsOfAllMeans(b: Books, todo: seq<Id>, since: Revision, t: Id)
    ensures t in TerminalsOfAll(b, todo, since) <==> exists c | c in todo :: t in Terminals(b, c, since)
  {
    if todo != [] {
      assert todo == [todo[0]] + todo[1..];
      TerminalsOfAllMeans(b, todo[1..], since, t);
      if c :| c in todo && t in Terminals(b, c, since) {
        assert c == todo[0] || c in todo[1..];
      }
      if t in Terminals(b, todo[0], since) { assert todo[0] in todo; }
      if c :| c in todo[1..] && t in Terminals(b, c, since) { assert c in todo; }
    }
  }

  /** One step of the walk replaces an identity by its children. */
  lemma TerminalsUnfold(b: Books, p: Id, since: Revision)
    requires Later(b, p, since) != {}
    ensures var v := Earliest(Later(b, p, since));
      Terminals(b, p, since) == TerminalsOfAll(b, Ascending(Children(b, p, v)), v)
  {
    var v := Earliest(Later(b, p, since));
    var children := Ascending(Children(b, p, v));
    AscendingEnumerates(Children(b, p, v));
    forall t ensures t in Terminals(b, p, since) <==> t in TerminalsOfAll(b, children, v) {
      TerminalsOfAllMeans(b, children, v, t);
      if t in Terminals(b, p, since) {
        var c :| c in Children(b, p, v) && t in Terminals(b, c, v);
        assert c in children;
      }
      if c :| c in children && t in Terminals(b, c, v) {
        assert c in Children(b, p, v);
      }
    }
  }

  lemma FrontierPush(b: Books, f: Frontier, x: Id, v: Revision)
    ensures FrontierVisits(b, f + [(x, v)]) == FrontierVisits(b, f) + Visits(b, x, v)
    ensures FrontierTerminals(b, f + [(x, v)]) == FrontierTerminals(b, f) + Terminals(b, x, v)
  {
    assert (f + [(x, v)])[..|f|] == f;
  }

  // ---- the walk ----

  method IndexMoves(l: Ledger) returns (t: Transitions)
    ensures Indexes(t, HistoryOf(l))
  {
    t := map[];
    assert Elements(l.aliases[..0]) == {};
    for i := 0 to |l.aliases|
      invariant Indexes(t, Books(map[], map[], Elements(l.aliases[..i]), {}))
    {
      var a := l.aliases[i];
      assert Elements(l.aliases[..i + 1]) == Elements(l.aliases[..i]) + {a};
      AliasIndexed(t, Elements(l.aliases[..i]), {}, a);
      var k := (a.source, a.revision);
      t := t[k := (if k in t then t[k] else {}) + {a.target}];
    }
    assert l.aliases[..|l.aliases|] == l.aliases;
    assert Elements(l.splits[..0]) == {};
    for i := 0 to |l.splits|
      invariant Indexes(t, Books(map[], map[], Elements(l.aliases), Elements(l.splits[..i])))
    {
      var s := l.splits[i];
      assert Elements(l.splits[..i + 1]) == Elements(l.splits[..i]) + {s};
      SplitIndexed(t, Elements(l.aliases), Elements(l.splits[..i]), s);
      var k := (s.parent, s.revision);
      t := t[k := (if k in t then t[k] else {}) + {s.child}];
    }
    assert l.splits[..|l.splits|] == l.splits;
  }

  lemma AliasIndexed(t: Transitions, aliases: set<Alias>, splits: set<Branch>, a: Alias)
    requires Indexes(t, Books(map[], map[], aliases, splits))
    ensures var k := (a.source, a.revision);
      Indexes(t[k := (if k in t then t[k] else {}) + {a.target}], Books(map[], map[], aliases + {a}, splits))
  {
    var b, n := Books(map[], map[], aliases, splits), Books(map[], map[], aliases + {a}, splits);
    forall p: Id, v
      ensures Children(n, p, v) == Children(b, p, v) + (if p == a.source && v == a.revision then {a.target} else {}) {
      forall c: Id
        ensures c in Children(n, p, v) <==>
        c in Children(b, p, v) || (p == a.source && v == a.revision && c == a.target) {
        ChildrenMeans(n, p, v, c);
        ChildrenMeans(b, p, v, c);
      }
    }
    NothingUnindexed(t, b, a.source, a.revision);
    forall p: Id, v, c: Id | Moves(n, p, v, c) ensures (p, v) == (a.source, a.revision) || (p, v) in t {
      ChildrenMeans(n, p, v, c);
      ChildrenMeans(b, p, v, c);
    }
  }

  lemma SplitIndexed(t: Transitions, aliases: set<Alias>, splits: set<Branch>, s: Branch)
    requires Indexes(t, Books(map[], map[], aliases, splits))
    ensures var k := (s.parent, s.revision);
      Indexes(t[k := (if k in t then t[k] else {}) + {s.child}], Books(map[], map[], aliases, splits + {s}))
  {
    var b, n := Books(map[], map[], aliases, splits), Books(map[], map[], aliases, splits + {s});
    forall p: Id, v
      ensures Children(n, p, v) == Children(b, p, v) + (if p == s.parent && v == s.revision then {s.child} else {}) {
      forall c: Id
        ensures c in Children(n, p, v) <==>
        c in Children(b, p, v) || (p == s.parent && v == s.revision && c == s.child) {
        ChildrenMeans(n, p, v, c);
        ChildrenMeans(b, p, v, c);
      }
    }
    NothingUnindexed(t, b, s.parent, s.revision);
    forall p: Id, v, c: Id | Moves(n, p, v, c) ensures (p, v) == (s.parent, s.revision) || (p, v) in t {
      ChildrenMeans(n, p, v, c);
      ChildrenMeans(b, p, v, c);
    }
  }

  lemma NothingUnindexed(t: Transitions, b: Books, p: Id, v: Revision)
    requires Indexes(t, b)
    ensures (if (p, v) in t then t[(p, v)] else {}) == Children(b, p, v)
  {
    forall c ensures c in Children(b, p, v) ==> (p, v) in t {
      ChildrenMeans(b, p, v, c);
    }
  }

  /** The first move of `p` after `since`, if there is one. */
  method NextMove(t: Transitions, p: Id, since: Revision, ghost b: Books) returns (next: Option<Revision>)
    requires Indexes(t, b)
    ensures next.None? <==> Later(b, p, since) == {}
    ensures next.Some? ==> next.value == Earliest(Later(b, p, since)) && (p, next.value) in t
  {
    next := None;
    var todo := t.Keys;
    while todo != {}
      invariant todo <= t.Keys
      invariant next.Some? ==> (p, next.value) in t && next.value > since
      invariant forall v | (p, v) in t && (p, v) !in todo && v > since :: next.Some? && next.value <= v
    {
      var k :| k in todo;
      if k.0 == p && k.1 > since && (next.None? || k.1 < next.value) {
        next := Some(k.1);
      }
      todo := todo - {k};
      assert forall v | (p, v) in t && (p, v) !in todo :: (p, v) !in todo + {k} || k == (p, v);
    }
    forall v ensures v in Later(b, p, since) <==> (p, v) in t && v > since { LaterIndexed(t, b, p, since, v); }
  }

  lemma LaterIndexed(t: Transitions, b: Books, p: Id, since: Revision, v: Revision)
    requires Indexes(t, b)
    ensures v in Later(b, p, since) <==> (p, v) in t && v > since
  {
    LaterMeans(b, p, since, v);
    if (p, v) in t {
      var c :| c in t[(p, v)];
      ChildrenMeans(b, p, v, c);
    }
  }

  method AscendingList(s: set<Id>) returns (list: seq<Id>)
    ensures list == Ascending(s)
  {
    list := [];
    var rest := s;
    while rest != {}
      invariant list + Ascending(rest) == Ascending(s)
    {
      LeastKey(rest);
      var m :| m in rest && forall x | x in rest :: m <= x;
      assert m == MinOf(rest);
      assert list + ([m] + Ascending(rest - {m})) == (list + [m]) + Ascending(rest - {m});
      list := list + [m];
      rest := rest - {m};
    }
  }

  method PushAll(f: Frontier, children: seq<Id>, v: Revision, ghost b: Books) returns (longer: Frontier)
    ensures FrontierVisits(b, longer) == FrontierVisits(b, f) + VisitsOfAll(b, children, v)
    ensures FrontierTerminals(b, longer) == FrontierTerminals(b, f) + TerminalsOfAll(b, children, v)
  {
    longer := f;
    for i := 0 to |children|
      invariant FrontierVisits(b, longer) + VisitsOfAll(b, children[i..], v) == FrontierVisits(b, f)
        + VisitsOfAll(b, children, v)
      invariant FrontierTerminals(b, longer) + TerminalsOfAll(b, children[i..], v) == FrontierTerminals(b, f)
        + TerminalsOfAll(b, children, v)
    {
      FrontierPush(b, longer, children[i], v);
      assert children[i..][1..] == children[i + 1..];
      longer := longer + [(children[i], v)];
    }
  }

  /** What a query answers: the walk's terminals in order, unless a check fails or it looks at too much. */
  ghost function Answer(l: Ledger, start: Id, maxWork: nat): Result<seq<Id>, LedgerError> {
    if maxWork == 0 || !DistinctBy(l.registry, ById())
      || !AliasesValid(l.aliases, TableBy(l.registry, ById())) then Err(IdentityInvalid)
    else if Visits(HistoryOf(l), start, BEFORE_ALL) > maxWork then Err(IdentityLimit(maxWork + 1, maxWork))
    else Ok(Ascending(Terminals(HistoryOf(l), start, BEFORE_ALL)))
  }

  /** The current successors of an identity. */
  method CurrentSuccessors(l: Ledger, start: Id, maxWork: nat) returns (r: Result<seq<Id>, LedgerError>)
    ensures r == Answer(l, start, maxWork)
  {
    if maxWork == 0 { return Err(IdentityInvalid); }
    var registry := RegistryMap(l.registry);
    if registry.Err? { return Err(registry.error); }
    var valid := ValidateAliases(l.aliases, registry.value);
    if valid.Err? { return Err(valid.error); }
    var transitions := IndexMoves(l);
    r := Walk(transitions, start, maxWork, HistoryOf(l));
  }

  method Walk(transitions: Transitions, start: Id, maxWork: nat, ghost b: Books)
    returns (r: Result<seq<Id>, LedgerError>)
    requires Indexes(transitions, b)
    ensures r == if Visits(b, start, BEFORE_ALL) > maxWork then Err(IdentityLimit(maxWork + 1, maxWork))
                 else Ok(Ascending(Terminals(b, start, BEFORE_ALL)))
  {
    var frontier: Frontier := [(start, BEFORE_ALL)];
    FrontierPush(b, [], start, BEFORE_ALL);
    assert [] + [(start, BEFORE_ALL)] == frontier;
    var terminals: set<Id> := {};
    var work := 0;
    while frontier != []
      invariant work <= maxWork
      invariant work + FrontierVisits(b, frontier) == Visits(b, start, BEFORE_ALL)
      invariant terminals + FrontierTerminals(b, frontier) == Terminals(b, start, BEFORE_ALL)
      decreases maxWork - work
    {
      var (id, revision) := frontier[|frontier| - 1];
      frontier := frontier[..|frontier| - 1];
      work := work + 1;
      if work > maxWork { return Err(IdentityLimit(work, maxWork)); }
      var next := NextMove(transitions, id, revision, b);
      if next.Some? {
        var children := AscendingList(transitions[(id, next.value)]);
        TerminalsUnfold(b, id, revision);
        frontier := PushAll(frontier, children, next.value, b);
      } else {
        terminals := terminals + {id};
      }
    }
    var list := AscendingList(terminals);
    r := Ok(list);
  }

  // ---- the answer on a published ledger ----

  lemma SameHistory(b: Books, c: Books, p: Id, since: Revision)
    requires b.aliases == c.aliases && b.splits == c.splits
    ensures Terminals(b, p, since) == Terminals(c, p, since)
    decreases Remaining(b, since)
  {
    if Later(b, p, since) != {} {
      var v := Earliest(Later(b, p, since));
      RemainingShrinks(b, p, since);
      assert Later(b, p, since) == Later(c, p, since) && Children(b, p, v) == Children(c, p, v);
      forall x | x in Children(b, p, v) ensures Terminals(b, x, v) == Terminals(c, x, v) {
        SameHistory(b, c, x, v);
      }
    }
  }

  lemma ListedRegistry(l: Ledger, b: Books)
    requires Filed(b) && Lists(l, b)
    ensures DistinctBy(l.registry, ById()) && TableBy(l.registry, ById()) == b.registry
  {
    forall row | row in l.registry ensures row.id in b.registry && b.registry[row.id] == row {
      assert row in Elements(l.registry);
    }
    forall x | x in b.registry ensures b.registry[x] in l.registry {
      assert b.registry[x] in b.registry.Values;
      assert b.registry[x] in Elements(l.registry);
    }
    forall i, j | 0 <= i < j < |l.registry| ensures ById()(l.registry[i]) != ById()(l.registry[j]) {
      assert l.registry[i] in l.registry && l.registry[j] in l.registry;
    }
    OneForKey(l.registry, ById());
  }

  /** On a sound ledger a query with enough work answers, and names no merged or split identity. */
  lemma QueryAnswers(l: Ledger, b: Books, now: Revision, x: Id, maxWork: nat)
    requires Sound(b, now) && Lists(l, b) && x in b.registry
    requires 0 < maxWork && Visits(HistoryOf(l), x, BEFORE_ALL) <= maxWork
    ensures Answer(l, x, maxWork) == Ok(Ascending(Terminals(b, x, BEFORE_ALL)))
    ensures forall t | t in Answer(l, x, maxWork).value ::
      t in b.registry && (b.registry[t].status.Active? || b.registry[t].status.Retired?)
  {
    ListedRegistry(l, b);
    SoundAliasesValid(b, now);
    ListedAliases(l.aliases, b.registry);
    SameHistory(HistoryOf(l), b, x, BEFORE_ALL);
    AscendingEnumerates(Terminals(b, x, BEFORE_ALL));
    forall t | t in Ascending(Terminals(b, x, BEFORE_ALL))
      ensures t in b.registry && (b.registry[t].status.Active? || b.registry[t].status.Retired?)
    {
      assert RowSound(b.registry[x], now, HasActiveMember(b, x));
      TerminalsEnded(b, now, x, BEFORE_ALL, t);
    }
  }

  /** Asking after any run what became of an identity finds every record that belonged to it when the
      run began and was resolved ever since. */
  lemma QueryFindsMembers(b: Books, now: Revision, run: seq<Publication>, l: Ledger, r: Id, maxWork: nat)
    requires Sound(b, now) && ValidRun(b, now, run) && Lists(l, After(b, run))
    requires r in b.members && b.members[r].active && forall p | p in run :: r in p.rows
    requires 0 < maxWork && Visits(HistoryOf(l), b.members[r].identity, BEFORE_ALL) <= maxWork
    ensures r in After(b, run).members
    ensures Answer(l, b.members[r].identity, maxWork).Ok?
    ensures After(b, run).members[r].identity in Answer(l, b.members[r].identity, maxWork).value
  {
    var x, n := b.members[r].identity, After(b, run);
    RunSound(b, now, run);
    RunExtends(b, now, run);
    LineageComplete(b, now, run, r, BEFORE_ALL);
    assert x in n.registry;
    QueryAnswers(l, n, LastRevision(now, run), x, maxWork);
    AscendingEnumerates(Terminals(n, x, BEFORE_ALL));
  }
}
