/** The refresh graph of a definition, as nodes and dependencies. */
module GraphCompiler {
  import opened Prelude
  import opened Sorting
  import opened Candidates
  import opened ArtifactGraphs

  datatype Source = Source(name: string, fields: set<string>)

  datatype BlockingRule = BlockingRule(kind: ChannelKind, prefixLength: Option<nat>, tokenMinLength: Option<nat>)

  datatype MatchRule = MatchRule(name: string, fields: seq<string>, candidate: Option<BlockingRule>)

  datatype Definition = Definition(name: string, sources: seq<Source>, fields: seq<string>, rules: seq<MatchRule>,
      golden: seq<string>)

  // ---- what a definition is asked for ----

  function SourceName(s: Source): string { s.name }
  function RuleName(r: MatchRule): string { r.name }
  function ChannelRank(c: Channel): seq<int> { Codes(c.id) }

  predicate Blocks(r: MatchRule) { r.candidate.Some? }

  function ChannelOf(r: MatchRule): Channel {
    match r.candidate
    case Some(b) => Channel(r.name, b.kind, r.fields, b.prefixLength, b.tokenMinLength)
    case None => Channel(r.name, Exact, r.fields, None, None)
  }

  function SortedChannels(d: Definition): Plan {
    SortBy(Map(Filter(d.rules, Blocks), ChannelOf), ChannelRank)
  }

  predicate LocallyValid(d: Definition) {
    && d.sources != [] && d.fields != [] && d.rules != []
    && Distinct(Map(d.sources, SourceName)) && Distinct(d.fields) && Distinct(Map(d.rules, RuleName))
      && Distinct(d.golden)
    && (forall r | r in d.rules :: r.fields != [] && forall f | f in r.fields :: f in d.fields)
    && PlanValid(SortedChannels(d))
    && (forall f | f in d.golden :: f in d.fields)
  }

  // ---- the graph ----

  /** The kinds of node, in the order they are built on one another. */
  datatype Kind =
    | Records | FieldRows | BlockRows | BlockStats | BlockOverflow | CandidateRaw | CandidateSet
    | PairStats | PairOverflow | PairRows | Evidence | Golden

  function Word(k: Kind): string {
    match k
    case Records => "records"
    case FieldRows => "normalized"
    case BlockRows => "blocks"
    case BlockStats => "block-stats"
    case BlockOverflow => "block-overflow"
    case CandidateRaw => "candidate-raw"
    case CandidateSet => "candidate-set"
    case PairStats => "pair-stats"
    case PairOverflow => "pair-overflow"
    case PairRows => "pairs"
    case Evidence => "evidence"
    case Golden => "golden"
  }

  function Id(kind: Kind, name: string): string { Word(kind) + "/" + name }

  function IdsOf(kind: Kind, names: seq<string>): (r: seq<string>)
    ensures |r| == |names| && forall i | 0 <= i < |r| :: r[i] == Id(kind, names[i])
  {
    if names == [] then [] else [Id(kind, names[0])] + IdsOf(kind, names[1..])
  }

  function Make(kind: Kind, name: string, dependencies: seq<string>): Node {
    Node(Id(kind, name), dependencies, Differential, false, true, true)
  }

  function SourceNodes(sources: seq<Source>): seq<Node> {
    if sources == [] then [] else [Make(Records, sources[0].name, [])] + SourceNodes(sources[1..])
  }

  function Carriers(field: string, sources: seq<Source>): seq<string> {
    if sources == [] then []
    else (if field in sources[0].fields then [Id(Records, sources[0].name)] else []) + Carriers(field, sources[1..])
  }

  /** A field is read from the sources that map it, or else from the first. */
  function NormalizedNode(field: string, sources: seq<Source>): Node {
    var carriers := Carriers(field, sources);
    Make(FieldRows, field, if carriers == [] && sources != [] then [Id(Records, sources[0].name)] else carriers)
  }

  function NormalizedNodes(fields: seq<string>, sources: seq<Source>): seq<Node> {
    if fields == [] then [] else [NormalizedNode(fields[0], sources)] + NormalizedNodes(fields[1..], sources)
  }

  function ChannelNodes(c: Channel): seq<Node> {
    [ Make(BlockRows, c.id, IdsOf(FieldRows, c.fields)),
      Make(BlockStats, c.id, [Id(BlockRows, c.id)]),
      Make(BlockOverflow, c.id, [Id(BlockStats, c.id)]) ]
  }

  function PlanNodes(plan: Plan): seq<Node> {
    if plan == [] then [] else ChannelNodes(plan[0]) + PlanNodes(plan[1..])
  }

  function PlanIds(plan: Plan): seq<string> {
    if plan == [] then []
    else [Id(BlockRows, plan[0].id), Id(BlockStats, plan[0].id), Id(BlockOverflow, plan[0].id)] + PlanIds(plan[1..])
  }

  function RuleFields(rules: seq<MatchRule>): seq<string> {
    if rules == [] then [] else rules[0].fields + RuleFields(rules[1..])
  }

  /** The fields rules compare, in order and each once. */
  function EvidenceFields(d: Definition): seq<string> {
    Dedup(SortBy(RuleFields(d.rules), Codes))
  }

  /** An invalid plan counts as no channels at all. */
  function CompiledPlan(d: Definition): Plan {
    if PlanValid(SortedChannels(d)) then SortedChannels(d) else []
  }

  function CandidateSources(d: Definition): seq<string> {
    if CompiledPlan(d) == [] && d.sources != [] then [Id(Records, d.sources[0].name)] else PlanIds(CompiledPlan(d))
  }

  function Uncompared(d: Definition): seq<string> {
    var evidence := EvidenceFields(d);
    Filter(d.fields, (f: string) => f !in evidence && f !in d.golden)
  }

  function PairRowsNode(name: string, evidence: seq<string>): Node {
    Make(PairRows, name, [Id(CandidateSet, name)] + IdsOf(FieldRows, evidence) + [Id(PairOverflow, name)])
  }

  function GoldenNode(name: string, golden: seq<string>, uncompared: seq<string>): Node {
    Make(Golden, name, IdsOf(FieldRows, golden) + IdsOf(FieldRows, uncompared)
      + [Id(PairRows, name), Id(Evidence, name)])
  }

  /** A node over one other node of the entity. */
  function Over(kind: Kind, below: Kind, name: string): Node {
    Make(kind, name, [Id(below, name)])
  }

  function CandidateNodes(name: string, sources: seq<string>): seq<Node> {
    [Make(CandidateRaw, name, sources), Over(CandidateSet, CandidateRaw, name), Over(PairStats, CandidateSet, name),
      Over(PairOverflow, PairStats, name)]
  }

  function PairNodes(name: string, evidence: seq<string>, golden: seq<string>, uncompared: seq<string>): seq<Node> {
    [PairRowsNode(name, evidence), Over(Evidence, PairRows, name), GoldenNode(name, golden, uncompared)]
  }

  function EntityNodes(d: Definition): seq<Node> {
    CandidateNodes(d.name, CandidateSources(d)) + PairNodes(d.name, EvidenceFields(d), d.golden, Uncompared(d))
  }

  function Compile(d: Definition): (seq<Node>, seq<string>) {
    (SourceNodes(d.sources) + NormalizedNodes(d.fields, d.sources) + PlanNodes(CompiledPlan(d)) + EntityNodes(d),
     [Id(Golden, d.name)])
  }

  // ---- what an id says ----

  function Level(k: Kind): nat {
    match k
    case Records => 0
    case FieldRows => 1
    case BlockRows => 2
    case BlockStats => 3
    case BlockOverflow => 4
    case CandidateRaw => 5
    case CandidateSet => 6
    case PairStats => 7
    case PairOverflow => 8
    case PairRows => 9
    case Evidence => 10
    case Golden => 11
  }

  lemma WordsDiffer(k: Kind, l: Kind)
    requires k != l
    ensures Word(k) != Word(l)
  {
    var x, y := Word(k), Word(l);
    assert |x| != |y| || x[0] != y[0] || x[|x| - 1] != y[|y| - 1];
  }

  lemma NoSlash(k: Kind)
    ensures '/' !in Word(k)
  {
  }

  lemma IdSplits(k: Kind, n: string, l: Kind, m: string)
    requires Id(k, n) == Id(l, m)
    ensures k == l && n == m
  {
    NoSlash(k);
    NoSlash(l);
    WordSplits(Word(k), n, Word(l), m);
    if k != l { WordsDiffer(k, l); }
  }

  lemma WordSplits(k: string, n: string, l: string, m: string)
    requires '/' !in k && '/' !in l && k + "/" + n == l + "/" + m
    ensures k == l && n == m
  {
    var x, y := k + "/" + n, l + "/" + m;
    assert x[|k|] == '/' && y[|l|] == '/';
    assert forall i | 0 <= i < |k| :: x[i] == k[i] && k[i] in k;
    assert forall i | 0 <= i < |l| :: y[i] == l[i] && l[i] in l;
    assert k == x[..|k|] && l == y[..|l|];
    assert n == x[|k| + 1..] && m == y[|l| + 1..];
  }

  /** The node, if any, that is at the level and has the name. */
  ghost predicate Spells(id: string, level: nat, name: string) {
    exists k :: Level(k) == level && id == Id(k, name)
  }

  ghost predicate AtLevel(id: string, level: nat) {
    exists name :: Spells(id, level, name)
  }

  lemma SpellsDedup(id: string, level: nat, name: string, other: nat, called: string)
    requires Spells(id, level, name) && Spells(id, other, called)
    ensures level == other && name == called
  {
    var k :| Level(k) == level && id == Id(k, name);
    var l :| Level(l) == other && id == Id(l, called);
    IdSplits(k, name, l, called);
  }

  lemma LevelDedup(id: string, level: nat, other: nat)
    requires AtLevel(id, level) && AtLevel(id, other)
    ensures level == other
  {
    var name :| Spells(id, level, name);
    var called :| Spells(id, other, called);
    SpellsDedup(id, level, name, other, called);
  }

  lemma MakeSpells(k: Kind, name: string)
    ensures Spells(Id(k, name), Level(k), name) && AtLevel(Id(k, name), Level(k))
  {
  }

  // ---- dependencies go down and lead to nodes ----

  ghost predicate Lower(id: string, level: nat) {
    exists below: nat :: below < level && AtLevel(id, below)
  }

  /** The node runs, and each dependency is a node of a lower level. */
  ghost predicate Grounded(n: Node, names: set<string>) {
    && Runs(n)
    && exists level: nat :: AtLevel(n.id, level) && DependsBelow(n.dependencies, level, names)
  }

  ghost predicate DependsBelow(dependencies: seq<string>, level: nat, names: set<string>) {
    forall d | d in dependencies :: d in names && Lower(d, level)
  }

  lemma MakeGrounded(k: Kind, name: string, dependencies: seq<string>, names: set<string>)
    requires DependsBelow(dependencies, Level(k), names)
    ensures Grounded(Make(k, name, dependencies), names)
  {
    MakeSpells(k, name);
  }

  lemma OneBelow(k: Kind, name: string, level: nat, names: set<string>)
    requires Level(k) < level && Id(k, name) in names
    ensures DependsBelow([Id(k, name)], level, names)
  {
    MakeSpells(k, name);
  }

  lemma ManyBelow(k: Kind, wanted: seq<string>, level: nat, names: set<string>)
    requires Level(k) < level && forall n | n in wanted :: Id(k, n) in names
    ensures DependsBelow(IdsOf(k, wanted), level, names)
  {
    var ids := IdsOf(k, wanted);
    forall d | d in ids ensures d in names && Lower(d, level) {
      var i :| 0 <= i < |ids| && ids[i] == d;
      assert wanted[i] in wanted;
      MakeSpells(k, wanted[i]);
    }
  }

  lemma BothBelow(a: seq<string>, b: seq<string>, level: nat, names: set<string>)
    requires DependsBelow(a, level, names) && DependsBelow(b, level, names)
    ensures DependsBelow(a + b, level, names)
  {
  }

  lemma SourcesGrounded(sources: seq<Source>, names: set<string>, n: Node)
    requires n in SourceNodes(sources)
    ensures Grounded(n, names)
  {
    if n == Make(Records, sources[0].name, []) {
      MakeGrounded(Records, sources[0].name, [], names);
    } else {
      SourcesGrounded(sources[1..], names, n);
    }
  }

  lemma CarriersBelow(field: string, sources: seq<Source>, names: set<string>)
    requires forall s | s in sources :: Id(Records, s.name) in names
    ensures DependsBelow(Carriers(field, sources), 1, names)
  {
    if sources != [] {
      CarriersBelow(field, sources[1..], names);
      OneBelow(Records, sources[0].name, 1, names);
    }
  }

  lemma FieldsGrounded(fields: seq<string>, sources: seq<Source>, names: set<string>, n: Node)
    requires n in NormalizedNodes(fields, sources) && forall s | s in sources :: Id(Records, s.name) in names
    ensures Grounded(n, names)
  {
    if n == NormalizedNode(fields[0], sources) {
      CarriersBelow(fields[0], sources, names);
      if sources != [] { OneBelow(Records, sources[0].name, 1, names); }
      MakeGrounded(FieldRows, fields[0], n.dependencies, names);
    } else {
      FieldsGrounded(fields[1..], sources, names, n);
    }
  }

  lemma ChannelGrounded(c: Channel, names: set<string>, n: Node)
    requires n in ChannelNodes(c) && forall f | f in c.fields :: Id(FieldRows, f) in names
    requires Id(BlockRows, c.id) in names && Id(BlockStats, c.id) in names
    ensures Grounded(n, names)
  {
    ManyBelow(FieldRows, c.fields, 2, names);
    OneBelow(BlockRows, c.id, 3, names);
    OneBelow(BlockStats, c.id, 4, names);
    MakeGrounded(BlockRows, c.id, IdsOf(FieldRows, c.fields), names);
    MakeGrounded(BlockStats, c.id, [Id(BlockRows, c.id)], names);
    MakeGrounded(BlockOverflow, c.id, [Id(BlockStats, c.id)], names);
  }

  ghost predicate ChannelNamed(c: Channel, names: set<string>) {
    Id(BlockRows, c.id) in names && Id(BlockStats, c.id) in names && Id(BlockOverflow, c.id) in names
  }

  lemma PlanGrounded(plan: Plan, names: set<string>, n: Node)
    requires n in PlanNodes(plan)
    requires forall c | c in plan :: ChannelNamed(c, names) && forall f | f in c.fields :: Id(FieldRows, f) in names
    ensures Grounded(n, names)
  {
    if n in ChannelNodes(plan[0]) {
      ChannelGrounded(plan[0], names, n);
    } else {
      PlanGrounded(plan[1..], names, n);
    }
  }

  lemma PlanIdsBelow(plan: Plan, names: set<string>)
    requires forall c | c in plan :: ChannelNamed(c, names)
    ensures DependsBelow(PlanIds(plan), 5, names)
  {
    if plan != [] {
      PlanIdsBelow(plan[1..], names);
      var c := plan[0];
      assert c in plan && ChannelNamed(c, names);
      OneBelow(BlockRows, c.id, 5, names);
      OneBelow(BlockStats, c.id, 5, names);
      OneBelow(BlockOverflow, c.id, 5, names);
    }
  }

  lemma CandidateSourcesBelow(d: Definition, names: set<string>)
    requires forall c | c in CompiledPlan(d) :: ChannelNamed(c, names)
    requires forall s | s in d.sources :: Id(Records, s.name) in names
    ensures DependsBelow(CandidateSources(d), 5, names)
  {
    PlanIdsBelow(CompiledPlan(d), names);
    if d.sources != [] { OneBelow(Records, d.sources[0].name, 5, names); }
  }

  lemma OverGrounded(kind: Kind, below: Kind, name: string, names: set<string>)
    requires Level(below) < Level(kind) && Id(below, name) in names
    ensures Grounded(Over(kind, below, name), names)
  {
    OneBelow(below, name, Level(kind), names);
    MakeGrounded(kind, name, [Id(below, name)], names);
  }

  lemma PairRowsGrounded(name: string, evidence: seq<string>, names: set<string>)
    requires Id(CandidateSet, name) in names && Id(PairOverflow, name) in names && forall f | f in evidence ::
      Id(FieldRows, f) in names
    ensures Grounded(PairRowsNode(name, evidence), names)
  {
    var first, fields, last := [Id(CandidateSet, name)], IdsOf(FieldRows, evidence), [Id(PairOverflow, name)];
    OneBelow(CandidateSet, name, 9, names);
    ManyBelow(FieldRows, evidence, 9, names);
    OneBelow(PairOverflow, name, 9, names);
    BothBelow(first, fields, 9, names);
    BothBelow(first + fields, last, 9, names);
    MakeGrounded(PairRows, name, first + fields + last, names);
  }

  lemma GoldenGrounded(name: string, golden: seq<string>, uncompared: seq<string>, names: set<string>)
    requires Id(PairRows, name) in names && Id(Evidence, name) in names
    requires (forall f | f in golden :: Id(FieldRows, f) in names) && forall f | f in uncompared ::
      Id(FieldRows, f) in names
    ensures Grounded(GoldenNode(name, golden, uncompared), names)
  {
    var first, second, third :=
      IdsOf(FieldRows, golden), IdsOf(FieldRows, uncompared), [Id(PairRows, name), Id(Evidence, name)];
    ManyBelow(FieldRows, golden, 11, names);
    ManyBelow(FieldRows, uncompared, 11, names);
    OneBelow(PairRows, name, 11, names);
    OneBelow(Evidence, name, 11, names);
    BothBelow([Id(PairRows, name)], [Id(Evidence, name)], 11, names);
    assert [Id(PairRows, name)] + [Id(Evidence, name)] == third;
    BothBelow(first, second, 11, names);
    BothBelow(first + second, third, 11, names);
    MakeGrounded(Golden, name, first + second + third, names);
  }

  ghost predicate EntityNamed(name: string, names: set<string>) {
    forall k | 5 <= Level(k) :: Id(k, name) in names
  }

  lemma CandidateNodesGrounded(name: string, sources: seq<string>, names: set<string>, n: Node)
    requires n in CandidateNodes(name, sources) && EntityNamed(name, names) && DependsBelow(sources, 5, names)
    ensures Grounded(n, names)
  {
    MakeGrounded(CandidateRaw, name, sources, names);
    OverGrounded(CandidateSet, CandidateRaw, name, names);
    OverGrounded(PairStats, CandidateSet, name, names);
    OverGrounded(PairOverflow, PairStats, name, names);
  }

  lemma PairNodesGrounded(name: string, evidence: seq<string>, golden: seq<string>, uncompared: seq<string>,
      names: set<string>, n: Node)
    requires n in PairNodes(name, evidence, golden, uncompared) && EntityNamed(name, names)
    requires forall f | f in evidence || f in golden || f in uncompared :: Id(FieldRows, f) in names
    ensures Grounded(n, names)
  {
    PairRowsGrounded(name, evidence, names);
    OverGrounded(Evidence, PairRows, name, names);
    GoldenGrounded(name, golden, uncompared, names);
  }

  lemma IdListed(nodes: seq<Node>, i: nat, k: Kind, name: string)
    requires i < |nodes| && nodes[i].id == Id(k, name)
    ensures Id(k, name) in Names(nodes)
  {
    assert nodes[i] in nodes;
  }

  lemma EntityIsNamed(d: Definition, k: Kind)
    requires 5 <= Level(k)
    ensures Id(k, d.name) in Names(EntityNodes(d))
  {
    IdListed(EntityNodes(d), Level(k) - 5, k, d.name);
  }

  // ---- the nodes that are there ----

  lemma SourcesNamed(sources: seq<Source>, s: Source)
    requires s in sources
    ensures Id(Records, s.name) in Names(SourceNodes(sources))
  {
    if s == sources[0] {
      assert Make(Records, s.name, []) in SourceNodes(sources);
    } else {
      SourcesNamed(sources[1..], s);
    }
  }

  lemma FieldsNamed(fields: seq<string>, sources: seq<Source>, f: string)
    requires f in fields
    ensures Id(FieldRows, f) in Names(NormalizedNodes(fields, sources))
  {
    if f == fields[0] {
      assert NormalizedNode(f, sources) in NormalizedNodes(fields, sources);
    } else {
      FieldsNamed(fields[1..], sources, f);
    }
  }

  lemma PlanNamed(plan: Plan, c: Channel)
    requires c in plan
    ensures ChannelNamed(c, Names(PlanNodes(plan)))
  {
    if c == plan[0] {
      var nodes := ChannelNodes(c);
      assert nodes[0] in PlanNodes(plan) && nodes[1] in PlanNodes(plan) && nodes[2] in PlanNodes(plan);
    } else {
      PlanNamed(plan[1..], c);
    }
  }

  lemma NamesOfBoth(a: seq<Node>, b: seq<Node>)
    ensures Names(a + b) == Names(a) + Names(b)
  {
    forall id ensures id in Names(a + b) <==> id in Names(a) || id in Names(b) {
    }
  }

  lemma PartsNamed(a: seq<Node>, b: seq<Node>, c: seq<Node>, e: seq<Node>)
    ensures Names(a) <= Names(a + b + c + e) && Names(b) <= Names(a + b + c + e)
    ensures Names(c) <= Names(a + b + c + e) && Names(e) <= Names(a + b + c + e)
  {
    NamesOfBoth(a, b);
    NamesOfBoth(a + b, c);
    NamesOfBoth(a + b + c, e);
  }

  // ---- fields that rules and policies name ----

  lemma RuleFieldsKnown(rules: seq<MatchRule>, fields: seq<string>)
    requires forall r, f | r in rules && f in r.fields :: f in fields
    ensures forall f | f in RuleFields(rules) :: f in fields
  {
    if rules != [] {
      assert rules[0] in rules;
      RuleFieldsKnown(rules[1..], fields);
    }
  }

  lemma EvidenceFieldsKnown(d: Definition)
    requires LocallyValid(d)
    ensures forall f | f in EvidenceFields(d) :: f in d.fields
  {
    RuleFieldsKnown(d.rules, d.fields);
    SortElements(RuleFields(d.rules), Codes);
    DedupElements(SortBy(RuleFields(d.rules), Codes));
  }

  lemma PlanFieldsKnown(d: Definition, c: Channel)
    requires LocallyValid(d) && c in CompiledPlan(d)
    ensures forall f | f in c.fields :: f in d.fields
  {
    var blocking := Filter(d.rules, Blocks);
    SortElements(Map(blocking, ChannelOf), ChannelRank);
    var i :| 0 <= i < |blocking| && Map(blocking, ChannelOf)[i] == c;
    assert blocking[i] in blocking && blocking[i] in d.rules;
  }

  /** Every node runs and depends only on nodes of a lower level. */
  lemma NodesGrounded(d: Definition, n: Node)
    requires LocallyValid(d) && n in Compile(d).0
    ensures Grounded(n, Names(Compile(d).0))
  {
    var names, plan := Names(Compile(d).0), CompiledPlan(d);
    var a, b, c, e := SourceNodes(d.sources), NormalizedNodes(d.fields, d.sources), PlanNodes(plan), EntityNodes(d);
    PartsNamed(a, b, c, e);
    forall s | s in d.sources ensures Id(Records, s.name) in names { SourcesNamed(d.sources, s); }
    forall f | f in d.fields ensures Id(FieldRows, f) in names { FieldsNamed(d.fields, d.sources, f); }
    if n in a {
      SourcesGrounded(d.sources, names, n);
    } else if n in b {
      FieldsGrounded(d.fields, d.sources, names, n);
    } else {
      RestGrounded(d, names, n);
    }
  }

  lemma RestGrounded(d: Definition, names: set<string>, n: Node)
    requires LocallyValid(d) && (n in PlanNodes(CompiledPlan(d)) || n in EntityNodes(d))
    requires Names(PlanNodes(CompiledPlan(d))) <= names && Names(EntityNodes(d)) <= names
    requires (forall s | s in d.sources :: Id(Records, s.name) in names)
      && (forall f | f in d.fields :: Id(FieldRows, f) in names)
    ensures Grounded(n, names)
  {
    forall c | c in CompiledPlan(d)
      ensures ChannelNamed(c, names) && forall f | f in c.fields :: Id(FieldRows, f) in names {
      PlanNamed(CompiledPlan(d), c);
      PlanFieldsKnown(d, c);
    }
    if n in PlanNodes(CompiledPlan(d)) {
      PlanGrounded(CompiledPlan(d), names, n);
    } else {
      EvidenceFieldsKnown(d);
      CandidateSourcesBelow(d, names);
      forall k | 5 <= Level(k) ensures Id(k, d.name) in names { EntityIsNamed(d, k); }
      if n in CandidateNodes(d.name, CandidateSources(d)) {
        CandidateNodesGrounded(d.name, CandidateSources(d), names, n);
      } else {
        PairNodesGrounded(d.name, EvidenceFields(d), d.golden, Uncompared(d), names, n);
      }
    }
  }

  // ---- no two nodes share an id ----

  ghost predicate Within(nodes: seq<Node>, low: nat, high: nat) {
    forall n | n in nodes :: exists level: nat :: low <= level <= high && AtLevel(n.id, level)
  }

  lemma DistinctBoth(a: seq<Node>, b: seq<Node>)
    requires DistinctIds(a) && DistinctIds(b) && Names(a) !! Names(b)
    ensures DistinctIds(a + b)
  {
    var c := a + b;
    forall i, j | 0 <= i < j < |c| ensures c[i].id != c[j].id {
      if i < |a| && j >= |a| {
        assert a[i] in a && b[j - |a|] in b;
        assert c[i] == a[i] && c[j] == b[j - |a|];
        assert a[i].id in Names(a) && b[j - |a|].id in Names(b);
      }
    }
  }

  lemma LevelsApart(a: seq<Node>, b: seq<Node>, low: nat, middle: nat, high: nat)
    requires Within(a, low, middle) && Within(b, middle + 1, high)
    ensures Names(a) !! Names(b)
  {
    forall m, n | m in a && n in b ensures m.id != n.id {
      var x: nat :| low <= x <= middle && AtLevel(m.id, x);
      var y: nat :| middle + 1 <= y <= high && AtLevel(n.id, y);
      if m.id == n.id { LevelDedup(m.id, x, y); }
    }
  }

  lemma WithinBoth(a: seq<Node>, b: seq<Node>, low: nat, middle: nat, high: nat)
    requires low <= middle < high && Within(a, low, middle) && Within(b, middle + 1, high)
    ensures Within(a + b, low, high)
  {
    forall n | n in a + b ensures exists level: nat :: low <= level <= high && AtLevel(n.id, level) {
      if n in a {
        var x: nat :| low <= x <= middle && AtLevel(n.id, x);
      } else {
        var y: nat :| middle + 1 <= y <= high && AtLevel(n.id, y);
      }
    }
  }

  lemma SourcesDistinct(sources: seq<Source>)
    requires Distinct(Map(sources, SourceName))
    ensures DistinctIds(SourceNodes(sources)) && Within(SourceNodes(sources), 0, 0)
    ensures forall n | n in SourceNodes(sources) :: exists s :: s in sources && n.id == Id(Records, s.name)
  {
    if sources != [] {
      var first, rest := [Make(Records, sources[0].name, [])], SourceNodes(sources[1..]);
      MapTail(sources);
      SourcesDistinct(sources[1..]);
      forall n | n in rest ensures n.id != first[0].id {
        var s :| s in sources[1..] && n.id == Id(Records, s.name);
        SourceIdsDiffer(sources, s);
      }
      DistinctBoth(first, rest);
      MakeSpells(Records, sources[0].name);
      assert sources[0] in sources;
    }
  }

  lemma SourceIdsDiffer(sources: seq<Source>, s: Source)
    requires sources != [] && Distinct(Map(sources, SourceName)) && s in sources[1..]
    ensures Id(Records, s.name) != Id(Records, sources[0].name)
  {
    var j :| 0 < j < |sources| && sources[j] == s;
    assert Map(sources, SourceName)[0] != Map(sources, SourceName)[j];
    if Id(Records, s.name) == Id(Records, sources[0].name) { IdSplits(Records, s.name, Records, sources[0].name); }
  }

  lemma MapTail(sources: seq<Source>)
    requires sources != [] && Distinct(Map(sources, SourceName))
    ensures Distinct(Map(sources[1..], SourceName))
  {
    var names := Map(sources, SourceName);
    forall i, j | 0 <= i < j < |sources| - 1
      ensures Map(sources[1..], SourceName)[i] != Map(sources[1..], SourceName)[j] {
      assert names[i + 1] != names[j + 1];
    }
  }

  lemma FieldsDistinct(fields: seq<string>, sources: seq<Source>)
    requires Distinct(fields)
    ensures DistinctIds(NormalizedNodes(fields, sources)) && Within(NormalizedNodes(fields, sources), 1, 1)
    ensures forall n | n in NormalizedNodes(fields, sources) :: exists f :: f in fields && n.id == Id(FieldRows, f)
  {
    if fields != [] {
      var first, rest := [NormalizedNode(fields[0], sources)], NormalizedNodes(fields[1..], sources);
      FieldsDistinct(fields[1..], sources);
      forall n | n in rest ensures n.id != first[0].id {
        var f :| f in fields[1..] && n.id == Id(FieldRows, f);
        if n.id == first[0].id { IdSplits(FieldRows, f, FieldRows, fields[0]); }
      }
      DistinctBoth(first, rest);
      MakeSpells(FieldRows, fields[0]);
      assert fields[0] in fields;
    }
  }

  ghost predicate OfChannel(n: Node, c: Channel) {
    exists k :: 2 <= Level(k) <= 4 && n.id == Id(k, c.id)
  }

  lemma ChannelDistinct(c: Channel)
    ensures DistinctIds(ChannelNodes(c)) && forall n | n in ChannelNodes(c) :: OfChannel(n, c)
  {
    var nodes := ChannelNodes(c);
    assert nodes[0].id == Id(BlockRows, c.id) && nodes[1].id == Id(BlockStats, c.id)
      && nodes[2].id == Id(BlockOverflow, c.id);
    if nodes[0].id == nodes[1].id { IdSplits(BlockRows, c.id, BlockStats, c.id); }
    if nodes[0].id == nodes[2].id { IdSplits(BlockRows, c.id, BlockOverflow, c.id); }
    if nodes[1].id == nodes[2].id { IdSplits(BlockStats, c.id, BlockOverflow, c.id); }
  }

  lemma PlanDistinct(plan: Plan)
    requires forall i, j | 0 <= i < j < |plan| :: plan[i].id != plan[j].id
    ensures DistinctIds(PlanNodes(plan))
    ensures forall n | n in PlanNodes(plan) :: exists c :: c in plan && OfChannel(n, c)
  {
    if plan != [] {
      var first, rest := ChannelNodes(plan[0]), PlanNodes(plan[1..]);
      PlanDistinct(plan[1..]);
      ChannelDistinct(plan[0]);
      forall m, n | m in first && n in rest ensures m.id != n.id {
        var c :| c in plan[1..] && OfChannel(n, c);
        ChannelsApart(plan[0], c, m, n);
      }
      DistinctBoth(first, rest);
      forall n | n in first + rest ensures exists c :: c in plan && OfChannel(n, c) {
        if n in first { assert plan[0] in plan && OfChannel(n, plan[0]); } else {
          var c :| c in plan[1..] && OfChannel(n, c);
          assert c in plan;
        }
      }
    }
  }

  lemma ChannelsApart(a: Channel, b: Channel, m: Node, n: Node)
    requires a.id != b.id && OfChannel(m, a) && OfChannel(n, b)
    ensures m.id != n.id
  {
    var k :| 2 <= Level(k) <= 4 && m.id == Id(k, a.id);
    var l :| 2 <= Level(l) <= 4 && n.id == Id(l, b.id);
    if m.id == n.id { IdSplits(k, a.id, l, b.id); }
  }

  lemma PlanWithin(plan: Plan)
    requires forall i, j | 0 <= i < j < |plan| :: plan[i].id != plan[j].id
    ensures Within(PlanNodes(plan), 2, 4)
  {
    PlanDistinct(plan);
    forall n | n in PlanNodes(plan) ensures exists level: nat :: 2 <= level <= 4 && AtLevel(n.id, level) {
      var c :| c in plan && OfChannel(n, c);
      var k :| 2 <= Level(k) <= 4 && n.id == Id(k, c.id);
      MakeSpells(k, c.id);
    }
  }

  /** Each node is one level above the one before. */
  ghost predicate Climbs(nodes: seq<Node>, low: nat) {
    forall i | 0 <= i < |nodes| :: AtLevel(nodes[i].id, low + i)
  }

  lemma ClimbsDistinct(nodes: seq<Node>, low: nat)
    requires Climbs(nodes, low) && nodes != []
    ensures DistinctIds(nodes) && Within(nodes, low, low + |nodes| - 1)
  {
    forall i, j | 0 <= i < j < |nodes| ensures nodes[i].id != nodes[j].id {
      if nodes[i].id == nodes[j].id { LevelDedup(nodes[i].id, low + i, low + j); }
    }
    forall n | n in nodes ensures exists level: nat :: low <= level <= low + |nodes| - 1 && AtLevel(n.id, level) {
      var i :| 0 <= i < |nodes| && nodes[i] == n;
      assert AtLevel(n.id, low + i);
    }
  }

  lemma CandidateNodesClimb(name: string, sources: seq<string>)
    ensures Climbs(CandidateNodes(name, sources), 5)
  {
    MakeSpells(CandidateRaw, name);
    MakeSpells(CandidateSet, name);
    MakeSpells(PairStats, name);
    MakeSpells(PairOverflow, name);
  }

  lemma PairNodesClimb(name: string, evidence: seq<string>, golden: seq<string>, uncompared: seq<string>)
    ensures Climbs(PairNodes(name, evidence, golden, uncompared), 9)
  {
    MakeSpells(PairRows, name);
    MakeSpells(Evidence, name);
    MakeSpells(Golden, name);
  }

  lemma EntityDistinct(d: Definition)
    ensures DistinctIds(EntityNodes(d)) && Within(EntityNodes(d), 5, 11)
  {
    var first, second :=
      CandidateNodes(d.name, CandidateSources(d)), PairNodes(d.name, EvidenceFields(d), d.golden, Uncompared(d));
    CandidateNodesClimb(d.name, CandidateSources(d));
    PairNodesClimb(d.name, EvidenceFields(d), d.golden, Uncompared(d));
    ClimbsOn(first, second, 5);
    ClimbsDistinct(first + second, 5);
  }

  lemma ClimbsOn(a: seq<Node>, b: seq<Node>, low: nat)
    requires Climbs(a, low) && Climbs(b, low + |a|)
    ensures Climbs(a + b, low)
  {
    forall i | 0 <= i < |a + b| ensures AtLevel((a + b)[i].id, low + i) {
      if i >= |a| { assert AtLevel(b[i - |a|].id, low + |a| + (i - |a|)); }
    }
  }

  lemma NodesDistinct(d: Definition)
    requires LocallyValid(d)
    ensures DistinctIds(Compile(d).0)
  {
    var plan := CompiledPlan(d);
    var a, b, c, e := SourceNodes(d.sources), NormalizedNodes(d.fields, d.sources), PlanNodes(plan), EntityNodes(d);
    SourcesDistinct(d.sources);
    FieldsDistinct(d.fields, d.sources);
    PlanDistinct(plan);
    PlanWithin(plan);
    EntityDistinct(d);
    LevelsApart(a, b, 0, 0, 1);
    DistinctBoth(a, b);
    WithinBoth(a, b, 0, 0, 1);
    LevelsApart(a + b, c, 0, 1, 4);
    DistinctBoth(a + b, c);
    WithinBoth(a + b, c, 0, 1, 4);
    LevelsApart(a + b + c, e, 0, 4, 11);
    DistinctBoth(a + b + c, e);
  }

  // ---- compiled graphs are accepted ----

  lemma DependsDown(nodes: seq<Node>, a: string, b: string, level: nat)
    requires (forall n | n in nodes :: Grounded(n, Names(nodes))) && Depends(nodes, a, b) && AtLevel(a, level)
    ensures Lower(b, level)
  {
    var n :| n in nodes && n.id == a && b in n.dependencies;
    assert Grounded(n, Names(nodes));
    var own: nat :| AtLevel(n.id, own) && DependsBelow(n.dependencies, own, Names(nodes));
    LevelDedup(a, own, level);
  }

  lemma {:induction false} ChainDown(nodes: seq<Node>, p: seq<string>, k: nat, level: nat)
    requires (forall n | n in nodes :: Grounded(n, Names(nodes))) && Chained(nodes, p)
    requires 1 <= k < |p| && AtLevel(p[0], level)
    ensures Lower(p[k], level)
  {
    var top := level;
    if k > 1 {
      ChainDown(nodes, p, k - 1, level);
      var below: nat :| below < level && AtLevel(p[k - 1], below);
      top := below;
    }
    assert Depends(nodes, p[k - 1], p[k - 1 + 1]);
    DependsDown(nodes, p[k - 1], p[k], top);
  }

  lemma GroundedAcyclic(nodes: seq<Node>)
    requires forall n | n in nodes :: Grounded(n, Names(nodes))
    ensures Acyclic(nodes)
  {
    forall p: seq<string> ensures !IsCycle(nodes, p) {
      if IsCycle(nodes, p) {
        assert Depends(nodes, p[0], p[0 + 1]);
        var n :| n in nodes && n.id == p[0];
        assert Grounded(n, Names(nodes));
        var level: nat :| AtLevel(n.id, level);
        ChainDown(nodes, p, |p| - 1, level);
        var below: nat :| below < level && AtLevel(p[|p| - 1], below);
        LevelDedup(p[0], level, below);
      }
    }
  }

  /** The graph of a locally valid definition is accepted, so it always has a refresh order. */
  lemma CompileAccepted(d: Definition)
    requires LocallyValid(d)
    ensures WellFormed(Compile(d).0, Compile(d).1) && Acyclic(Compile(d).0)
  {
    var nodes := Compile(d).0;
    NodesDistinct(d);
    forall n | n in nodes ensures Grounded(n, Names(nodes)) {
      NodesGrounded(d, n);
    }
    GroundedAcyclic(nodes);
    forall n, x | n in nodes && x in n.dependencies ensures x in Names(nodes) {
      assert Grounded(n, Names(nodes));
    }
    var last := nodes[|nodes| - 1];
    assert last == EntityNodes(d)[6] && last in nodes;
  }
}
