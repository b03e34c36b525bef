/** The refresh graph of a definition by its texts: what depends on what, and what the golden rows rest on. */
module GraphLaws {
  import opened Prelude
  import opened Sorting
  import opened Candidates
  import opened ArtifactGraphs
  import opened GraphCompiler

  // ---- the dependencies, one kind of node after the other ----

  /** A field's rows rest on the sources that map it, or on the first if none does. */
  ghost predicate FieldEdge(d: Definition, a: string, b: string) {
    exists f, s :: f in d.fields && a == "normalized/" + f && RestsOnSource(f, d.sources, s) && b == "records/" + s.name
  }

  ghost predicate RestsOnSource(field: string, sources: seq<Source>, s: Source) {
    && s in sources
    && (field in s.fields || (s == sources[0] && forall t | t in sources :: field !in t.fields))
  }

  /** A blocking rule's blocks rest on the rows of its fields; their counts on them; the overflow on the counts. */
  ghost predicate BlockEdge(d: Definition, a: string, b: string) {
    exists r :: r in d.rules && r.candidate.Some? &&
      (|| (a == "blocks/" + r.name && exists f :: f in r.fields && b == "normalized/" + f)
       || (a == "block-stats/" + r.name && b == "blocks/" + r.name)
       || (a == "block-overflow/" + r.name && b == "block-stats/" + r.name))
  }

  /** The candidates rest on everything of every blocking rule, or without such a rule on the first source. */
  ghost predicate CandidateEdge(d: Definition, a: string, b: string) {
    && a == "candidate-raw/" + d.name
    && (|| (exists r :: r in d.rules && r.candidate.Some? &&
              (b == "blocks/" + r.name || b == "block-stats/" + r.name || b == "block-overflow/" + r.name))
        || ((forall r | r in d.rules :: r.candidate.None?) && d.sources != [] && b == "records/" + d.sources[0].name))
  }

  predicate CountEdge(d: Definition, a: string, b: string) {
    || (a == "candidate-set/" + d.name && b == "candidate-raw/" + d.name)
    || (a == "pair-stats/" + d.name && b == "candidate-set/" + d.name)
    || (a == "pair-overflow/" + d.name && b == "pair-stats/" + d.name)
  }

  /** The pairs rest on the candidates, the pair overflow, and the rows of every field a rule compares. */
  ghost predicate PairEdge(d: Definition, a: string, b: string) {
    || (a == "pairs/" + d.name
        && (|| b == "candidate-set/" + d.name || b == "pair-overflow/" + d.name
            || exists r, f :: r in d.rules && f in r.fields && b == "normalized/" + f))
    || (a == "evidence/" + d.name && b == "pairs/" + d.name)
  }

  /** The golden rows rest on the pairs, the evidence, and every golden field or field no rule compares. */
  ghost predicate GoldenEdge(d: Definition, a: string, b: string) {
    && a == "golden/" + d.name
    && (|| b == "pairs/" + d.name || b == "evidence/" + d.name
        || exists f :: b == "normalized/" + f
             && (f in d.golden || (f in d.fields && forall r | r in d.rules :: f !in r.fields)))
  }

  ghost predicate Edge(d: Definition, a: string, b: string) {
    || FieldEdge(d, a, b) || BlockEdge(d, a, b) || CandidateEdge(d, a, b) || CountEdge(d, a, b)
    || PairEdge(d, a, b) || GoldenEdge(d, a, b)
  }

  // ---- ids as texts ----

  lemma LowTexts(n: string)
    ensures Id(Records, n) == "records/" + n && Id(FieldRows, n) == "normalized/" + n
    ensures Id(BlockRows, n) == "blocks/" + n && Id(BlockStats, n) == "block-stats/" + n
    ensures Id(BlockOverflow, n) == "block-overflow/" + n && Id(CandidateRaw, n) == "candidate-raw/" + n
  {
    assert "records" + "/" == "records/";
    assert "normalized" + "/" == "normalized/";
    assert "blocks" + "/" == "blocks/";
    assert "block-stats" + "/" == "block-stats/";
    assert "block-overflow" + "/" == "block-overflow/";
    assert "candidate-raw" + "/" == "candidate-raw/";
  }

  lemma HighTexts(n: string)
    ensures Id(CandidateSet, n) == "candidate-set/" + n && Id(PairStats, n) == "pair-stats/" + n
    ensures Id(PairOverflow, n) == "pair-overflow/" + n && Id(PairRows, n) == "pairs/" + n
    ensures Id(Evidence, n) == "evidence/" + n && Id(Golden, n) == "golden/" + n
  {
    assert "candidate-set" + "/" == "candidate-set/";
    assert "pair-stats" + "/" == "pair-stats/";
    assert "pair-overflow" + "/" == "pair-overflow/";
    assert "pairs" + "/" == "pairs/";
    assert "evidence" + "/" == "evidence/";
    assert "golden" + "/" == "golden/";
  }

  // ---- the parts of a compiled graph ----

  lemma DependsBoth(x: seq<Node>, y: seq<Node>, a: string, b: string)
    ensures Depends(x + y, a, b) <==> Depends(x, a, b) || Depends(y, a, b)
  {
    if n :| n in x && n.id == a && b in n.dependencies { assert n in x + y; }
    if n :| n in y && n.id == a && b in n.dependencies { assert n in x + y; }
  }

  lemma DependsOne(n: Node, a: string, b: string)
    ensures Depends([n], a, b) <==> n.id == a && b in n.dependencies
  {
    assert n in [n];
  }

  lemma {:induction false} SourcesRestOnNothing(sources: seq<Source>, a: string, b: string)
    ensures !Depends(SourceNodes(sources), a, b)
  {
    if sources != [] {
      var n := Make(Records, sources[0].name, []);
      SourcesRestOnNothing(sources[1..], a, b);
      DependsBoth([n], SourceNodes(sources[1..]), a, b);
      DependsOne(n, a, b);
    }
  }

  lemma {:induction false} CarriersAre(field: string, sources: seq<Source>, b: string)
    ensures b in Carriers(field, sources) <==> exists s :: s in sources && field in s.fields && b == Id(Records, s.name)
    ensures Carriers(field, sources) == [] <==> forall s | s in sources :: field !in s.fields
  {
    if sources != [] {
      CarriersAre(field, sources[1..], b);
      assert sources == [sources[0]] + sources[1..];
    }
  }

  lemma FieldRestsOn(field: string, sources: seq<Source>, b: string)
    ensures b in NormalizedNode(field, sources).dependencies <==>
      exists s :: RestsOnSource(field, sources, s) && b == Id(Records, s.name)
  {
    CarriersAre(field, sources, b);
    if s :| s in sources && field in s.fields && b == Id(Records, s.name) {
      assert RestsOnSource(field, sources, s);
    }
    if Carriers(field, sources) == [] && sources != [] {
      assert RestsOnSource(field, sources, sources[0]);
    }
  }

  ghost predicate AnyFieldEdge(fields: seq<string>, sources: seq<Source>, a: string, b: string) {
    exists f :: f in fields && OneFieldEdge(f, sources, a, b)
  }

  ghost predicate OneFieldEdge(f: string, sources: seq<Source>, a: string, b: string) {
    a == Id(FieldRows, f) && exists s :: RestsOnSource(f, sources, s) && b == Id(Records, s.name)
  }

  lemma {:induction false} FieldNodesDepend(fields: seq<string>, sources: seq<Source>, a: string, b: string)
    ensures Depends(NormalizedNodes(fields, sources), a, b) <==> AnyFieldEdge(fields, sources, a, b)
  {
    if fields != [] {
      var n := NormalizedNode(fields[0], sources);
      FieldNodesDepend(fields[1..], sources, a, b);
      DependsBoth([n], NormalizedNodes(fields[1..], sources), a, b);
      DependsOne(n, a, b);
      FieldRestsOn(fields[0], sources, b);
      assert Depends([n], a, b) <==> OneFieldEdge(fields[0], sources, a, b);
      AnyFieldNext(fields, sources, a, b);
    }
  }

  lemma AnyFieldNext(fields: seq<string>, sources: seq<Source>, a: string, b: string)
    requires fields != []
    ensures AnyFieldEdge(fields, sources, a, b) <==>
      OneFieldEdge(fields[0], sources, a, b) || AnyFieldEdge(fields[1..], sources, a, b)
  {
    assert fields == [fields[0]] + fields[1..];
  }

  lemma IdsAre(kind: Kind, names: seq<string>, b: string)
    ensures b in IdsOf(kind, names) <==> exists f :: f in names && b == Id(kind, f)
  {
    var ids := IdsOf(kind, names);
    if b in ids {
      var i :| 0 <= i < |ids| && ids[i] == b;
      assert names[i] in names;
    }
    if f :| f in names && b == Id(kind, f) {
      var i :| 0 <= i < |names| && names[i] == f;
      assert ids[i] == b;
    }
  }

  ghost predicate ChannelEdge(c: Channel, a: string, b: string) {
    || (a == Id(BlockRows, c.id) && exists f :: f in c.fields && b == Id(FieldRows, f))
    || (a == Id(BlockStats, c.id) && b == Id(BlockRows, c.id))
    || (a == Id(BlockOverflow, c.id) && b == Id(BlockStats, c.id))
  }

  lemma ChannelNodesDepend(c: Channel, a: string, b: string)
    ensures Depends(ChannelNodes(c), a, b) <==> ChannelEdge(c, a, b)
  {
    var nodes := ChannelNodes(c);
    assert nodes == [nodes[0]] + [nodes[1]] + [nodes[2]];
    DependsBoth([nodes[0]], [nodes[1]], a, b);
    DependsBoth([nodes[0]] + [nodes[1]], [nodes[2]], a, b);
    DependsOne(nodes[0], a, b);
    DependsOne(nodes[1], a, b);
    DependsOne(nodes[2], a, b);
    IdsAre(FieldRows, c.fields, b);
  }

  lemma {:induction false} PlanNodesDepend(plan: Plan, a: string, b: string)
    ensures Depends(PlanNodes(plan), a, b) <==> exists c :: c in plan && ChannelEdge(c, a, b)
  {
    if plan != [] {
      PlanNodesDepend(plan[1..], a, b);
      DependsBoth(ChannelNodes(plan[0]), PlanNodes(plan[1..]), a, b);
      ChannelNodesDepend(plan[0], a, b);
      assert plan == [plan[0]] + plan[1..];
    }
  }

  lemma {:induction false} PlanIdsAre(plan: Plan, b: string)
    ensures b in PlanIds(plan) <==>
      exists c :: c in plan && (b == Id(BlockRows, c.id) || b == Id(BlockStats, c.id) || b == Id(BlockOverflow, c.id))
  {
    if plan != [] {
      PlanIdsAre(plan[1..], b);
      assert plan == [plan[0]] + plan[1..];
    }
  }

  /** The channels are the blocking rules under their names and fields. */
  lemma ChannelsAre(d: Definition, c: Channel)
    requires LocallyValid(d)
    ensures c in CompiledPlan(d) <==> exists r :: r in d.rules && r.candidate.Some? && c == ChannelOf(r)
  {
    var blocking := Filter(d.rules, Blocks);
    var all := Map(blocking, ChannelOf);
    SortElements(all, ChannelRank);
    if c in all {
      var i :| 0 <= i < |all| && all[i] == c;
      assert blocking[i] in blocking;
    }
    if r :| r in d.rules && r.candidate.Some? && c == ChannelOf(r) {
      assert r in blocking;
      var i :| 0 <= i < |blocking| && blocking[i] == r;
      assert all[i] == c;
    }
  }

  lemma {:induction false} RuleFieldsAre(rules: seq<MatchRule>, f: string)
    ensures f in RuleFields(rules) <==> exists r :: r in rules && f in r.fields
  {
    if rules != [] {
      RuleFieldsAre(rules[1..], f);
      assert rules == [rules[0]] + rules[1..];
    }
  }

  lemma EvidenceFieldsAre(d: Definition, f: string)
    ensures f in EvidenceFields(d) <==> exists r :: r in d.rules && f in r.fields
  {
    RuleFieldsAre(d.rules, f);
    SortElements(RuleFields(d.rules), Codes);
    DedupElements(SortBy(RuleFields(d.rules), Codes));
  }

  // ---- their dependencies ----

  lemma FieldEdgeIs(d: Definition, a: string, b: string)
    ensures Depends(NormalizedNodes(d.fields, d.sources), a, b) <==> FieldEdge(d, a, b)
  {
    FieldNodesDepend(d.fields, d.sources, a, b);
    forall f | f in d.fields ensures OneFieldEdge(f, d.sources, a, b) <==> OneFieldText(f, d.sources, a, b) {
      OneFieldTextIs(f, d.sources, a, b);
    }
    assert FieldEdge(d, a, b) <==> exists f :: f in d.fields && OneFieldText(f, d.sources, a, b);
  }

  ghost predicate OneFieldText(f: string, sources: seq<Source>, a: string, b: string) {
    a == "normalized/" + f && exists s :: RestsOnSource(f, sources, s) && b == "records/" + s.name
  }

  lemma OneFieldTextIs(f: string, sources: seq<Source>, a: string, b: string)
    ensures OneFieldEdge(f, sources, a, b) <==> OneFieldText(f, sources, a, b)
  {
    LowTexts(f);
    forall s | RestsOnSource(f, sources, s) ensures Id(Records, s.name) == "records/" + s.name {
      LowTexts(s.name);
    }
  }

  lemma RuleEdgeIs(r: MatchRule, a: string, b: string)
    requires r.candidate.Some?
    ensures ChannelEdge(ChannelOf(r), a, b) <==>
      (|| (a == "blocks/" + r.name && exists f :: f in r.fields && b == "normalized/" + f)
       || (a == "block-stats/" + r.name && b == "blocks/" + r.name)
       || (a == "block-overflow/" + r.name && b == "block-stats/" + r.name))
  {
    LowTexts(r.name);
    forall n: string { LowTexts(n); }
  }

  lemma BlockEdgeIs(d: Definition, a: string, b: string)
    requires LocallyValid(d)
    ensures Depends(PlanNodes(CompiledPlan(d)), a, b) <==> BlockEdge(d, a, b)
  {
    PlanNodesDepend(CompiledPlan(d), a, b);
    forall c { ChannelsAre(d, c); }
    forall r | r in d.rules && r.candidate.Some? { RuleEdgeIs(r, a, b); }
  }

  lemma NoChannels(d: Definition)
    requires LocallyValid(d)
    ensures CompiledPlan(d) == [] <==> forall r | r in d.rules :: r.candidate.None?
  {
    forall c { ChannelsAre(d, c); }
    if CompiledPlan(d) != [] { assert CompiledPlan(d)[0] in CompiledPlan(d); }
    if r :| r in d.rules && r.candidate.Some? { assert ChannelOf(r) in CompiledPlan(d); }
  }

  ghost predicate OfRule(r: MatchRule, b: string) {
    b == "blocks/" + r.name || b == "block-stats/" + r.name || b == "block-overflow/" + r.name
  }

  lemma PlanIdsMean(d: Definition, b: string)
    requires LocallyValid(d)
    ensures b in PlanIds(CompiledPlan(d)) <==> exists r :: r in d.rules && r.candidate.Some? && OfRule(r, b)
  {
    PlanIdsAre(CompiledPlan(d), b);
    forall c { ChannelsAre(d, c); }
    forall n: string { LowTexts(n); }
    if r :| r in d.rules && r.candidate.Some? && OfRule(r, b) {
      assert ChannelOf(r) in CompiledPlan(d) && ChannelOf(r).id == r.name;
    }
  }

  lemma CandidateEdgeIs(d: Definition, b: string)
    requires LocallyValid(d)
    ensures b in CandidateSources(d) <==> CandidateEdge(d, "candidate-raw/" + d.name, b)
  {
    PlanIdsMean(d, b);
    NoChannels(d);
    if d.sources != [] { LowTexts(d.sources[0].name); }
  }

  lemma CandidateNodesDepend(d: Definition, a: string, b: string)
    requires LocallyValid(d)
    ensures Depends(CandidateNodes(d.name, CandidateSources(d)), a, b) <==> CandidateEdge(d, a, b) || CountEdge(d, a, b)
  {
    var n := CandidateNodes(d.name, CandidateSources(d));
    assert n == [n[0]] + [n[1]] + [n[2]] + [n[3]];
    DependsBoth([n[0]], [n[1]], a, b);
    DependsBoth([n[0]] + [n[1]], [n[2]], a, b);
    DependsBoth([n[0]] + [n[1]] + [n[2]], [n[3]], a, b);
    forall i | 0 <= i < 4 ensures Depends([n[i]], a, b) <==> n[i].id == a && b in n[i].dependencies {
      DependsOne(n[i], a, b);
    }
    LowTexts(d.name);
    HighTexts(d.name);
    CandidateEdgeIs(d, b);
  }

  lemma PairRowsDepend(d: Definition, b: string)
    ensures b in PairRowsNode(d.name, EvidenceFields(d)).dependencies <==> PairEdge(d, "pairs/" + d.name, b)
  {
    HighTexts(d.name);
    IdsAre(FieldRows, EvidenceFields(d), b);
    forall f: string { LowTexts(f); }
    forall f: string { EvidenceFieldsAre(d, f); }
    assert "pairs/" + d.name != "evidence/" + d.name by {
      assert ("pairs/" + d.name)[0] != ("evidence/" + d.name)[0];
    }
  }

  lemma GoldenDepends(d: Definition, b: string)
    ensures b in GoldenNode(d.name, d.golden, Uncompared(d)).dependencies <==> GoldenEdge(d, "golden/" + d.name, b)
  {
    HighTexts(d.name);
    IdsAre(FieldRows, d.golden, b);
    IdsAre(FieldRows, Uncompared(d), b);
    forall f: string { LowTexts(f); }
    forall f: string { EvidenceFieldsAre(d, f); }
  }

  lemma PairNodesDepend(d: Definition, a: string, b: string)
    ensures Depends(PairNodes(d.name, EvidenceFields(d), d.golden, Uncompared(d)), a, b) <==>
      PairEdge(d, a, b) || GoldenEdge(d, a, b)
  {
    var n := PairNodes(d.name, EvidenceFields(d), d.golden, Uncompared(d));
    assert n == [n[0]] + [n[1]] + [n[2]];
    DependsBoth([n[0]], [n[1]], a, b);
    DependsBoth([n[0]] + [n[1]], [n[2]], a, b);
    forall i | 0 <= i < 3 ensures Depends([n[i]], a, b) <==> n[i].id == a && b in n[i].dependencies {
      DependsOne(n[i], a, b);
    }
    HighTexts(d.name);
    PairRowsDepend(d, b);
    GoldenDepends(d, b);
  }

  /** A compiled graph has exactly these dependencies. */
  lemma DependenciesExplained(d: Definition, a: string, b: string)
    requires LocallyValid(d)
    ensures Depends(Compile(d).0, a, b) <==> Edge(d, a, b)
  {
    var plan := CompiledPlan(d);
    var x, y, z := SourceNodes(d.sources), NormalizedNodes(d.fields, d.sources), PlanNodes(plan);
    var v := CandidateNodes(d.name, CandidateSources(d));
    var w := PairNodes(d.name, EvidenceFields(d), d.golden, Uncompared(d));
    assert Compile(d).0 == x + y + z + v + w;
    DependsBoth(x, y, a, b);
    DependsBoth(x + y, z, a, b);
    DependsBoth(x + y + z, v, a, b);
    DependsBoth(x + y + z + v, w, a, b);
    SourcesRestOnNothing(d.sources, a, b);
    FieldEdgeIs(d, a, b);
    BlockEdgeIs(d, a, b);
    CandidateNodesDepend(d, a, b);
    PairNodesDepend(d, a, b);
  }

  // ---- what the golden rows rest on ----

  /** One rests on the other through a chain of dependencies. */
  ghost predicate Rests(nodes: seq<Node>, a: string, b: string) {
    exists p :: p != [] && Chained(nodes, p) && p[0] == a && p[|p| - 1] == b
  }

  lemma RestsOnItself(nodes: seq<Node>, a: string)
    ensures Rests(nodes, a, a)
  {
    assert Chained(nodes, [a]) && [a][0] == a;
  }

  lemma RestsOn(nodes: seq<Node>, a: string, b: string, c: string)
    requires Rests(nodes, a, b) && Depends(nodes, b, c)
    ensures Rests(nodes, a, c)
  {
    var p :| p != [] && Chained(nodes, p) && p[0] == a && p[|p| - 1] == b;
    PushChained(nodes, p, c);
    assert (p + [c])[0] == a && (p + [c])[|p + [c]| - 1] == c;
  }

  lemma ByEdge(d: Definition, a: string, b: string, c: string)
    requires LocallyValid(d) && Rests(Compile(d).0, a, b) && Edge(d, b, c)
    ensures Rests(Compile(d).0, a, c)
  {
    DependenciesExplained(d, b, c);
    RestsOn(Compile(d).0, a, b, c);
  }

  ghost predicate RestsOnPairs(d: Definition) {
    var (nodes, top) := (Compile(d).0, "golden/" + d.name);
    && Rests(nodes, top, "evidence/" + d.name) && Rests(nodes, top, "pairs/" + d.name)
    && Rests(nodes, top, "pair-overflow/" + d.name) && Rests(nodes, top, "pair-stats/" + d.name)
    && Rests(nodes, top, "candidate-set/" + d.name) && Rests(nodes, top, "candidate-raw/" + d.name)
  }

  lemma GoldenOnPairs(d: Definition)
    requires LocallyValid(d)
    ensures RestsOnPairs(d)
  {
    var n, top := d.name, "golden/" + d.name;
    RestsOnItself(Compile(d).0, top);
    assert GoldenEdge(d, top, "evidence/" + n) && GoldenEdge(d, top, "pairs/" + n);
    ByEdge(d, top, top, "evidence/" + n);
    ByEdge(d, top, top, "pairs/" + n);
    assert PairEdge(d, "pairs/" + n, "pair-overflow/" + n) && CountEdge(d, "pair-overflow/" + n, "pair-stats/" + n);
    ByEdge(d, top, "pairs/" + n, "pair-overflow/" + n);
    ByEdge(d, top, "pair-overflow/" + n, "pair-stats/" + n);
    assert CountEdge(d, "pair-stats/" + n, "candidate-set/" + n);
    ByEdge(d, top, "pair-stats/" + n, "candidate-set/" + n);
    assert CountEdge(d, "candidate-set/" + n, "candidate-raw/" + n);
    ByEdge(d, top, "candidate-set/" + n, "candidate-raw/" + n);
  }

  lemma GoldenOnField(d: Definition, f: string)
    requires LocallyValid(d) && f in d.fields
    ensures Rests(Compile(d).0, "golden/" + d.name, "normalized/" + f)
  {
    var top := "golden/" + d.name;
    GoldenOnPairs(d);
    if r :| r in d.rules && f in r.fields {
      assert PairEdge(d, "pairs/" + d.name, "normalized/" + f);
      ByEdge(d, top, "pairs/" + d.name, "normalized/" + f);
    } else {
      RestsOnItself(Compile(d).0, top);
      assert GoldenEdge(d, top, "normalized/" + f);
      ByEdge(d, top, top, "normalized/" + f);
    }
  }

  /** The golden rows rest, directly or through others, on every field, every block with its counts
      and overflow, and every stage of the pairs. */
  lemma GoldenRestsOnAll(d: Definition)
    requires LocallyValid(d)
    ensures Compile(d).1 == ["golden/" + d.name]
    ensures RestsOnPairs(d)
    ensures forall f | f in d.fields :: Rests(Compile(d).0, "golden/" + d.name, "normalized/" + f)
    ensures forall r | r in d.rules && r.candidate.Some? ::
      && Rests(Compile(d).0, "golden/" + d.name, "blocks/" + r.name)
      && Rests(Compile(d).0, "golden/" + d.name, "block-stats/" + r.name)
      && Rests(Compile(d).0, "golden/" + d.name, "block-overflow/" + r.name)
  {
    var top, raw := "golden/" + d.name, "candidate-raw/" + d.name;
    HighTexts(d.name);
    GoldenOnPairs(d);
    forall f | f in d.fields { GoldenOnField(d, f); }
    forall r | r in d.rules && r.candidate.Some?
      ensures Rests(Compile(d).0, top, "blocks/" + r.name)
      ensures Rests(Compile(d).0, top, "block-stats/" + r.name)
      ensures Rests(Compile(d).0, top, "block-overflow/" + r.name)
    {
      assert CandidateEdge(d, raw, "blocks/" + r.name) && CandidateEdge(d, raw, "block-stats/" + r.name)
        && CandidateEdge(d, raw, "block-overflow/" + r.name);
      ByEdge(d, top, raw, "blocks/" + r.name);
      ByEdge(d, top, raw, "block-stats/" + r.name);
      ByEdge(d, top, raw, "block-overflow/" + r.name);
    }
  }

  // ---- the nodes ----

  /** Every node is refreshed by differences, from outside, and not when it is made. */
  ghost predicate Plain(n: Node) {
    n.executable && n.external && !n.initialize && n.mode == Differential
  }

  ghost predicate OfEntity(d: Definition, a: string) {
    || a == "candidate-raw/" + d.name || a == "candidate-set/" + d.name || a == "pair-stats/" + d.name
    || a == "pair-overflow/" + d.name || a == "pairs/" + d.name || a == "evidence/" + d.name || a == "golden/" + d.name
  }

  lemma {:induction false} SourceNodesAre(sources: seq<Source>, a: string)
    ensures a in Names(SourceNodes(sources)) <==> exists s :: s in sources && a == Id(Records, s.name)
    ensures forall n | n in SourceNodes(sources) :: Plain(n)
  {
    if sources != [] {
      SourceNodesAre(sources[1..], a);
      NamesOfBoth([Make(Records, sources[0].name, [])], SourceNodes(sources[1..]));
      assert sources == [sources[0]] + sources[1..];
    }
  }

  lemma {:induction false} FieldNodesAre(fields: seq<string>, sources: seq<Source>, a: string)
    ensures a in Names(NormalizedNodes(fields, sources)) <==> a in IdsOf(FieldRows, fields)
    ensures forall n | n in NormalizedNodes(fields, sources) :: Plain(n)
  {
    if fields != [] {
      FieldNodesAre(fields[1..], sources, a);
      NamesOfBoth([NormalizedNode(fields[0], sources)], NormalizedNodes(fields[1..], sources));
    }
  }

  lemma {:induction false} PlanNodesAre(plan: Plan, a: string)
    ensures a in Names(PlanNodes(plan)) <==> a in PlanIds(plan)
    ensures forall n | n in PlanNodes(plan) :: Plain(n)
  {
    if plan != [] {
      PlanNodesAre(plan[1..], a);
      var nodes := ChannelNodes(plan[0]);
      NamesOfBoth(nodes, PlanNodes(plan[1..]));
      assert a == nodes[0].id || a == nodes[1].id || a == nodes[2].id ==> a in Names(nodes);
    }
  }

  lemma NamesOfList(nodes: seq<Node>, a: string)
    ensures a in Names(nodes) <==> exists i :: 0 <= i < |nodes| && a == nodes[i].id
  {
    if i :| 0 <= i < |nodes| && a == nodes[i].id { assert nodes[i] in nodes; }
  }

  lemma CandidateNodesAre(name: string, sources: seq<string>, a: string)
    ensures a in Names(CandidateNodes(name, sources)) <==>
      || a == Id(CandidateRaw, name) || a == Id(CandidateSet, name)
      || a == Id(PairStats, name) || a == Id(PairOverflow, name)
    ensures forall n | n in CandidateNodes(name, sources) :: Plain(n)
  {
    var x := CandidateNodes(name, sources);
    NamesOfList(x, a);
    assert |x| == 4 && x[0].id == Id(CandidateRaw, name) && x[1].id == Id(CandidateSet, name);
    assert x[2].id == Id(PairStats, name) && x[3].id == Id(PairOverflow, name);
  }

  lemma PairNodesAre(name: string, evidence: seq<string>, golden: seq<string>, rest: seq<string>, a: string)
    ensures a in Names(PairNodes(name, evidence, golden, rest)) <==>
      a == Id(PairRows, name) || a == Id(Evidence, name) || a == Id(Golden, name)
    ensures forall n | n in PairNodes(name, evidence, golden, rest) :: Plain(n)
  {
    var x := PairNodes(name, evidence, golden, rest);
    NamesOfList(x, a);
    assert |x| == 3 && x[0].id == Id(PairRows, name) && x[1].id == Id(Evidence, name) && x[2].id == Id(Golden, name);
  }

  lemma EntityNodesAre(d: Definition, a: string)
    ensures a in Names(EntityNodes(d)) <==> OfEntity(d, a)
    ensures forall n | n in EntityNodes(d) :: Plain(n)
  {
    NamesOfBoth(CandidateNodes(d.name, CandidateSources(d)),
      PairNodes(d.name, EvidenceFields(d), d.golden, Uncompared(d)));
    CandidateNodesAre(d.name, CandidateSources(d), a);
    PairNodesAre(d.name, EvidenceFields(d), d.golden, Uncompared(d), a);
    LowTexts(d.name);
    HighTexts(d.name);
  }

  /** The nodes are one per source and field, three per blocking rule, and seven of the entity. */
  lemma NodesExplained(d: Definition, a: string)
    requires LocallyValid(d)
    ensures a in Names(Compile(d).0) <==>
      || (exists s :: s in d.sources && a == "records/" + s.name)
      || (exists f :: f in d.fields && a == "normalized/" + f)
      || (exists r :: r in d.rules && r.candidate.Some? && OfRule(r, a))
      || OfEntity(d, a)
    ensures forall n | n in Compile(d).0 :: Plain(n)
  {
    var x, y, z := SourceNodes(d.sources), NormalizedNodes(d.fields, d.sources), PlanNodes(CompiledPlan(d));
    NamesOfBoth(x, y);
    NamesOfBoth(x + y, z);
    NamesOfBoth(x + y + z, EntityNodes(d));
    SourceNodesAre(d.sources, a);
    FieldNodesAre(d.fields, d.sources, a);
    IdsAre(FieldRows, d.fields, a);
    PlanNodesAre(CompiledPlan(d), a);
    PlanIdsMean(d, a);
    EntityNodesAre(d, a);
    forall n: string { LowTexts(n); }
  }

  // ---- the order of the nodes ----

  /** At the first difference the lesser character, and an end before a character. */
  ghost predicate NameBefore(a: string, b: string) {
    exists n: nat :: n <= |a| && n < |b| && a[..n] == b[..n] && (n == |a| || a[n] < b[n])
  }

  lemma NameLeMeans(a: string, b: string)
    ensures NameLe(a, b) <==> a == b || NameBefore(a, b)
  {
    var x, y := Codes(a), Codes(b);
    LexMeans(x, y);
    if n: nat :| n <= |x| && n < |y| && SameUpTo(x, y, n) && (n == |x| || x[n] < y[n]) {
      forall i | 0 <= i < n ensures a[i] == b[i] {
        assert x[i] == y[i];
      }
      assert a[..n] == b[..n];
    }
    if n: nat :| n <= |a| && n < |b| && a[..n] == b[..n] && (n == |a| || a[n] < b[n]) {
      forall i | 0 <= i < n ensures x[i] == y[i] {
        assert a[..n][i] == b[..n][i];
      }
      assert SameUpTo(x, y, n);
    }
    if x == y { CodesInjective(a, b); }
  }

  /** At the first difference the name that comes before. */
  ghost predicate FirstBefore(a: seq<string>, b: seq<string>) {
    exists n: nat :: n < |a| && n < |b| && a[..n] == b[..n] && NameBefore(a[n], b[n])
  }

  /** Of two orders of as many nodes the lesser is the one with the lesser name at the first difference. */
  lemma {:induction false} NamesLeMeans(a: seq<string>, b: seq<string>)
    requires |a| == |b|
    ensures NamesLe(a, b) <==> a == b || FirstBefore(a, b)
  {
    if a != [] {
      NameLeMeans(a[0], b[0]);
      NamesLeMeans(a[1..], b[1..]);
      assert a == [a[0]] + a[1..] && b == [b[0]] + b[1..];
      if a[0] != b[0] && NameBefore(a[0], b[0]) { assert a[..0] == b[..0]; }
      if n: nat :| a[0] == b[0] && n < |a[1..]| && a[1..][..n] == b[1..][..n] && NameBefore(a[1..][n], b[1..][n]) {
        assert a[..n + 1] == [a[0]] + a[1..][..n] && b[..n + 1] == [b[0]] + b[1..][..n];
        assert NameBefore(a[n + 1], b[n + 1]);
      }
      if n: nat :| n < |a| && a[..n] == b[..n] && NameBefore(a[n], b[n]) {
        if n > 0 {
          assert a[0] == a[..n][0] == b[..n][0] == b[0];
          assert a[1..][..n - 1] == a[..n][1..] && b[1..][..n - 1] == b[..n][1..];
          assert a[1..][n - 1] == a[n] && b[1..][n - 1] == b[n];
        }
      }
    }
  }
}
