/** Validation and ordering of a refresh-graph artifact. */
module ArtifactGraphs {
  import opened Prelude
  import opened Sorting

  datatype RefreshMode = Auto | Full | Differential | OtherMode

  datatype Node = Node(
    id: string, dependencies: seq<string>, mode: RefreshMode,
    initialize: bool, external: bool, executable: bool)

  datatype GraphError =
    | NothingToRefresh
    | NotExecutable(node: string)
    | DuplicateNode(node: string)
    | MissingRoot(root: string)
    | MissingDependency(node: string, dependency: string)
    | CyclicDependencies

  predicate Runs(n: Node) {
    n.executable && !n.initialize && n.external && !n.mode.OtherMode?
  }

  function Names(nodes: seq<Node>): set<string> {
    set n | n in nodes :: n.id
  }

  // ---- the order of logical ids ----

  function Codes(name: string): seq<int> {
    Map(name, (c: char) => c as int)
  }

  predicate NameLe(a: string, b: string) {
    LexLe(Codes(a), Codes(b))
  }

  lemma CodesInjective(a: string, b: string)
    requires Codes(a) == Codes(b)
    ensures a == b
  {
    forall i | 0 <= i < |a| ensures a[i] == b[i] {
      assert Codes(a)[i] == Codes(b)[i];
    }
  }

  /** Lexicographic order of id sequences. */
  ghost predicate NamesLe(a: seq<string>, b: seq<string>) {
    a == [] || (b != [] && (if a[0] == b[0] then NamesLe(a[1..], b[1..]) else NameLe(a[0], b[0])))
  }

  lemma NamesAntisymmetric(a: seq<string>, b: seq<string>)
    requires NamesLe(a, b) && NamesLe(b, a)
    ensures a == b
  {
    if a != [] {
      if a[0] == b[0] {
        NamesAntisymmetric(a[1..], b[1..]);
        assert a == [a[0]] + a[1..] && b == [b[0]] + b[1..];
      } else {
        LexAntisymmetric(Codes(a[0]), Codes(b[0]));
        CodesInjective(a[0], b[0]);
      }
    }
  }

  // ---- what is asked of an artifact ----

  /** The first node that cannot run or repeats an id. */
  function NodesFault(nodes: seq<Node>, seen: set<string>): Option<GraphError> {
    if nodes == [] then None
    else if !Runs(nodes[0]) then Some(NotExecutable(nodes[0].id))
    else if nodes[0].id in seen then Some(DuplicateNode(nodes[0].id))
    else NodesFault(nodes[1..], seen + {nodes[0].id})
  }

  function RootsFault(roots: seq<string>, names: set<string>): Option<GraphError> {
    if roots == [] then None
    else if roots[0] !in names then Some(MissingRoot(roots[0]))
    else RootsFault(roots[1..], names)
  }

  function MissingFault(node: string, dependencies: seq<string>, names: set<string>): Option<GraphError> {
    if dependencies == [] then None
    else if dependencies[0] !in names then Some(MissingDependency(node, dependencies[0]))
    else MissingFault(node, dependencies[1..], names)
  }

  function DependenciesFault(nodes: seq<Node>, names: set<string>): Option<GraphError> {
    if nodes == [] then None
    else
      var fault := MissingFault(nodes[0].id, nodes[0].dependencies, names);
      if fault.Some? then fault else DependenciesFault(nodes[1..], names)
  }

  /** The first complaint about an artifact, cycles aside. */
  function Fault(nodes: seq<Node>, roots: seq<string>): Option<GraphError> {
    if nodes == [] || roots == [] then Some(NothingToRefresh)
    else if NodesFault(nodes, {}).Some? then NodesFault(nodes, {})
    else if RootsFault(roots, Names(nodes)).Some? then RootsFault(roots, Names(nodes))
    else DependenciesFault(nodes, Names(nodes))
  }

  ghost predicate DistinctIds(nodes: seq<Node>) {
    forall i, j | 0 <= i < j < |nodes| :: nodes[i].id != nodes[j].id
  }

  ghost predicate Resolved(nodes: seq<Node>, names: set<string>) {
    forall n, d | n in nodes && d in n.dependencies :: d in names
  }

  ghost predicate WellFormed(nodes: seq<Node>, roots: seq<string>) {
    && nodes != [] && roots != []
    && (forall n | n in nodes :: Runs(n))
    && DistinctIds(nodes)
    && (forall r | r in roots :: r in Names(nodes))
    && Resolved(nodes, Names(nodes))
  }

  lemma DistinctIdsHead(nodes: seq<Node>)
    requires nodes != []
    ensures DistinctIds(nodes) <==> DistinctIds(nodes[1..]) && forall n | n in nodes[1..] :: n.id != nodes[0].id
  {
    var rest := nodes[1..];
    if DistinctIds(nodes) {
      forall i, j | 0 <= i < j < |rest| ensures rest[i].id != rest[j].id {
        assert nodes[i + 1].id != nodes[j + 1].id;
      }
      forall n | n in rest ensures n.id != nodes[0].id {
        var k :| 0 <= k < |rest| && rest[k] == n;
        assert nodes[k + 1] == n;
      }
    }
  }

  lemma NodesFaultMeans(nodes: seq<Node>, seen: set<string>)
    ensures NodesFault(nodes, seen).None? <==>
      (forall n | n in nodes :: Runs(n)) && DistinctIds(nodes) && (forall n | n in nodes :: n.id !in seen)
  {
    if nodes != [] {
      NodesFaultMeans(nodes[1..], seen + {nodes[0].id});
      DistinctIdsHead(nodes);
      assert nodes == [nodes[0]] + nodes[1..];
    }
  }

  lemma RootsFaultMeans(roots: seq<string>, names: set<string>)
    ensures RootsFault(roots, names).None? <==> forall r | r in roots :: r in names
  {
    if roots != [] {
      RootsFaultMeans(roots[1..], names);
      assert roots == [roots[0]] + roots[1..];
    }
  }

  lemma MissingFaultMeans(node: string, dependencies: seq<string>, names: set<string>)
    ensures MissingFault(node, dependencies, names).None? <==> forall d | d in dependencies :: d in names
  {
    if dependencies != [] {
      MissingFaultMeans(node, dependencies[1..], names);
      assert dependencies == [dependencies[0]] + dependencies[1..];
    }
  }

  lemma DependenciesFaultMeans(nodes: seq<Node>, names: set<string>)
    ensures DependenciesFault(nodes, names).None? <==> Resolved(nodes, names)
  {
    if nodes != [] {
      MissingFaultMeans(nodes[0].id, nodes[0].dependencies, names);
      DependenciesFaultMeans(nodes[1..], names);
      assert nodes == [nodes[0]] + nodes[1..];
    }
  }

  /** An artifact draws no complaint exactly when it is well formed. */
  lemma FaultMeans(nodes: seq<Node>, roots: seq<string>)
    ensures Fault(nodes, roots).None? <==> WellFormed(nodes, roots)
  {
    NodesFaultMeans(nodes, {});
    RootsFaultMeans(roots, Names(nodes));
    DependenciesFaultMeans(nodes, Names(nodes));
  }

  ghost predicate Depends(nodes: seq<Node>, a: string, b: string) {
    exists n :: n in nodes && n.id == a && b in n.dependencies
  }

  ghost predicate IsCycle(nodes: seq<Node>, p: seq<string>) {
    |p| >= 2 && p[0] == p[|p| - 1] && Chained(nodes, p)
  }

  ghost predicate Acyclic(nodes: seq<Node>) {
    forall p: seq<string> :: !IsCycle(nodes, p)
  }

  ghost predicate DependenciesFirst(order: seq<Node>) {
    forall i, d | 0 <= i < |order| && d in order[i].dependencies :: d in Names(order[..i])
  }

  /** An arrangement of the nodes with every dependency before its dependents. */
  ghost predicate IsOrdering(nodes: seq<Node>, order: seq<Node>) {
    multiset(order) == multiset(nodes) && DependenciesFirst(order)
  }

  function Ids(nodes: seq<Node>): (r: seq<string>)
    ensures |r| == |nodes|
  {
    Map(nodes, (n: Node) => n.id)
  }

  // ---- orderings of ids over an index of the nodes ----

  type Index = map<string, Node>

  ghost predicate Indexes(nodes: seq<Node>, index: Index) {
    && DistinctIds(nodes)
    && index.Keys == Names(nodes)
    && (forall n | n in nodes :: n.id in index && index[n.id] == n)
  }

  /** Every entry is filed under its own id and depends on entries only. */
  ghost predicate Closed(index: Index) {
    && (forall x | x in index :: index[x].id == x)
    && (forall x, d | x in index && d in index[x].dependencies :: d in index)
  }

  ghost predicate Ready(index: Index, done: set<string>, x: string) {
    x in index && x !in done && forall d | d in index[x].dependencies :: d in done
  }

  /** Each id is ready once those before it are done. */
  ghost predicate Placed(index: Index, order: seq<string>) {
    forall i | 0 <= i < |order| :: Ready(index, Elements(order[..i]), order[i])
  }

  /** Each id is the least that is ready. */
  ghost predicate Greedy(index: Index, order: seq<string>) {
    forall i, x | 0 <= i < |order| && Ready(index, Elements(order[..i]), x) :: NameLe(order[i], x)
  }

  lemma PlacedDistinct(index: Index, order: seq<string>)
    requires Placed(index, order)
    ensures Distinct(order)
  {
    forall i, j | 0 <= i < j < |order| ensures order[i] != order[j] {
      assert Ready(index, Elements(order[..j]), order[j]);
      assert order[..j][i] == order[i];
    }
  }

  lemma PushPlaced(index: Index, order: seq<string>, x: string)
    requires Placed(index, order) && Ready(index, Elements(order), x)
    ensures Placed(index, order + [x])
  {
    var after := order + [x];
    forall i | 0 <= i < |after| ensures Ready(index, Elements(after[..i]), after[i]) {
      assert after[..i] == order[..i];
      if i == |order| { assert order[..i] == order; }
    }
  }

  lemma PushGreedy(index: Index, order: seq<string>, x: string)
    requires Greedy(index, order)
    requires forall y | Ready(index, Elements(order), y) :: NameLe(x, y)
    ensures Greedy(index, order + [x])
  {
    var after := order + [x];
    forall i, y | 0 <= i < |after| && Ready(index, Elements(after[..i]), y) ensures NameLe(after[i], y) {
      assert after[..i] == order[..i];
      if i == |order| { assert order[..i] == order; }
    }
  }

  /** Taking the least ready id each time gives the least ordering. */
  lemma {:induction false} GreedyLeast(index: Index, order: seq<string>, other: seq<string>, k: nat)
    requires Placed(index, other) && Greedy(index, order)
    requires k <= |order| == |other| && order[..k] == other[..k]
    ensures NamesLe(order[k..], other[k..])
    decreases |order| - k
  {
    if k < |order| {
      assert Ready(index, Elements(other[..k]), other[k]);
      assert NameLe(order[k], other[k]);
      if order[k] == other[k] {
        assert order[..k + 1] == order[..k] + [order[k]] && other[..k + 1] == other[..k] + [other[k]];
        GreedyLeast(index, order, other, k + 1);
        assert order[k..][1..] == order[k + 1..] && other[k..][1..] == other[k + 1..];
      }
    }
  }

  // ---- cycles ----

  lemma {:induction false} WalkBack(nodes: seq<Node>, index: Index, order: seq<string>, p: seq<string>, k: nat,
      top: nat)
    requires Indexes(nodes, index) && Placed(index, order)
    requires Chained(nodes, p)
    requires 1 <= k < |p| && top < |order| && p[0] == order[top]
    ensures p[k] in order[..top]
  {
    var from := top;
    if k > 1 {
      WalkBack(nodes, index, order, p, k - 1, top);
      from :| 0 <= from < top && order[from] == p[k - 1];
    }
    assert Depends(nodes, p[k - 1], p[k - 1 + 1]);
    var n :| n in nodes && n.id == p[k - 1] && p[k] in n.dependencies;
    assert Ready(index, Elements(order[..from]), order[from]);
    assert p[k] in order[..from];
    var m :| 0 <= m < from && order[..from][m] == p[k];
    assert order[..top][m] == p[k];
  }

  /** Nodes that can all be ordered have no cycle. */
  lemma OrderedAcyclic(nodes: seq<Node>, index: Index, order: seq<string>)
    requires Indexes(nodes, index) && Placed(index, order) && Elements(order) == Names(nodes)
    ensures Acyclic(nodes)
  {
    PlacedDistinct(index, order);
    forall p: seq<string> ensures !IsCycle(nodes, p) {
      if IsCycle(nodes, p) {
        assert Depends(nodes, p[0], p[0 + 1]);
        assert p[0] in Names(nodes);
        assert p[0] in order;
        var top :| 0 <= top < |order| && order[top] == p[0];
        WalkBack(nodes, index, order, p, |p| - 1, top);
      }
    }
  }

  ghost predicate DependsWithin(nodes: seq<Node>, s: set<string>, x: string) {
    exists d :: d in s && Depends(nodes, x, d)
  }

  /** Every member of the set depends on a member. */
  ghost predicate Stuck(nodes: seq<Node>, s: set<string>) {
    forall x {:trigger DependsWithin(nodes, s, x)} | x in s :: DependsWithin(nodes, s, x)
  }

  ghost predicate Chained(nodes: seq<Node>, p: seq<string>) {
    forall i | 0 <= i < |p| - 1 :: Depends(nodes, p[i], p[i + 1])
  }

  lemma PushChained(nodes: seq<Node>, p: seq<string>, d: string)
    requires p != [] && Chained(nodes, p) && Depends(nodes, p[|p| - 1], d)
    ensures Chained(nodes, p + [d])
  {
    var q := p + [d];
    forall i | 0 <= i < |q| - 1 ensures Depends(nodes, q[i], q[i + 1]) {
      if i < |p| - 1 { assert Depends(nodes, p[i], p[i + 1]); }
    }
  }

  /** A walk that cannot leave a finite set comes back to itself. */
  lemma {:induction false} StuckCycles(nodes: seq<Node>, s: set<string>, p: seq<string>) returns (cycle: seq<string>)
    requires Stuck(nodes, s) && p != [] && Distinct(p) && Elements(p) <= s && Chained(nodes, p)
    ensures IsCycle(nodes, cycle)
    decreases |s| - |p|
  {
    var last := p[|p| - 1];
    assert last in Elements(p) && DependsWithin(nodes, s, last);
    var d :| d in s && Depends(nodes, last, d);
    PushChained(nodes, p, d);
    if d in p {
      var k: nat :| k < |p| && p[k] == d;
      cycle := (p + [d])[k..];
      Closes(nodes, p + [d], k);
    } else {
      Grown(p, d, s);
      cycle := StuckCycles(nodes, s, p + [d]);
    }
  }

  lemma Closes(nodes: seq<Node>, q: seq<string>, k: nat)
    requires k + 1 < |q| && q[k] == q[|q| - 1]
    requires Chained(nodes, q)
    ensures IsCycle(nodes, q[k..])
  {
    var cycle := q[k..];
    forall i | 0 <= i < |cycle| - 1 ensures Depends(nodes, cycle[i], cycle[i + 1]) {
      assert Depends(nodes, q[k + i], q[k + i + 1]);
    }
  }

  lemma Grown(p: seq<string>, d: string, s: set<string>)
    requires Distinct(p) && Elements(p) <= s && d in s && d !in p
    ensures Distinct(p + [d]) && Elements(p + [d]) <= s && |p| < |s|
  {
    var q := p + [d];
    forall i, j | 0 <= i < j < |q| ensures q[i] != q[j] {
      assert q[i] == p[i];
    }
    DistinctSize(q);
    forall x | x in q ensures x in s {
      if x != d { assert x in Elements(p); }
    }
    SubsetSize(Elements(q), s);
  }

  // ---- counting what a node still waits for ----

  function Waiting(dependencies: seq<string>, done: set<string>): nat {
    if dependencies == [] then 0
    else (if dependencies[0] in done then 0 else 1) + Waiting(dependencies[1..], done)
  }

  lemma WaitingNone(dependencies: seq<string>, done: set<string>)
    ensures Waiting(dependencies, done) == 0 <==> forall d | d in dependencies :: d in done
    ensures done == {} ==> Waiting(dependencies, done) == |dependencies|
  {
    if dependencies != [] {
      WaitingNone(dependencies[1..], done);
      assert dependencies == [dependencies[0]] + dependencies[1..];
    }
  }

  lemma WaitingLess(dependencies: seq<string>, done: set<string>, d: string)
    requires d !in done
    ensures Waiting(dependencies, done) == Waiting(dependencies, done + {d}) + multiset(dependencies)[d]
  {
    if dependencies != [] {
      WaitingLess(dependencies[1..], done, d);
      assert dependencies == [dependencies[0]] + dependencies[1..];
    }
  }

  // ---- as it runs ----

  type Lists = map<string, seq<string>>

  function Listed(lists: Lists, d: string): seq<string> {
    if d in lists then lists[d] else []
  }

  method IndexNodes(nodes: seq<Node>) returns (fault: Option<GraphError>, index: Index)
    ensures fault == NodesFault(nodes, {})
    ensures fault.None? ==> Indexes(nodes, index)
  {
    index := map[];
    assert Names(nodes[..0]) == {} && nodes[0..] == nodes;
    for i := 0 to |nodes|
      invariant NodesFault(nodes[i..], Names(nodes[..i])) == NodesFault(nodes, {})
      invariant Indexes(nodes[..i], index)
    {
      var n := nodes[i];
      assert nodes[i..][0] == n && nodes[i..][1..] == nodes[i + 1..];
      assert nodes[..i + 1] == nodes[..i] + [n];
      assert Names(nodes[..i + 1]) == Names(nodes[..i]) + {n.id};
      if !Runs(n) {
        return Some(NotExecutable(n.id)), index;
      }
      if n.id in index {
        return Some(DuplicateNode(n.id)), index;
      }
      PushIndexes(nodes[..i], index, n);
      index := index[n.id := n];
    }
    assert nodes[..|nodes|] == nodes;
    fault := None;
  }

  lemma PushIndexes(nodes: seq<Node>, index: Index, n: Node)
    requires Indexes(nodes, index) && n.id !in index
    ensures Indexes(nodes + [n], index[n.id := n])
  {
    var after := nodes + [n];
    assert Names(after) == Names(nodes) + {n.id};
    forall i, j | 0 <= i < j < |after| ensures after[i].id != after[j].id {
      assert after[i] == nodes[i] && nodes[i] in nodes;
      if j < |nodes| { assert after[j] == nodes[j]; }
    }
  }

  method CheckRoots(roots: seq<string>, names: set<string>) returns (fault: Option<GraphError>)
    ensures fault == RootsFault(roots, names)
  {
    for i := 0 to |roots|
      invariant RootsFault(roots[i..], names) == RootsFault(roots, names)
    {
      assert roots[i..][0] == roots[i] && roots[i..][1..] == roots[i + 1..];
      if roots[i] !in names {
        return Some(MissingRoot(roots[i]));
      }
    }
    fault := None;
  }

  /** How often `id` is listed under `d`. */
  function Times(lists: Lists, d: string, id: string): nat {
    multiset(Listed(lists, d))[id]
  }

  /** The node is listed once more for each mention of a dependency; nothing else changes. */
  ghost predicate FiledUnder(id: string, dependencies: seq<string>, lists: Lists, next: Lists) {
    forall d, x :: Times(next, d, x) == Times(lists, d, x) + if x == id then multiset(dependencies)[d] else 0
  }

  lemma AddedOnce(lists: Lists, dependency: string, id: string, d: string, x: string)
    ensures Times(lists[dependency := Listed(lists, dependency) + [id]], d, x)
         == Times(lists, d, x) + if x == id && d == dependency then 1 else 0
  {
  }

  lemma FiledOnce(id: string, dependencies: seq<string>, dependency: string, lists: Lists, next: Lists)
    requires FiledUnder(id, dependencies, lists, next)
    ensures FiledUnder(id, dependencies + [dependency], lists, next[dependency := Listed(next, dependency) + [id]])
  {
    var after := next[dependency := Listed(next, dependency) + [id]];
    forall d, x
      ensures Times(after, d, x) ==
        Times(lists, d, x) + if x == id then multiset(dependencies + [dependency])[d] else 0
    {
      AddedOnce(next, dependency, id, d, x);
      assert Times(next, d, x) == Times(lists, d, x) + if x == id then multiset(dependencies)[d] else 0;
    }
  }

  /** Files a node under each of its dependencies, once per mention. */
  method FileNode(node: Node, names: set<string>, lists: Lists) returns (fault: Option<GraphError>, next: Lists)
    ensures fault == MissingFault(node.id, node.dependencies, names)
    ensures fault.None? ==> FiledUnder(node.id, node.dependencies, lists, next)
  {
    var deps := node.dependencies;
    next := lists;
    for i := 0 to |deps|
      invariant MissingFault(node.id, deps[i..], names) == MissingFault(node.id, deps, names)
      invariant FiledUnder(node.id, deps[..i], lists, next)
    {
      assert deps[i..][0] == deps[i] && deps[i..][1..] == deps[i + 1..];
      assert deps[..i + 1] == deps[..i] + [deps[i]];
      if deps[i] !in names {
        return Some(MissingDependency(node.id, deps[i])), next;
      }
      FiledOnce(node.id, deps[..i], deps[i], lists, next);
      next := next[deps[i] := Listed(next, deps[i]) + [node.id]];
    }
    assert deps[..|deps|] == deps;
    fault := None;
  }

  /** How often each node of `nodes` is listed under each id. */
  ghost predicate Filed(nodes: seq<Node>, lists: Lists) {
    && (forall n, d | n in nodes :: Times(lists, d, n.id) == multiset(n.dependencies)[d])
    && (forall d, x | x !in Names(nodes) :: Times(lists, d, x) == 0)
  }

  lemma PushFiled(nodes: seq<Node>, lists: Lists, n: Node, next: Lists)
    requires Filed(nodes, lists) && n.id !in Names(nodes) && FiledUnder(n.id, n.dependencies, lists, next)
    ensures Filed(nodes + [n], next)
  {
    assert Names(nodes + [n]) == Names(nodes) + {n.id};
    forall m, d | m in nodes + [n] ensures Times(next, d, m.id) == multiset(m.dependencies)[d] {
      if m in nodes { assert m.id in Names(nodes); }
    }
  }

  /** The degrees start at the number of dependencies. */
  ghost predicate Tallied(nodes: seq<Node>, indegree: map<string, nat>) {
    indegree.Keys == Names(nodes) && forall n | n in nodes :: indegree[n.id] == |n.dependencies|
  }

  lemma PushTallied(nodes: seq<Node>, indegree: map<string, nat>, n: Node)
    requires Tallied(nodes, indegree) && n.id !in Names(nodes)
    ensures Tallied(nodes + [n], indegree[n.id := |n.dependencies|])
  {
    assert Names(nodes + [n]) == Names(nodes) + {n.id};
    forall m | m in nodes ensures m.id != n.id { assert m.id in Names(nodes); }
  }

  method Tally(nodes: seq<Node>, names: set<string>)
    returns (fault: Option<GraphError>, indegree: map<string, nat>, lists: Lists)
    requires DistinctIds(nodes)
    ensures fault == DependenciesFault(nodes, names)
    ensures fault.None? ==> Tallied(nodes, indegree) && Filed(nodes, lists)
  {
    indegree, lists := map[], map[];
    for i := 0 to |nodes|
      invariant DependenciesFault(nodes[i..], names) == DependenciesFault(nodes, names)
      invariant Tallied(nodes[..i], indegree) && Filed(nodes[..i], lists)
    {
      var n := nodes[i];
      assert nodes[i..][0] == n && nodes[i..][1..] == nodes[i + 1..];
      assert nodes[..i + 1] == nodes[..i] + [n];
      NotYetNamed(nodes, i);
      PushTallied(nodes[..i], indegree, n);
      indegree := indegree[n.id := |n.dependencies|];
      var missing, next := FileNode(n, names, lists);
      if missing.Some? {
        return missing, indegree, lists;
      }
      PushFiled(nodes[..i], lists, n, next);
      lists := next;
    }
    assert nodes[..|nodes|] == nodes;
    fault := None;
  }

  lemma NotYetNamed(nodes: seq<Node>, i: nat)
    requires DistinctIds(nodes) && i < |nodes|
    ensures nodes[i].id !in Names(nodes[..i])
  {
    forall m | m in nodes[..i] ensures m.id != nodes[i].id {
      var j :| 0 <= j < i && nodes[j] == m;
    }
  }

  /** Takes one dependency off every listed node; those left with none become ready. */
  method Release(list: seq<string>, indegree: map<string, nat>, ready: set<string>)
    returns (after: map<string, nat>, freed: set<string>)
    requires forall x | x in list :: x in indegree
    requires forall x | x in indegree :: multiset(list)[x] <= indegree[x]
    ensures after.Keys == indegree.Keys
    ensures forall x | x in indegree :: after[x] + multiset(list)[x] == indegree[x]
    ensures forall x :: x in freed <==> x in ready || (x in list && after[x] == 0)
  {
    after, freed := indegree, ready;
    for i := 0 to |list|
      invariant after.Keys == indegree.Keys
      invariant forall x | x in indegree :: after[x] + multiset(list[..i])[x] == indegree[x]
      invariant forall x | x in freed :: x in ready || (x in list[..i] && after[x] == 0)
      invariant forall x | x in ready || (x in list[..i] && after[x] == 0) :: x in freed
    {
      var x := list[i];
      assert list == list[..i] + [x] + list[i + 1..];
      assert list[..i + 1] == list[..i] + [x];
      assert x in list && x in after && after[x] > 0;
      after := after[x := after[x] - 1];
      if after[x] == 0 {
        freed := freed + {x};
      }
    }
    assert list[..|list|] == list;
  }

  ghost predicate Counts(index: Index, indegree: map<string, nat>, done: set<string>) {
    indegree.Keys == index.Keys && forall x | x in index :: indegree[x] == Waiting(index[x].dependencies, done)
  }

  ghost predicate ReadySet(index: Index, done: set<string>, ready: set<string>) {
    forall x :: x in ready <==> Ready(index, done, x)
  }

  ghost predicate FiledIndex(index: Index, lists: Lists) {
    && (forall x, d | x in index :: Times(lists, d, x) == multiset(index[x].dependencies)[d])
    && (forall x, d | x !in index :: x !in Listed(lists, d))
  }

  lemma CountsFall(index: Index, lists: Lists, before: map<string, nat>, after: map<string, nat>, done: set<string>,
      id: string)
    requires Counts(index, before, done) && FiledIndex(index, lists) && id !in done
    requires after.Keys == before.Keys && forall x | x in before :: after[x] + Times(lists, id, x) == before[x]
    ensures Counts(index, after, done + {id})
  {
    forall x | x in index ensures after[x] == Waiting(index[x].dependencies, done + {id}) {
      WaitingLess(index[x].dependencies, done, id);
    }
  }

  lemma ReleaseAllowed(index: Index, lists: Lists, before: map<string, nat>, done: set<string>, id: string)
    requires Counts(index, before, done) && FiledIndex(index, lists) && id !in done
    ensures forall x | x in Listed(lists, id) :: x in before
    ensures forall x | x in before :: Times(lists, id, x) <= before[x]
  {
    forall x | x in before ensures Times(lists, id, x) <= before[x] {
      WaitingLess(index[x].dependencies, done, id);
    }
  }

  /** What is done waits for nothing that is still to be done. */
  lemma DoneWaitsForNothing(index: Index, order: seq<string>, x: string, id: string)
    requires Placed(index, order) && x in order && id !in order
    ensures x in index && id !in index[x].dependencies
  {
    var i :| 0 <= i < |order| && order[i] == x;
    assert Ready(index, Elements(order[..i]), order[i]);
  }

  lemma ListedDepends(index: Index, lists: Lists, x: string, id: string)
    requires FiledIndex(index, lists)
    ensures x in Listed(lists, id) <==> x in index && id in index[x].dependencies
  {
    assert x in Listed(lists, id) <==> x in multiset(Listed(lists, id));
    if x in index {
      assert Times(lists, id, x) == multiset(index[x].dependencies)[id];
      assert id in index[x].dependencies <==> id in multiset(index[x].dependencies);
    }
  }

  /** Releasing the dependents of `id` makes ready exactly what `id` was holding back. */
  lemma ReadyGrows(index: Index, lists: Lists, order: seq<string>, id: string, ready: set<string>,
      after: map<string, nat>, x: string)
    requires Placed(index, order) && FiledIndex(index, lists) && Ready(index, Elements(order), id)
    requires ReadySet(index, Elements(order), ready) && Counts(index, after, Elements(order) + {id})
    ensures x in ready - {id} || (x in Listed(lists, id) && after[x] == 0) <==> Ready(index, Elements(order) + {id}, x)
  {
    ListedDepends(index, lists, x, id);
    if x in index {
      WaitingNone(index[x].dependencies, Elements(order) + {id});
      if x in order {
        DoneWaitsForNothing(index, order, x, id);
      }
    }
  }

  lemma StuckRest(nodes: seq<Node>, index: Index, indegree: map<string, nat>, done: set<string>)
    requires Indexes(nodes, index) && Closed(index) && Counts(index, indegree, done) && ReadySet(index, done, {})
    ensures Stuck(nodes, index.Keys - done)
  {
    var rest := index.Keys - done;
    forall x | x in rest ensures DependsWithin(nodes, rest, x) {
      assert !Ready(index, done, x);
      var d :| d in index[x].dependencies && d !in done;
      var n :| n in nodes && n.id == x;
      assert d in rest && Depends(nodes, x, d);
    }
  }

  lemma LeastName(s: set<string>) returns (x: string)
    requires s != {}
    ensures x in s && forall y | y in s :: NameLe(x, y)
  {
    x := LeastByRank(s, Codes);
  }

  ghost predicate CountsAt(index: Index, indegree: map<string, nat>, order: seq<string>) {
    Counts(index, indegree, Elements(order))
  }

  ghost predicate ReadyAt(index: Index, order: seq<string>, ready: set<string>) {
    ReadySet(index, Elements(order), ready)
  }

  lemma PushElements(order: seq<string>, id: string)
    ensures Elements(order + [id]) == Elements(order) + {id}
  {
  }

  lemma CountsNext(index: Index, lists: Lists, order: seq<string>, before: map<string, nat>, after: map<string, nat>,
      id: string)
    requires CountsAt(index, before, order) && FiledIndex(index, lists) && id !in order
    requires after.Keys == before.Keys && forall x | x in before :: after[x] + Times(lists, id, x) == before[x]
    ensures CountsAt(index, after, order + [id])
  {
    CountsFall(index, lists, before, after, Elements(order), id);
    PushElements(order, id);
  }

  lemma ReadyNext(index: Index, lists: Lists, order: seq<string>, ready: set<string>, after: map<string, nat>,
      freed: set<string>, id: string)
    requires Placed(index, order) && FiledIndex(index, lists) && Ready(index, Elements(order), id)
    requires ReadyAt(index, order, ready) && CountsAt(index, after, order + [id])
    requires forall x :: x in freed <==> (x in ready && x != id) || (x in Listed(lists, id) && after[x] == 0)
    ensures ReadyAt(index, order + [id], freed)
  {
    PushElements(order, id);
    forall x ensures x in freed <==> Ready(index, Elements(order) + {id}, x) {
      ReadyGrows(index, lists, order, id, ready, after, x);
    }
  }

  ghost function Rest(index: Index, order: seq<string>): set<string> {
    set x | x in index && x !in order
  }

  lemma RestShrinks(index: Index, order: seq<string>, id: string)
    requires id in index && id !in order
    ensures Rest(index, order + [id]) < Rest(index, order)
  {
    assert id in Rest(index, order);
  }

  /** Moves one ready id to the end of the order. */
  method Advance(index: Index, lists: Lists, order: seq<string>, indegree: map<string, nat>, ready: set<string>,
      id: string)
    returns (longer: seq<string>, after: map<string, nat>, freed: set<string>)
    requires Placed(index, order) && Greedy(index, order) && FiledIndex(index, lists)
    requires CountsAt(index, indegree, order) && ReadyAt(index, order, ready)
    requires id in ready && forall y | y in ready :: NameLe(id, y)
    ensures Rest(index, longer) < Rest(index, order)
    ensures Placed(index, longer) && Greedy(index, longer)
    ensures CountsAt(index, after, longer) && ReadyAt(index, longer, freed)
  {
    assert Ready(index, Elements(order), id);
    ReleaseAllowed(index, lists, indegree, Elements(order), id);
    longer := order + [id];
    after, freed := Release(Listed(lists, id), indegree, ready - {id});
    CountsNext(index, lists, order, indegree, after, id);
    ReadyNext(index, lists, order, ready, after, freed, id);
    RestShrinks(index, order, id);
    PushPlaced(index, order, id);
    PushGreedy(index, order, id);
  }

  method First(ready: set<string>) returns (id: string)
    requires ready != {}
    ensures id in ready && forall y | y in ready :: NameLe(id, y)
  {
    ghost var least := LeastName(ready);
    id :| id in ready && forall y | y in ready :: NameLe(id, y);
  }

  /** Repeatedly moves the least ready id to the end of the order. */
  method Order(index: Index, counts: map<string, nat>, lists: Lists)
    returns (order: seq<string>, ghost left: map<string, nat>)
    requires Closed(index) && FiledIndex(index, lists) && Counts(index, counts, {})
    ensures Placed(index, order) && Greedy(index, order)
    ensures CountsAt(index, left, order) && ReadyAt(index, order, {})
  {
    var indegree := counts;
    var ready := set x | x in counts && counts[x] == 0;
    order := [];
    StartReady(index, counts, ready);
    assert Elements(order) == {};
    while ready != {}
      invariant Placed(index, order) && Greedy(index, order)
      invariant CountsAt(index, indegree, order) && ReadyAt(index, order, ready)
      decreases Rest(index, order)
    {
      var id := First(ready);
      order, indegree, ready := Advance(index, lists, order, indegree, ready, id);
    }
    left := indegree;
  }

  lemma StartReady(index: Index, counts: map<string, nat>, ready: set<string>)
    requires Counts(index, counts, {}) && forall x :: x in ready <==> x in counts && counts[x] == 0
    ensures ReadySet(index, {}, ready)
  {
    forall x ensures x in ready <==> Ready(index, {}, x) {
      if x in index { WaitingNone(index[x].dependencies, {}); }
    }
  }

  // ---- from ids back to nodes ----

  function Fetch(index: Index, order: seq<string>): (r: seq<Node>)
    requires forall x | x in order :: x in index
    ensures |r| == |order| && forall i | 0 <= i < |r| :: r[i] == index[order[i]]
  {
    if order == [] then [] else [index[order[0]]] + Fetch(index, order[1..])
  }

  lemma FetchDistinct(index: Index, order: seq<string>)
    requires Closed(index) && Distinct(order) && forall x | x in order :: x in index
    ensures Distinct(Fetch(index, order)) && Ids(Fetch(index, order)) == order
  {
    var out := Fetch(index, order);
    assert forall i | 0 <= i < |order| :: order[i] in order;
    forall i, j | 0 <= i < j < |out| ensures out[i] != out[j] {
      assert out[i].id == order[i] && out[j].id == order[j];
    }
  }

  lemma FetchSame(nodes: seq<Node>, index: Index, order: seq<string>)
    requires Indexes(nodes, index) && Closed(index) && Elements(order) == index.Keys
    requires forall x | x in order :: x in index
    ensures Elements(Fetch(index, order)) == Elements(nodes)
  {
    var out := Fetch(index, order);
    forall n | n in out ensures n in nodes {
      var i :| 0 <= i < |out| && out[i] == n;
      assert order[i] in order;
      var m :| m in nodes && m.id == order[i];
    }
    forall n | n in nodes ensures n in out {
      assert n.id in Elements(order);
      var i :| 0 <= i < |order| && order[i] == n.id;
      assert out[i] == n;
    }
  }

  lemma FetchFirst(index: Index, order: seq<string>, i: nat, d: string)
    requires Closed(index) && Placed(index, order) && i < |order|
    requires forall x | x in order :: x in index
    requires d in Fetch(index, order)[i].dependencies
    ensures d in Names(Fetch(index, order)[..i])
  {
    var out := Fetch(index, order);
    assert Ready(index, Elements(order[..i]), order[i]);
    assert d in Elements(order[..i]);
    var j :| 0 <= j < i && order[..i][j] == d;
    assert order[j] in order && out[..i][j] == index[order[j]];
  }

  lemma FetchOrdering(nodes: seq<Node>, index: Index, order: seq<string>)
    requires Indexes(nodes, index) && Closed(index) && Placed(index, order) && Elements(order) == index.Keys
    requires forall x | x in order :: x in index
    ensures IsOrdering(nodes, Fetch(index, order)) && Ids(Fetch(index, order)) == order
  {
    PlacedDistinct(index, order);
    FetchDistinct(index, order);
    FetchSame(nodes, index, order);
    DistinctNodes(nodes);
    DistinctSameElements(nodes, Fetch(index, order));
    forall i: nat, d | i < |order| && d in Fetch(index, order)[i].dependencies
      ensures d in Names(Fetch(index, order)[..i]) {
      FetchFirst(index, order, i, d);
    }
  }

  lemma OrderingPlaced(nodes: seq<Node>, index: Index, other: seq<Node>)
    requires Indexes(nodes, index) && IsOrdering(nodes, other)
    ensures Placed(index, Ids(other)) && |Ids(other)| == |nodes|
  {
    var ids := Ids(other);
    SameMultisetSameElements(other, nodes);
    DistinctNodes(nodes);
    DistinctPermuted(nodes, other);
    forall i | 0 <= i < |ids| ensures Ready(index, Elements(ids[..i]), ids[i]) {
      assert other[i] in nodes;
      forall j | 0 <= j < i ensures ids[j] != ids[i] {
        assert other[j] in nodes && other[j] != other[i];
      }
      forall d | d in other[i].dependencies ensures d in ids[..i] {
        var n :| n in other[..i] && n.id == d;
        var j :| 0 <= j < i && other[..i][j] == n;
        assert ids[..i][j] == d;
      }
    }
  }

  lemma DistinctNodes(nodes: seq<Node>)
    requires DistinctIds(nodes)
    ensures Distinct(nodes)
  {
    forall i, j | 0 <= i < j < |nodes| ensures nodes[i] != nodes[j] {
      assert nodes[i].id != nodes[j].id;
    }
  }

  lemma FiledBoth(nodes: seq<Node>, index: Index, lists: Lists)
    requires Indexes(nodes, index) && Filed(nodes, lists)
    ensures FiledIndex(index, lists)
  {
    forall x, d | x in index ensures Times(lists, d, x) == multiset(index[x].dependencies)[d] {
      var n :| n in nodes && n.id == x;
    }
    forall x, d | x !in index ensures x !in Listed(lists, d) {
      assert Times(lists, d, x) == 0;
      assert x in Listed(lists, d) <==> x in multiset(Listed(lists, d));
    }
  }

  lemma IndexClosed(nodes: seq<Node>, index: Index)
    requires Indexes(nodes, index) && Resolved(nodes, Names(nodes))
    ensures Closed(index)
  {
    forall x | x in index ensures index[x].id == x && index[x] in nodes {
      var n :| n in nodes && n.id == x;
    }
  }

  lemma StartCounts(nodes: seq<Node>, index: Index, counts: map<string, nat>)
    requires Indexes(nodes, index) && Tallied(nodes, counts)
    ensures Counts(index, counts, {})
  {
    forall x | x in index ensures counts[x] == Waiting(index[x].dependencies, {}) {
      var n :| n in nodes && n.id == x;
      WaitingNone(n.dependencies, {});
    }
  }

  lemma PlacedKnown(index: Index, order: seq<string>)
    requires Placed(index, order)
    ensures Elements(order) <= index.Keys && |Elements(order)| == |order|
  {
    PlacedDistinct(index, order);
    DistinctSize(order);
    forall x | x in order ensures x in index {
      var i :| 0 <= i < |order| && order[i] == x;
      assert Ready(index, Elements(order[..i]), order[i]);
    }
  }

  lemma RestCycles(nodes: seq<Node>, s: set<string>)
    requires Stuck(nodes, s) && s != {}
    ensures !Acyclic(nodes)
  {
    var x :| x in s;
    var cycle := StuckCycles(nodes, s, [x]);
  }

  /** When nothing is ready any more, either every node is in the order or the rest holds a cycle. */
  lemma NotAllOrdered(nodes: seq<Node>, index: Index, left: map<string, nat>, order: seq<string>)
    requires Indexes(nodes, index) && Closed(index) && Placed(index, order)
    requires Counts(index, left, Elements(order)) && ReadySet(index, Elements(order), {})
    ensures |order| == |nodes| ==> Elements(order) == index.Keys
    ensures |order| != |nodes| ==> !Acyclic(nodes)
  {
    PlacedKnown(index, order);
    IndexSize(nodes, index);
    SubsetSize(index.Keys - Elements(order), index.Keys);
    assert index.Keys == Elements(order) + (index.Keys - Elements(order));
    if |order| != |nodes| {
      StuckRest(nodes, index, left, Elements(order));
      RestCycles(nodes, index.Keys - Elements(order));
    }
  }

  lemma IndexSize(nodes: seq<Node>, index: Index)
    requires Indexes(nodes, index)
    ensures |index.Keys| == |nodes|
  {
    var ids := Ids(nodes);
    DistinctSize(ids);
    forall x ensures x in ids <==> x in index {
      if x in ids { var i :| 0 <= i < |ids| && ids[i] == x; assert nodes[i] in nodes; }
      if x in index {
        var n :| n in nodes && n.id == x;
        var i :| 0 <= i < |nodes| && nodes[i] == n;
        assert ids[i] == x;
      }
    }
    assert Elements(ids) == index.Keys;
  }

  /** Accepts an artifact exactly when it is well formed and acyclic; the nodes come out in the
      lexicographically least order that puts every dependency first. */
  method ArtifactNodes(nodes: seq<Node>, roots: seq<string>) returns (r: Result<(seq<Node>, seq<string>), GraphError>)
    ensures r.Ok? <==> WellFormed(nodes, roots) && Acyclic(nodes)
    ensures !WellFormed(nodes, roots) ==> Fault(nodes, roots).Some? && r == Err(Fault(nodes, roots).value)
    ensures WellFormed(nodes, roots) && !Acyclic(nodes) ==> r == Err(CyclicDependencies)
    ensures r.Ok? ==> r.value.1 == roots && IsOrdering(nodes, r.value.0)
    ensures r.Ok? ==> forall other | IsOrdering(nodes, other) :: NamesLe(Ids(r.value.0), Ids(other))
  {
    FaultMeans(nodes, roots);
    if nodes == [] || roots == [] {
      return Err(NothingToRefresh);
    }
    var fault, index := IndexNodes(nodes);
    if fault.Some? {
      return Err(fault.value);
    }
    fault := CheckRoots(roots, index.Keys);
    if fault.Some? {
      return Err(fault.value);
    }
    var counts, lists;
    fault, counts, lists := Tally(nodes, index.Keys);
    if fault.Some? {
      return Err(fault.value);
    }
    IndexClosed(nodes, index);
    FiledBoth(nodes, index, lists);
    StartCounts(nodes, index, counts);
    ghost var left;
    var order;
    order, left := Order(index, counts, lists);
    NotAllOrdered(nodes, index, left, order);
    if |order| != |nodes| {
      return Err(CyclicDependencies);
    }
    OrderedAcyclic(nodes, index, order);
    forall x | x in order ensures x in index { assert x in Elements(order); }
    FetchOrdering(nodes, index, order);
    forall other | IsOrdering(nodes, other) ensures NamesLe(order, Ids(other)) {
      OrderingPlaced(nodes, index, other);
      GreedyLeast(index, order, Ids(other), 0);
      assert order[0..] == order && Ids(other)[0..] == Ids(other);
    }
    r := Ok((Fetch(index, order), roots));
  }

  /** At most one ordering is least, so the order the nodes are listed in does not matter. */
  lemma LeastOrderingUnique(nodes: seq<Node>, listed: seq<Node>, order: seq<Node>, other: seq<Node>)
    requires DistinctIds(nodes) && multiset(nodes) == multiset(listed)
    requires IsOrdering(nodes, order) && IsOrdering(listed, other)
    requires forall o | IsOrdering(nodes, o) :: NamesLe(Ids(order), Ids(o))
    requires forall o | IsOrdering(listed, o) :: NamesLe(Ids(other), Ids(o))
    ensures order == other
  {
    assert IsOrdering(nodes, other) && IsOrdering(listed, order);
    NamesAntisymmetric(Ids(order), Ids(other));
    SameMultisetSameElements(nodes, order);
    SameMultisetSameElements(nodes, other);
    forall i | 0 <= i < |order| ensures order[i] == other[i] {
      assert Ids(order)[i] == Ids(other)[i];
      assert order[i] in nodes && other[i] in nodes;
      var a :| 0 <= a < |nodes| && nodes[a] == order[i];
      var b :| 0 <= b < |nodes| && nodes[b] == other[i];
    }
  }
}
