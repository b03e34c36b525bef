/** Steward decisions: which set of them is consistent, and how the check finds out. */
module Constraint {
  import opened Prelude
  import opened Sorting
  import opened Types
  import opened Connectivity

  /** The largest value of the 64-bit counter. */
  const MAX_COUNT: nat := 0xFFFF_FFFF_FFFF_FFFF

  datatype ConstraintError =
    | DecisionInvalid
    | CheckLimit(checked: nat, limit: nat)
    | Contradiction(path: seq<DecisionEdge>, cannot: DecisionEdge)

  function CanonicalEdge(e: DecisionEdge): DecisionEdge {
    if e.left > e.right then e.(left := e.right, right := e.left) else e
  }

  /** The pairs joined by MATCH decisions. */
  ghost function MatchLinks(edges: seq<DecisionEdge>): set<(Id, Id)> {
    set e | e in edges && e.kind.Match? :: (e.left, e.right)
  }

  /** No NOT_MATCH decision separates records that MATCH decisions connect. */
  ghost predicate Consistent(edges: seq<DecisionEdge>) {
    forall e | e in edges && e.kind.NotMatch? :: !Connected(MatchLinks(edges), e.left, e.right)
  }

  // ---- union-find over a map of parents ----

  type Parents = map<Id, Id>

  /** Parents never lie above their node. */
  ghost predicate Descending(parent: Parents) {
    forall x {:trigger parent[x]} | x in parent :: parent[x] in parent && parent[x] <= x
  }

  /** The end of the chain of parents; an unknown id represents itself. */
  ghost function Root(parent: Parents, x: Id): (r: Id)
    requires Descending(parent)
    ensures r <= x && (x in parent ==> r in parent) && (r in parent ==> parent[r] == r)
  {
    if x !in parent || parent[x] == x then x else Root(parent, parent[x])
  }

  lemma RootOfRoot(parent: Parents, x: Id)
    requires Descending(parent)
    ensures Root(parent, Root(parent, x)) == Root(parent, x)
  {
  }

  lemma {:induction false} CompressedRoot(parent: Parents, node: Id, y: Id)
    requires Descending(parent) && node in parent
    ensures Descending(parent[node := Root(parent, node)])
    ensures Root(parent[node := Root(parent, node)], y) == Root(parent, y)
    decreases y
  {
    var next := parent[node := Root(parent, node)];
    if y in parent && parent[y] != y {
      if y == node {
        RootOfRoot(next, Root(parent, node));
      } else {
        CompressedRoot(parent, node, parent[y]);
      }
    }
  }

  /** Who represents each id. */
  ghost function Reps(parent: Parents): Id -> Id
    requires Descending(parent)
  {
    (x: Id) => Root(parent, x)
  }

  type Representing = Id -> Id

  ghost predicate SameBy(f: Representing, g: Representing) {
    forall y: Id {:trigger f(y)} {:trigger g(y)} :: f(y) == g(y)
  }

  /** Both forests give every id the same representative. */
  ghost predicate SameRoots(p: Parents, q: Parents)
    requires Descending(p) && Descending(q)
  {
    SameBy(Reps(p), Reps(q))
  }

  lemma CompressedShape(parent: Parents, node: Id, root: Id)
    requires Descending(parent) && node in parent && root == Reps(parent)(node)
    ensures Descending(parent[node := root]) && parent[node := root].Keys == parent.Keys
  {
    CompressedRoot(parent, node, node);
  }

  lemma CompressedSame(parent: Parents, start: Parents, node: Id, root: Id)
    requires Descending(parent) && node in parent && Descending(start) && SameRoots(parent, start)
    requires root == Reps(parent)(node) && Descending(parent[node := root])
    ensures SameRoots(parent[node := root], start)
  {
    forall y: Id ensures Reps(parent[node := root])(y) == Reps(start)(y) {
      CompressedRoot(parent, node, y);
      assert Reps(parent)(y) == Reps(start)(y);
    }
  }

  lemma UpSame(parent: Parents, node: Id, up: Id)
    requires Descending(parent) && node in parent && up == parent[node]
    ensures Reps(parent)(up) == Reps(parent)(node)
  {
  }

  /** Returns the representative and points the whole path at it; no class changes. */
  method Find(parent: Parents, node: Id) returns (next: Parents, root: Id)
    requires Descending(parent)
    ensures Descending(next) && next.Keys == parent.Keys && SameRoots(next, parent)
    ensures root == Reps(parent)(node)
    decreases node
  {
    next := parent;
    root := if node in parent then parent[node] else node;
    if root == node { return; }
    var up := root;
    next, root := Find(next, up);
    UpSame(parent, node, up);
    assert Reps(next)(node) == Reps(parent)(node);
    CompressedShape(next, node, root);
    CompressedSame(next, parent, node, root);
    next := next[node := root];
  }

  /** The representative after the classes of `a` and `b` are joined under the lesser one. */
  function Lead(root: Id, a: Id, b: Id): Id {
    if root == a || root == b then (if a <= b then a else b) else root
  }

  lemma {:induction false} LinkedRoot(parent: Parents, first: Id, second: Id, y: Id)
    requires Descending(parent) && first in parent && second in parent
    requires parent[first] == first && parent[second] == second && first < second
    ensures Descending(parent[second := first])
    ensures Root(parent[second := first], y) == Lead(Root(parent, y), first, second)
    decreases y
  {
    var next := parent[second := first];
    if y == second {
      assert next[y] == first && next[first] == first;
    } else if y in parent && parent[y] != y {
      LinkedRoot(parent, first, second, parent[y]);
    }
  }

  ghost predicate UnitesBy(f: Representing, g: Representing, l: Id, r: Id) {
    forall y: Id {:trigger g(y)} :: g(y) == Lead(f(y), l, r)
  }

  /** `next` is `parent` with the classes of `l` and `r` joined. */
  ghost predicate Unites(parent: Parents, next: Parents, l: Id, r: Id)
    requires Descending(parent) && Descending(next)
  {
    UnitesBy(Reps(parent), Reps(next), l, r)
  }

  lemma LinkedShape(parent: Parents, first: Id, second: Id)
    requires Descending(parent) && first in parent && second in parent
    requires parent[first] == first && parent[second] == second && first < second
    ensures Descending(parent[second := first]) && parent[second := first].Keys == parent.Keys
  {
  }

  lemma LinkedUnites(parent: Parents, start: Parents, first: Id, second: Id)
    requires Descending(parent) && Descending(start) && SameRoots(parent, start)
    requires first in parent && second in parent && parent[first] == first && parent[second] == second && first < second
    requires Descending(parent[second := first])
    ensures Unites(start, parent[second := first], first, second)
      && Unites(start, parent[second := first], second, first)
  {
    forall y: Id ensures Reps(parent[second := first])(y) == Lead(Reps(start)(y), first, second) {
      LinkedRoot(parent, first, second, y);
      assert Reps(parent)(y) == Reps(start)(y);
    }
  }

  /** Hangs the greater of two representatives below the lesser. */
  method Link(parent: Parents, l: Id, r: Id, ghost start: Parents) returns (next: Parents)
    requires Descending(parent) && Descending(start) && SameRoots(parent, start)
    requires l in parent && r in parent && parent[l] == l && parent[r] == r && l != r
    ensures Descending(next) && next.Keys == parent.Keys
    ensures Unites(start, next, l, r)
  {
    var first, second := if l < r then l else r, if l < r then r else l;
    LinkedShape(parent, first, second);
    LinkedUnites(parent, start, first, second);
    next := parent[second := first];
  }

  /** Joins two classes under the lesser representative. */
  method Union(parent: Parents, left: Id, right: Id) returns (next: Parents)
    requires Descending(parent) && left in parent && right in parent
    ensures Descending(next) && next.Keys == parent.Keys
    ensures Unites(parent, next, Reps(parent)(left), Reps(parent)(right))
  {
    var found, l := Find(parent, left);
    var again, r := FindAgain(found, right, parent);
    if l != r {
      RootsStand(again, parent, left, right);
      next := Link(again, l, r, parent);
    } else {
      UnitesSame(parent, again, l);
      next := again;
    }
  }

  method FindAgain(parent: Parents, node: Id, ghost start: Parents) returns (next: Parents, root: Id)
    requires Descending(parent) && Descending(start) && SameRoots(parent, start)
    ensures Descending(next) && next.Keys == parent.Keys && SameRoots(next, start)
    ensures root == Reps(start)(node)
  {
    next, root := Find(parent, node);
  }

  lemma RootsStand(next: Parents, parent: Parents, left: Id, right: Id)
    requires Descending(next) && Descending(parent) && SameRoots(next, parent) && next.Keys == parent.Keys
    requires left in parent && right in parent
    ensures var l, r := Reps(parent)(left), Reps(parent)(right); l in next && r in next && next[l] == l && next[r] == r
  {
    assert Reps(next)(left) == Reps(parent)(left) && Reps(next)(right) == Reps(parent)(right);
  }

  lemma UnitesSame(parent: Parents, next: Parents, l: Id)
    requires Descending(next) && Descending(parent) && SameRoots(next, parent)
    ensures Unites(parent, next, l, l)
  {
  }

  // ---- classes of MATCH connectivity ----

  /** Representatives agree exactly on connected nodes. */
  ghost predicate Classifies(f: Representing, nodes: set<Id>, links: set<(Id, Id)>) {
    && (forall p | p in links :: p.0 in nodes && p.1 in nodes)
    && (forall x: Id, y: Id {:trigger f(x), f(y)} | x in nodes && y in nodes ::
      f(x) == f(y) <==> Connected(links, x, y))
  }

  lemma UnitedConnects(f: Representing, g: Representing, nodes: set<Id>, links: set<(Id, Id)>, l: Id, r: Id, x: Id,
      y: Id)
    requires Classifies(f, nodes, links) && l in nodes && r in nodes && x in nodes && y in nodes
    requires UnitesBy(f, g, f(l), f(r)) && g(x) == g(y)
    ensures Connected(links + {(l, r)}, x, y)
  {
    var more := links + {(l, r)};
    assert f(x) == f(y) || (f(x) == f(l) && f(y) == f(r)) || (f(x) == f(r) && f(y) == f(l));
    ConnectedEdge(more, l, r);
    ConnectedSym(more, l, r);
    if f(x) == f(y) {
      ConnectedMono(links, more, x, y);
    } else if f(x) == f(l) {
      Bridge(links, more, x, l, r, y);
    } else {
      Bridge(links, more, x, r, l, y);
    }
  }

  lemma Bridge(links: set<(Id, Id)>, more: set<(Id, Id)>, x: Id, l: Id, r: Id, y: Id)
    requires links <= more && Connected(links, x, l) && Connected(more, l, r) && Connected(links, r, y)
    ensures Connected(more, x, y)
  {
    ConnectedMono(links, more, x, l);
    ConnectedMono(links, more, r, y);
    ConnectedTrans(more, x, l, r);
    ConnectedTrans(more, x, r, y);
  }

  lemma ConnectedUnites(f: Representing, g: Representing, nodes: set<Id>, links: set<(Id, Id)>, l: Id, r: Id, x: Id,
      y: Id)
    requires Classifies(f, nodes, links) && l in nodes && r in nodes
    requires UnitesBy(f, g, f(l), f(r)) && Connected(links + {(l, r)}, x, y)
    ensures g(x) == g(y)
  {
    var more := links + {(l, r)};
    forall a, b | (a, b) in more ensures g(a) == g(b) {
      if (a, b) in links {
        assert (a, b).0 in nodes && (a, b).1 in nodes;
        ConnectedEdge(links, a, b);
        assert f(a) == f(b);
      }
    }
    ConnectedInvariant(more, x, y, g);
  }

  lemma UnitedClassifies(f: Representing, g: Representing, nodes: set<Id>, links: set<(Id, Id)>, l: Id, r: Id)
    requires Classifies(f, nodes, links) && l in nodes && r in nodes && UnitesBy(f, g, f(l), f(r))
    ensures Classifies(g, nodes, links + {(l, r)})
  {
    forall x: Id, y: Id | x in nodes && y in nodes ensures g(x) == g(y) <==> Connected(links + {(l, r)}, x, y) {
      if g(x) == g(y) { UnitedConnects(f, g, nodes, links, l, r, x, y); }
      if Connected(links + {(l, r)}, x, y) { ConnectedUnites(f, g, nodes, links, l, r, x, y); }
    }
  }

  lemma SameClassifies(f: Representing, g: Representing, nodes: set<Id>, links: set<(Id, Id)>)
    requires Classifies(f, nodes, links) && SameBy(g, f)
    ensures Classifies(g, nodes, links)
  {
  }

  function Alone(nodes: set<Id>): Parents {
    map x | x in nodes :: x
  }

  lemma AloneClassifies(nodes: set<Id>)
    ensures Descending(Alone(nodes)) && Classifies(Reps(Alone(nodes)), nodes, {})
  {
    var f := Reps(Alone(nodes));
    forall x: Id, y: Id | x in nodes && y in nodes ensures f(x) == f(y) <==> Connected<Id>({}, x, y) {
      ConnectedRefl<Id>({}, x);
      if Connected<Id>({}, x, y) { ConnectedInvariant<Id, Id>({}, x, y, (z: Id) => z); }
    }
  }

  function Nodes(edges: seq<DecisionEdge>): set<Id> {
    (set e | e in edges :: e.left) + (set e | e in edges :: e.right)
  }

  lemma MatchLinksNext(seen: seq<DecisionEdge>, e: DecisionEdge)
    ensures MatchLinks(seen + [e]) == MatchLinks(seen) + (if e.kind.Match? then {(e.left, e.right)} else {})
  {
    assert forall f | f in seen + [e] :: f in seen || f == e;
  }

  /** The forest over `nodes` represents the classes that `links` connect. */
  ghost function Represents(): (Parents, set<Id>, set<(Id, Id)>) -> bool {
    (parent: Parents, nodes: set<Id>, links: set<(Id, Id)>) =>
      Descending(parent) && parent.Keys == nodes && Classifies(Reps(parent), nodes, links)
  }

  method JoinMatch(parent: Parents, left: Id, right: Id, ghost nodes: set<Id>, ghost links: set<(Id, Id)>)
    returns (next: Parents)
    requires Represents()(parent, nodes, links) && left in nodes && right in nodes
    ensures Represents()(next, nodes, links + {(left, right)})
  {
    next := Union(parent, left, right);
    UnitedClassifies(Reps(parent), Reps(next), nodes, links, left, right);
  }

  method StartAlone(nodes: set<Id>) returns (parent: Parents)
    ensures Represents()(parent, nodes, {})
  {
    parent := Alone(nodes);
    AloneClassifies(nodes);
  }

  /** The classes of MATCH connectivity. */
  method BuildClasses(edges: seq<DecisionEdge>) returns (parent: Parents)
    ensures Represents()(parent, Nodes(edges), MatchLinks(edges))
  {
    parent := StartAlone(Nodes(edges));
    ghost var links: set<(Id, Id)> := {};
    for i := 0 to |edges|
      invariant Represents()(parent, Nodes(edges), links) && links == MatchLinks(edges[..i])
    {
      assert edges[..i + 1] == edges[..i] + [edges[i]];
      MatchLinksNext(edges[..i], edges[i]);
      if edges[i].kind.Match? {
        EndsKnown(edges, i);
        parent := JoinMatch(parent, edges[i].left, edges[i].right, Nodes(edges), links);
        links := links + {(edges[i].left, edges[i].right)};
      }
    }
    assert edges[..|edges|] == edges;
  }

  lemma EndsKnown(edges: seq<DecisionEdge>, i: nat)
    requires i < |edges|
    ensures edges[i].left in Nodes(edges) && edges[i].right in Nodes(edges)
  {
    assert edges[i] in edges;
  }

  // ---- the explanation of a contradiction ----

  predicate Joins(e: DecisionEdge, a: Id, b: Id) {
    (e.left == a && e.right == b) || (e.left == b && e.right == a)
  }

  /** `path` names a MATCH decision for every step of the walk `p`. */
  ghost predicate Traces(edges: seq<DecisionEdge>, path: seq<DecisionEdge>, p: seq<Id>) {
    && |p| == |path| + 1
    && forall i: nat {:trigger path[i]} | i < |path| ::
      path[i] in edges && path[i].kind.Match? && Joins(path[i], p[i], p[i + 1])
  }

  /** `path` is a shortest chain of MATCH decisions from `a` to `b`. */
  ghost predicate ShortestPath(edges: seq<DecisionEdge>, path: seq<DecisionEdge>, a: Id, b: Id) {
    exists p: seq<Id> ::
      && Traces(edges, path, p) && p[0] == a && p[|p| - 1] == b
      && forall q: seq<Id> | WalkBetween(MatchLinks(edges), q, a, b) :: |p| <= |q|
  }

  type Graph = map<Id, seq<(Id, DecisionEdge)>>

  function Neighbours(graph: Graph, x: Id): seq<(Id, DecisionEdge)> {
    if x in graph then graph[x] else []
  }

  /** The MATCH decisions of `edges` seen from both ends. */
  ghost predicate GraphOf(graph: Graph, edges: seq<DecisionEdge>) {
    && (forall x, n | n in Neighbours(graph, x) :: n.1 in edges && n.1.kind.Match? && Joins(n.1, x, n.0))
    && (forall e | e in edges && e.kind.Match? ::
          (e.right, e) in Neighbours(graph, e.left) && (e.left, e) in Neighbours(graph, e.right))
  }

  function NeighbourRank(n: (Id, DecisionEdge)): seq<int> { [n.0, n.1.decision] }

  method AddNeighbour(graph: Graph, x: Id, n: (Id, DecisionEdge)) returns (next: Graph)
    ensures forall y :: Neighbours(next, y) == if y == x then Neighbours(graph, x) + [n] else Neighbours(graph, y)
  {
    next := graph[x := (if x in graph then graph[x] else []) + [n]];
  }

  lemma GraphNext(graph: Graph, next: Graph, seen: seq<DecisionEdge>, e: DecisionEdge)
    requires GraphOf(graph, seen) && e.kind.Match?
    requires forall x, n :: n in Neighbours(next, x) <==>
      n in Neighbours(graph, x) || (x == e.left && n == (e.right, e)) || (x == e.right && n == (e.left, e))
    ensures GraphOf(next, seen + [e])
  {
    assert forall f :: f in seen + [e] <==> f in seen || f == e;
  }

  lemma GraphSkips(graph: Graph, seen: seq<DecisionEdge>, e: DecisionEdge)
    requires GraphOf(graph, seen) && !e.kind.Match?
    ensures GraphOf(graph, seen + [e])
  {
    assert forall f :: f in seen + [e] <==> f in seen || f == e;
  }

  method AddDecision(graph: Graph, e: DecisionEdge, ghost seen: seq<DecisionEdge>) returns (next: Graph)
    requires GraphOf(graph, seen)
    ensures GraphOf(next, seen + [e])
  {
    next := graph;
    if e.kind.Match? {
      next := AddNeighbour(next, e.left, (e.right, e));
      next := AddNeighbour(next, e.right, (e.left, e));
      GraphNext(graph, next, seen, e);
    } else {
      GraphSkips(graph, seen, e);
    }
  }

  method CollectNeighbours(edges: seq<DecisionEdge>) returns (graph: Graph)
    ensures GraphOf(graph, edges)
  {
    graph := map[];
    for i := 0 to |edges|
      invariant GraphOf(graph, edges[..i])
    {
      graph := AddDecision(graph, edges[i], edges[..i]);
      assert edges[..i + 1] == edges[..i] + [edges[i]];
    }
    assert edges[..|edges|] == edges;
  }

  method BuildGraph(edges: seq<DecisionEdge>) returns (graph: Graph)
    ensures GraphOf(graph, edges)
  {
    graph := CollectNeighbours(edges);
    var todo := graph.Keys;
    while todo != {}
      invariant todo <= graph.Keys
      invariant GraphOf(graph, edges)
    {
      var x :| x in todo;
      SortedGraph(graph, edges, x);
      graph := graph[x := SortBy(graph[x], NeighbourRank)];
      todo := todo - {x};
    }
  }

  lemma SortedGraph(graph: Graph, edges: seq<DecisionEdge>, x: Id)
    requires GraphOf(graph, edges) && x in graph
    ensures GraphOf(graph[x := SortBy(graph[x], NeighbourRank)], edges)
  {
    var next := graph[x := SortBy(graph[x], NeighbourRank)];
    forall y, n ensures n in Neighbours(next, y) <==> n in Neighbours(graph, y) {
      SortElements(graph[x], NeighbourRank);
    }
    SameGraph(graph, next, edges);
  }

  lemma SameGraph(graph: Graph, next: Graph, edges: seq<DecisionEdge>)
    requires GraphOf(graph, edges) && forall y, n :: n in Neighbours(next, y) <==> n in Neighbours(graph, y)
    ensures GraphOf(next, edges)
  {
  }

  // ---- breadth-first search ----

  type Previous = map<Id, (Id, DecisionEdge)>

  ghost predicate Linkable(edges: seq<DecisionEdge>, v: Id, w: Id) {
    exists e | e in edges && e.kind.Match? :: Joins(e, v, w)
  }

  /** Every reached record other than the start was reached from one a step nearer. */
  ghost predicate Tree(edges: seq<DecisionEdge>, start: Id, previous: Previous, visited: set<Id>, dist: map<Id, nat>) {
    && dist.Keys == visited && start in visited && dist[start] == 0
    && previous.Keys == visited - {start}
    && (forall v {:trigger previous[v]} | v in previous ::
          && previous[v].0 in visited && dist[v] == dist[previous[v].0] + 1
          && previous[v].1 in edges && previous[v].1.kind.Match? && Joins(previous[v].1, previous[v].0, v))
  }

  /** Waiting records are reached, in order of distance. */
  ghost predicate Queued(queue: seq<Id>, visited: set<Id>, dist: map<Id, nat>) {
    && dist.Keys == visited
    && (queue != [] ==> queue[0] in visited && forall v | v in dist :: dist[v] <= dist[queue[0]] + 1)
    && (forall i: nat {:trigger queue[i]} | i < |queue| :: queue[i] in visited)
    && (forall i: nat, j: nat {:trigger queue[i], queue[j]} | i < j < |queue| :: dist[queue[i]] <= dist[queue[j]])
  }

  /** Everything a step away from a record already served has been reached in time. */
  ghost predicate Served(edges: seq<DecisionEdge>, waiting: set<Id>, visited: set<Id>, dist: map<Id, nat>)
    requires dist.Keys == visited
  {
    forall v, w | v in visited && v !in waiting && Linkable(edges, v, w) :: w in visited && dist[w] <= dist[v] + 1
  }

  lemma WalkLinkable(edges: seq<DecisionEdge>, q: seq<Id>, i: nat)
    requires IsWalk(MatchLinks(edges), q) && i + 1 < |q|
    ensures Linkable(edges, q[i], q[i + 1])
  {
    assert Linked(MatchLinks(edges), q[i], q[i + 1]);
    if (q[i], q[i + 1]) in MatchLinks(edges) {
      var e :| e in edges && e.kind.Match? && (e.left, e.right) == (q[i], q[i + 1]);
      assert Joins(e, q[i], q[i + 1]);
    } else {
      var e :| e in edges && e.kind.Match? && (e.left, e.right) == (q[i + 1], q[i]);
      assert Joins(e, q[i], q[i + 1]);
    }
  }

  /** Along any walk from the start, either the next record has been reached in time or the walk has
      passed a waiting record that was. */
  lemma {:induction false} WalkReached(edges: seq<DecisionEdge>, start: Id, waiting: set<Id>, visited: set<Id>,
      dist: map<Id, nat>, q: seq<Id>, i: nat)
    requires dist.Keys == visited && start in visited && dist[start] == 0 && Served(edges, waiting, visited, dist)
    requires IsWalk(MatchLinks(edges), q) && q[0] == start && i < |q|
    ensures (q[i] in visited && dist[q[i]] <= i) || exists j: nat ::
      j <= i && q[j] in waiting && q[j] in visited && dist[q[j]] <= j
  {
    if i > 0 {
      WalkReached(edges, start, waiting, visited, dist, q, i - 1);
      WalkLinkable(edges, q, i - 1);
    }
  }

  /** The record at the head of the queue is at its true distance. */
  lemma HeadIsNear(edges: seq<DecisionEdge>, start: Id, queue: seq<Id>, visited: set<Id>, dist: map<Id, nat>,
      q: seq<Id>)
    requires Queued(queue, visited, dist) && queue != [] && start in visited && dist[start] == 0
    requires Served(edges, Elements(queue), visited, dist)
    requires WalkBetween(MatchLinks(edges), q, start, queue[0])
    ensures dist[queue[0]] + 1 <= |q|
  {
    WalkReached(edges, start, Elements(queue), visited, dist, q, |q| - 1);
    if j: nat :| j <= |q| - 1 && q[j] in Elements(queue) && q[j] in visited && dist[q[j]] <= j {
      var k: nat :| k < |queue| && queue[k] == q[j];
      assert dist[queue[0]] <= dist[queue[k]];
    }
  }

  /** With nothing waiting, an unreached record is not connected to the start. */
  lemma UnreachedIsApart(edges: seq<DecisionEdge>, start: Id, visited: set<Id>, dist: map<Id, nat>, end: Id)
    requires dist.Keys == visited && start in visited && dist[start] == 0 && Served(edges, {}, visited, dist)
      && end !in visited
    ensures !Connected(MatchLinks(edges), start, end)
  {
    if Connected(MatchLinks(edges), start, end) {
      var q :| WalkBetween(MatchLinks(edges), q, start, end);
      WalkReached(edges, start, {}, visited, dist, q, |q| - 1);
      assert false;
    }
  }

  /** The search has stopped: at the end with the least distance, or everywhere else. */
  ghost predicate Found(edges: seq<DecisionEdge>, start: Id, end: Id, previous: Previous, visited: set<Id>,
      dist: map<Id, nat>) {
    && Tree(edges, start, previous, visited, dist)
    && (end in visited ==> forall q: seq<Id> | WalkBetween(MatchLinks(edges), q, start, end) :: dist[end] + 1 <= |q|)
    && (end !in visited ==> !Connected(MatchLinks(edges), start, end))
  }

  lemma TreeGrows(edges: seq<DecisionEdge>, start: Id, previous: Previous, visited: set<Id>, dist: map<Id, nat>, u: Id,
      w: Id, e: DecisionEdge)
    requires Tree(edges, start, previous, visited, dist) && u in visited && w !in visited
    requires e in edges && e.kind.Match? && Joins(e, u, w)
    ensures Tree(edges, start, previous[w := (u, e)], visited + {w}, dist[w := dist[u] + 1])
  {
    var longer, further := previous[w := (u, e)], dist[w := dist[u] + 1];
    forall v {:trigger longer[v]} | v in longer
      ensures longer[v].0 in visited + {w} && further[v] == further[longer[v].0] + 1
      ensures longer[v].1 in edges && longer[v].1.kind.Match? && Joins(longer[v].1, longer[v].0, v)
    {
      assert v != w ==> longer[v] == previous[v];
    }
  }

  /** The queue while the neighbours of a record at distance `d` are being added. */
  ghost predicate Filling(queue: seq<Id>, visited: set<Id>, dist: map<Id, nat>, d: nat) {
    && dist.Keys == visited && (forall v | v in dist :: dist[v] <= d + 1)
    && (forall i: nat {:trigger queue[i]} | i < |queue| :: queue[i] in visited && d <= dist[queue[i]])
    && (forall i: nat, j: nat {:trigger queue[i], queue[j]} | i < j < |queue| :: dist[queue[i]] <= dist[queue[j]])
  }

  lemma FillingGrows(queue: seq<Id>, visited: set<Id>, dist: map<Id, nat>, d: nat, w: Id)
    requires Filling(queue, visited, dist, d) && w !in visited
    ensures Filling(queue + [w], visited + {w}, dist[w := d + 1], d)
  {
    var longer, further := queue + [w], dist[w := d + 1];
    forall i: nat | i < |queue| ensures longer[i] == queue[i] && further[longer[i]] == dist[queue[i]] {}
  }

  lemma PoppedFills(queue: seq<Id>, visited: set<Id>, dist: map<Id, nat>)
    requires Queued(queue, visited, dist) && queue != []
    ensures Filling(queue[1..], visited, dist, dist[queue[0]])
  {
    var rest := queue[1..];
    forall i: nat | i < |rest|
      ensures rest[i] == queue[i + 1] && rest[i] in visited && dist[queue[0]] <= dist[rest[i]] {
      assert queue[i + 1] in visited && dist[queue[0]] <= dist[queue[i + 1]];
    }
    forall i: nat, j: nat | i < j < |rest| ensures dist[rest[i]] <= dist[rest[j]] {
      assert dist[queue[i + 1]] <= dist[queue[j + 1]];
    }
  }

  lemma FilledQueues(queue: seq<Id>, visited: set<Id>, dist: map<Id, nat>, d: nat)
    requires Filling(queue, visited, dist, d)
    ensures Queued(queue, visited, dist)
  {
  }

  /** Growing the reached set keeps what has been served. */
  ghost predicate Further(dist: map<Id, nat>, later: map<Id, nat>) {
    dist.Keys <= later.Keys && forall v | v in dist :: later[v] == dist[v]
  }

  lemma ServedOne(edges: seq<DecisionEdge>, graph: Graph, queue: seq<Id>, visited: set<Id>, dist: map<Id, nat>,
                  rest: seq<Id>, reached: set<Id>, later: map<Id, nat>)
    requires GraphOf(graph, edges) && queue != [] && dist.Keys == visited && later.Keys == reached
      && Further(dist, later)
    requires Served(edges, Elements(queue), visited, dist) && queue[0] in visited
    requires (forall x | x in queue[1..] :: x in rest) && (forall v | v in reached && v !in visited :: v in rest)
    requires forall n | n in Neighbours(graph, queue[0]) :: n.0 in reached && later[n.0] <= dist[queue[0]] + 1
    ensures Served(edges, Elements(rest), reached, later)
  {
    forall v, w | v in reached && v !in Elements(rest) && Linkable(edges, v, w)
      ensures w in reached && later[w] <= later[v] + 1 {
      assert v in visited;
      if v == queue[0] {
        var e :| e in edges && e.kind.Match? && Joins(e, v, w);
        assert (w, e) in Neighbours(graph, v);
      } else {
        assert v !in queue by { assert queue == [queue[0]] + queue[1..]; }
        assert w in visited && dist[w] <= dist[v] + 1;
      }
    }
  }

  /** What serving `record` has reached so far, starting from `visited` with `rest` waiting. */
  ghost predicate Expanding(edges: seq<DecisionEdge>, start: Id, record: Id, rest: seq<Id>, visited: set<Id>,
      dist: map<Id, nat>, nodes: set<Id>, queue: seq<Id>, links: Previous, reached: set<Id>, later: map<Id, nat>) {
    && Tree(edges, start, links, reached, later)
    && record in visited && visited <= reached <= nodes && record in dist
    && Filling(queue, reached, later, dist[record])
    && Further(dist, later) && record in later && later[record] == dist[record]
    && rest <= queue && (forall v | v in reached && v !in visited :: v in queue)
    && |reached| - |visited| == |queue| - |rest|
  }

  /** Reaches one neighbour of the record being served, unless it was reached before. */
  method Reach(edges: seq<DecisionEdge>, start: Id, record: Id, ghost rest: seq<Id>, ghost visited: set<Id>,
      ghost dist: map<Id, nat>, ghost nodes: set<Id>, queue: seq<Id>, links: Previous, reached: set<Id>,
      ghost later: map<Id, nat>, w: Id, e: DecisionEdge)
    returns (queue': seq<Id>, links': Previous, reached': set<Id>, ghost later': map<Id, nat>)
    requires Expanding(edges, start, record, rest, visited, dist, nodes, queue, links, reached, later)
    requires e in edges && e.kind.Match? && Joins(e, record, w) && w in nodes
    ensures Expanding(edges, start, record, rest, visited, dist, nodes, queue', links', reached', later')
    ensures w in reached' && later'[w] <= dist[record] + 1 && Further(later, later')
  {
    queue', links', reached', later' := queue, links, reached, later;
    if w !in reached {
      TreeGrows(edges, start, links, reached, later, record, w, e);
      FillingGrows(queue, reached, later, dist[record], w);
      reached' := reached + {w};
      links' := links[w := (record, e)];
      queue' := queue + [w];
      later' := later[w := dist[record] + 1];
    }
  }

  /** Reaches the neighbours of the record just taken from the queue. */
  method Expand(edges: seq<DecisionEdge>, neighbours: seq<(Id, DecisionEdge)>, record: Id, start: Id, rest: seq<Id>,
                previous: Previous, visited: set<Id>, ghost dist: map<Id, nat>, ghost nodes: set<Id>)
    returns (queue: seq<Id>, links: Previous, reached: set<Id>, ghost later: map<Id, nat>)
    requires Tree(edges, start, previous, visited, dist) && record in visited
      && Filling(rest, visited, dist, dist[record])
    requires forall n | n in neighbours :: n.1 in edges && n.1.kind.Match? && Joins(n.1, record, n.0) && n.0 in nodes
    requires visited <= nodes
    ensures Expanding(edges, start, record, rest, visited, dist, nodes, queue, links, reached, later)
    ensures forall n | n in neighbours :: n.0 in reached && later[n.0] <= dist[record] + 1
  {
    queue, links, reached, later := rest, previous, visited, dist;
    for i := 0 to |neighbours|
      invariant Expanding(edges, start, record, rest, visited, dist, nodes, queue, links, reached, later)
      invariant forall k: nat {:trigger neighbours[k]} | k < i ::
        neighbours[k].0 in later && later[neighbours[k].0] <= dist[record] + 1
    {
      assert neighbours[i] in neighbours;
      queue, links, reached, later :=
        Reach(edges, start, record, rest, visited, dist, nodes, queue, links, reached, later, neighbours[i].0,
          neighbours[i].1);
    }
  }

  /** State of the search between two records. */
  ghost predicate Searching(edges: seq<DecisionEdge>, start: Id, end: Id, queue: seq<Id>, previous: Previous,
      visited: set<Id>, dist: map<Id, nat>) {
    && Tree(edges, start, previous, visited, dist)
    && Queued(queue, visited, dist)
    && Served(edges, Elements(queue), visited, dist)
    && (end in visited ==> end in queue)
  }

  lemma SearchStarts(edges: seq<DecisionEdge>, start: Id, end: Id)
    ensures Searching(edges, start, end, [start], map[], {start}, map[start := 0])
  {
  }

  lemma SearchStops(edges: seq<DecisionEdge>, start: Id, end: Id, queue: seq<Id>, previous: Previous, visited: set<Id>,
      dist: map<Id, nat>)
    requires Searching(edges, start, end, queue, previous, visited, dist) && (queue == [] || queue[0] == end)
    ensures Found(edges, start, end, previous, visited, dist)
  {
    if queue == [] {
      assert Elements(queue) == {};
      UnreachedIsApart(edges, start, visited, dist, end);
    } else {
      forall q: seq<Id> | WalkBetween(MatchLinks(edges), q, start, end) ensures dist[end] + 1 <= |q| {
        HeadIsNear(edges, start, queue, visited, dist, q);
      }
    }
  }

  /** Takes one record from the queue and reaches its neighbours. */
  method Serve(edges: seq<DecisionEdge>, graph: Graph, start: Id, end: Id, queue: seq<Id>, previous: Previous,
      visited: set<Id>, ghost dist: map<Id, nat>, ghost nodes: set<Id>)
    returns (rest: seq<Id>, links: Previous, reached: set<Id>, ghost later: map<Id, nat>)
    requires GraphOf(graph, edges) && Searching(edges, start, end, queue, previous, visited, dist)
    requires queue != [] && queue[0] != end && visited <= nodes && Nodes(edges) <= nodes
    ensures Searching(edges, start, end, rest, links, reached, later) && visited <= reached <= nodes
    ensures |reached| - |visited| == |rest| - (|queue| - 1)
  {
    var record := queue[0];
    PoppedFills(queue, visited, dist);
    NeighboursKnown(graph, edges, record);
    rest, links, reached, later :=
      Expand(edges, Neighbours(graph, record), record, start, queue[1..], previous, visited, dist, nodes);
    FilledQueues(rest, reached, later, dist[record]);
    ServedOne(edges, graph, queue, visited, dist, rest, reached, later);
    assert queue == [record] + queue[1..];
  }

  lemma NeighboursKnown(graph: Graph, edges: seq<DecisionEdge>, record: Id)
    requires GraphOf(graph, edges)
    ensures forall n | n in Neighbours(graph, record) :: n.0 in Nodes(edges)
  {
  }

  /** Breadth-first search along MATCH decisions. */
  method Search(edges: seq<DecisionEdge>, start: Id, end: Id)
    returns (previous: Previous, ghost visited: set<Id>, ghost dist: map<Id, nat>)
    ensures Found(edges, start, end, previous, visited, dist)
  {
    var graph := BuildGraph(edges);
    ghost var nodes := Nodes(edges) + {start};
    previous := map[];
    var queue := [start];
    var reached: set<Id> := {start};
    dist := map[start := 0];
    SearchStarts(edges, start, end);
    while queue != []
      invariant Searching(edges, start, end, queue, previous, reached, dist) && reached <= nodes
      decreases |nodes| - |reached|, |queue|
    {
      if queue[0] == end { break; }
      ghost var before := reached;
      queue, previous, reached, dist := Serve(edges, graph, start, end, queue, previous, reached, dist, nodes);
      Smaller(before, reached, nodes);
    }
    SearchStops(edges, start, end, queue, previous, reached, dist);
    visited := reached;
  }

  lemma Smaller(a: set<Id>, b: set<Id>, c: set<Id>)
    requires a <= b <= c
    ensures |a| <= |b| <= |c|
  {
    assert b == a + (b - a) && c == b + (c - b);
  }

  /** Reads the path off the search tree, from the end back to the start. */
  method ReadPath(edges: seq<DecisionEdge>, start: Id, end: Id, previous: Previous, ghost visited: set<Id>,
      ghost dist: map<Id, nat>)
    returns (path: seq<DecisionEdge>, ghost p: seq<Id>)
    requires Tree(edges, start, previous, visited, dist)
    ensures end in visited ==>
      Traces(edges, path, p) && p[0] == start && p[|p| - 1] == end && |path| == dist[end]
  {
    path, p := [], [end];
    var record := end;
    while record != start && record in previous
      invariant record in visited <==> end in visited
      invariant Traces(edges, path, p) && p[0] == record && p[|p| - 1] == end
      invariant end in visited ==> |path| + dist[record] == dist[end]
      decreases if record in dist then dist[record] else 0
    {
      var (parent, edge) := previous[record];
      TraceGrows(edges, path, p, parent, edge);
      path, p := [edge] + path, [parent] + p;
      record := parent;
    }
  }

  lemma TraceGrows(edges: seq<DecisionEdge>, path: seq<DecisionEdge>, p: seq<Id>, parent: Id, e: DecisionEdge)
    requires Traces(edges, path, p) && e in edges && e.kind.Match? && Joins(e, parent, p[0])
    ensures Traces(edges, [e] + path, [parent] + p)
  {
    var longer, nodes := [e] + path, [parent] + p;
    forall i: nat | i < |longer|
      ensures longer[i] in edges && longer[i].kind.Match? && Joins(longer[i], nodes[i], nodes[i + 1]) {
      if i > 0 { assert longer[i] == path[i - 1] && nodes[i] == p[i - 1] && nodes[i + 1] == p[i]; }
    }
  }

  /** Explains how MATCH decisions connect the ends of a NOT_MATCH: by a shortest chain. */
  method ContradictionPath(edges: seq<DecisionEdge>, start: Id, end: Id) returns (path: seq<DecisionEdge>)
    ensures Connected(MatchLinks(edges), start, end) ==> ShortestPath(edges, path, start, end)
  {
    var previous, visited, dist := Search(edges, start, end);
    ghost var p;
    path, p := ReadPath(edges, start, end, previous, visited, dist);
    if Connected(MatchLinks(edges), start, end) {
      assert Traces(edges, path, p) && p[0] == start && p[|p| - 1] == end;
    }
  }

  // ---- the check ----

  function Canonicals(edges: seq<DecisionEdge>): seq<DecisionEdge> {
    Map(edges, CanonicalEdge)
  }

  /** The decisions that would be current with `proposed`, which replaces the one with its id. */
  function CurrentWith(existing: seq<DecisionEdge>, proposed: DecisionEdge): seq<DecisionEdge> {
    Canonicals(Filter(existing, (e: DecisionEdge) => e.decision != proposed.decision)) + [CanonicalEdge(proposed)]
  }

  /** The work charged for `n` decisions, in saturating 64-bit arithmetic. */
  function Checked(n: nat): nat {
    if 4 * n + 2 > MAX_COUNT then MAX_COUNT else 4 * n + 2
  }

  ghost predicate WithinLimit(existing: seq<DecisionEdge>, proposed: DecisionEdge, limit: nat) {
    0 < limit && Checked(|CurrentWith(existing, proposed)|) <= limit
  }

  lemma ClassesSeparate(f: Representing, nodes: set<Id>, edges: seq<DecisionEdge>, e: DecisionEdge)
    requires Classifies(f, nodes, MatchLinks(edges)) && e.left in nodes && e.right in nodes
    ensures f(e.left) == f(e.right) <==> Connected(MatchLinks(edges), e.left, e.right)
  {
  }

  /** Whether the ends of `e` are in one class, looked up with path compression. */
  method EndsMeet(parent: Parents, e: DecisionEdge, ghost edges: seq<DecisionEdge>) returns (meet: bool, next: Parents)
    requires Represents()(parent, Nodes(edges), MatchLinks(edges)) && e.left in Nodes(edges) && e.right in Nodes(edges)
    ensures Represents()(next, Nodes(edges), MatchLinks(edges))
    ensures meet <==> Connected(MatchLinks(edges), e.left, e.right)
  {
    var l, r;
    next, l := Find(parent, e.left);
    next, r := FindAgain(next, e.right, parent);
    meet := l == r;
    ClassesSeparate(Reps(parent), Nodes(edges), edges, e);
    SameClassifies(Reps(parent), Reps(next), Nodes(edges), MatchLinks(edges));
  }

  /** A NOT_MATCH whose ends MATCH decisions connect. */
  ghost predicate Crossed(edges: seq<DecisionEdge>, e: DecisionEdge) {
    e in edges && e.kind.NotMatch? && Connected(MatchLinks(edges), e.left, e.right)
  }

  lemma CrossedIsInconsistent(edges: seq<DecisionEdge>, e: DecisionEdge)
    requires Crossed(edges, e)
    ensures !Consistent(edges)
  {
  }

  /** The first crossed NOT_MATCH, if there is one. */
  method FirstContradiction(edges: seq<DecisionEdge>, start: Parents) returns (found: Option<DecisionEdge>)
    requires Represents()(start, Nodes(edges), MatchLinks(edges))
    ensures found.None? ==> Consistent(edges)
    ensures found.Some? ==> Crossed(edges, found.value)
  {
    var parent := start;
    for i := 0 to |edges|
      invariant Represents()(parent, Nodes(edges), MatchLinks(edges))
      invariant RespectedUpTo(edges, i)
    {
      if edges[i].kind.NotMatch? {
        EndsKnown(edges, i);
        var meet;
        meet, parent := EndsMeet(parent, edges[i], edges);
        if meet { return Some(edges[i]); }
      }
      RespectedNext(edges, i);
    }
    found := None;
    AllRespected(edges);
  }

  ghost predicate Respected(links: set<(Id, Id)>, e: DecisionEdge) {
    e.kind.NotMatch? ==> !Connected(links, e.left, e.right)
  }

  ghost predicate RespectedUpTo(edges: seq<DecisionEdge>, n: nat)
    requires n <= |edges|
  {
    forall k: nat {:trigger edges[k]} | k < n :: Respected(MatchLinks(edges), edges[k])
  }

  lemma RespectedNext(edges: seq<DecisionEdge>, n: nat)
    requires n < |edges| && RespectedUpTo(edges, n) && Respected(MatchLinks(edges), edges[n])
    ensures RespectedUpTo(edges, n + 1)
  {
  }

  lemma AllRespected(edges: seq<DecisionEdge>)
    requires RespectedUpTo(edges, |edges|)
    ensures Consistent(edges)
  {
    forall e | e in edges && e.kind.NotMatch? ensures !Connected(MatchLinks(edges), e.left, e.right) {
      var k :| 0 <= k < |edges| && edges[k] == e;
      assert Respected(MatchLinks(edges), edges[k]);
    }
  }

  /** A proposed decision is accepted exactly when it joins two records, the check fits its limit and
      no NOT_MATCH then separates MATCH-connected records; a refusal shows a shortest chain. */
  method ValidateProposedDecision(existing: seq<DecisionEdge>, proposed: DecisionEdge, limit: nat)
    returns (r: Result<(), ConstraintError>)
    ensures proposed.left == proposed.right ==> r == Err(DecisionInvalid)
    ensures proposed.left != proposed.right && !WithinLimit(existing, proposed, limit) ==>
      r == Err(CheckLimit(if limit == 0 then 1 else Checked(|CurrentWith(existing, proposed)|), limit))
    ensures proposed.left != proposed.right && WithinLimit(existing, proposed, limit) ==>
      (r.Ok? <==> Consistent(CurrentWith(existing, proposed)))
    ensures r.Err? && r.error.Contradiction? ==>
      && r.error.cannot in CurrentWith(existing, proposed) && r.error.cannot.kind.NotMatch?
      && ShortestPath(CurrentWith(existing, proposed), r.error.path, r.error.cannot.left, r.error.cannot.right)
  {
    if proposed.left == proposed.right { return Err(DecisionInvalid); }
    if limit == 0 { return Err(CheckLimit(1, limit)); }
    var current := CurrentWith(existing, proposed);
    var checked := Checked(|current|);
    if checked > limit { return Err(CheckLimit(checked, limit)); }
    var parent := BuildClasses(current);
    var found := FirstContradiction(current, parent);
    if found.Some? {
      CrossedIsInconsistent(current, found.value);
      var path := ContradictionPath(current, found.value.left, found.value.right);
      return Err(Contradiction(path, found.value));
    }
    r := Ok(());
  }

  // ---- the components themselves ----

  lemma {:induction false} AddedRoot(parent: Parents, x: Id, y: Id)
    requires Descending(parent) && x !in parent
    ensures Descending(parent[x := x]) && Root(parent[x := x], y) == Root(parent, y)
    decreases y
  {
    if y in parent && parent[y] != y { AddedRoot(parent, x, parent[y]); }
  }

  lemma AddedClassifies(f: Representing, g: Representing, nodes: set<Id>, links: set<(Id, Id)>, x: Id)
    requires Classifies(f, nodes, links) && x !in nodes && f(x) == x && SameBy(g, f)
    requires forall y | y in nodes :: f(y) in nodes
    ensures Classifies(g, nodes + {x}, links)
  {
    forall y: Id, z: Id | y in nodes + {x} && z in nodes + {x} ensures g(y) == g(z) <==> Connected(links, y, z) {
      if y != z && (y == x || z == x) {
        assert f(y) != f(z);
        if Connected(links, y, z) { LoneNode(links, nodes, y, z); }
      } else if y == z {
        ConnectedRefl(links, y);
      }
    }
  }

  /** An id no link mentions is connected to nothing else. */
  lemma LoneNode(links: set<(Id, Id)>, nodes: set<Id>, y: Id, z: Id)
    requires (forall p | p in links :: p.0 in nodes && p.1 in nodes) && Connected(links, y, z) && y != z
    ensures y in nodes && z in nodes
  {
    var tag := (a: Id) => if a in nodes then None else Some(a);
    forall a, b | (a, b) in links ensures tag(a) == tag(b) {
      assert (a, b).0 in nodes && (a, b).1 in nodes;
    }
    ConnectedInvariant(links, y, z, tag);
  }

  method EnsureNode(parent: Parents, x: Id, ghost nodes: set<Id>, ghost links: set<(Id, Id)>) returns (next: Parents)
    requires Represents()(parent, nodes, links)
    ensures Represents()(next, nodes + {x}, links)
  {
    next := parent;
    if x !in parent {
      AddedRoot(parent, x, x);
      forall y: Id ensures Reps(parent[x := x])(y) == Reps(parent)(y) { AddedRoot(parent, x, y); }
      AddedClassifies(Reps(parent), Reps(parent[x := x]), nodes, links, x);
      next := parent[x := x];
    } else {
      assert nodes + {x} == nodes;
    }
  }

  function Matches(edges: seq<DecisionEdge>): seq<DecisionEdge> {
    Filter(edges, (e: DecisionEdge) => e.kind.Match?)
  }

  lemma NodesNext(seen: seq<DecisionEdge>, e: DecisionEdge)
    ensures Nodes(seen + [e]) == (Nodes(seen) + {e.left}) + {e.right}
  {
    forall x ensures x in Nodes(seen + [e]) <==> x in (Nodes(seen) + {e.left}) + {e.right} {
      if x in Nodes(seen) {
        var f :| f in seen && (f.left == x || f.right == x);
        assert f in seen + [e];
      }
      assert e in seen + [e];
    }
  }

  lemma MatchesNext(seen: seq<DecisionEdge>, e: DecisionEdge)
    ensures Nodes(Matches(seen + [e])) == if e.kind.Match? then (Nodes(Matches(seen)) + {e.left}) + {e.right}
      else Nodes(Matches(seen))
  {
    FilterAppend(seen, e, (e: DecisionEdge) => e.kind.Match?);
    NodesNext(Matches(seen), e);
  }

  method EnsureNodes(parent: Parents, left: Id, right: Id, ghost nodes: set<Id>, ghost links: set<(Id, Id)>)
    returns (next: Parents)
    requires Represents()(parent, nodes, links)
    ensures Represents()(next, (nodes + {left}) + {right}, links)
  {
    var first := EnsureNode(parent, left, nodes, links);
    next := EnsureNode(first, right, nodes + {left}, links);
  }

  method AddMatch(parent: Parents, left: Id, right: Id, ghost nodes: set<Id>, ghost links: set<(Id, Id)>)
    returns (next: Parents)
    requires Represents()(parent, nodes, links)
    ensures Represents()(next, (nodes + {left}) + {right}, links + {(left, right)})
  {
    var grown := EnsureNodes(parent, left, right, nodes, links);
    next := JoinMatch(grown, left, right, (nodes + {left}) + {right}, links);
  }

  method AddNext(parent: Parents, edges: seq<DecisionEdge>, i: nat) returns (next: Parents)
    requires i < |edges| && Represents()(parent, Nodes(Matches(edges[..i])), MatchLinks(edges[..i]))
    ensures Represents()(next, Nodes(Matches(edges[..i + 1])), MatchLinks(edges[..i + 1]))
  {
    assert edges[..i + 1] == edges[..i] + [edges[i]];
    MatchLinksNext(edges[..i], edges[i]);
    MatchesNext(edges[..i], edges[i]);
    if edges[i].kind.Match? {
      next := AddMatch(parent, edges[i].left, edges[i].right, Nodes(Matches(edges[..i])), MatchLinks(edges[..i]));
    } else {
      assert MatchLinks(edges[..i]) + {} == MatchLinks(edges[..i]);
      next := parent;
    }
  }

  /** Forest over the records that MATCH decisions mention. */
  method MatchForest(edges: seq<DecisionEdge>) returns (parent: Parents)
    ensures Represents()(parent, Nodes(Matches(edges)), MatchLinks(edges))
  {
    parent := StartAlone({});
    NothingMatched();
    assert edges[..0] == [];
    for i := 0 to |edges|
      invariant Represents()(parent, Nodes(Matches(edges[..i])), MatchLinks(edges[..i]))
    {
      parent := AddNext(parent, edges, i);
    }
    assert edges[..|edges|] == edges;
  }

  lemma NothingMatched()
    ensures Nodes(Matches([])) == {} && MatchLinks([]) == {}
  {
  }

  ghost predicate Covering(comps: map<Id, set<Id>>, nodes: set<Id>) {
    forall x | x in nodes :: exists k | k in comps :: x in comps[k]
  }

  ghost predicate Exact(comps: map<Id, set<Id>>, nodes: set<Id>, links: set<(Id, Id)>) {
    forall k, y | k in comps :: y in comps[k] <==> y in nodes && Connected(links, k, y)
  }

  ghost predicate UnderLeast(comps: map<Id, set<Id>>) {
    forall k | k in comps :: k in comps[k] && forall y | y in comps[k] :: k <= y
  }

  /** Each MATCH-connected class of records, under its least member. */
  ghost predicate ComponentsOf(comps: map<Id, set<Id>>, nodes: set<Id>, links: set<(Id, Id)>) {
    Covering(comps, nodes) && Exact(comps, nodes, links) && UnderLeast(comps)
  }

  /** `comps` groups the records of `seen` by representative. */
  ghost predicate Grouped(comps: map<Id, set<Id>>, seen: set<Id>, f: Representing) {
    && (forall x | x in seen :: f(x) in comps && x in comps[f(x)])
    && (forall k | k in comps :: comps[k] != {} && forall y | y in comps[k] :: y in seen && f(y) == k)
  }

  /** Forests in which `f` names the representatives. */
  ghost function Following(f: Representing): Parents -> bool {
    (parent: Parents) => Descending(parent) && SameBy(Reps(parent), f)
  }

  method Locate(parent: Parents, node: Id, ghost f: Representing) returns (next: Parents, root: Id)
    requires Following(f)(parent)
    ensures Following(f)(next) && root == f(node)
  {
    next, root := Find(parent, node);
    assert Reps(parent)(node) == f(node);
  }

  method Place(parent: Parents, comps: map<Id, set<Id>>, node: Id, ghost seen: set<Id>, ghost f: Representing)
    returns (next: Parents, groups: map<Id, set<Id>>)
    requires Following(f)(parent) && Grouped(comps, seen, f)
    ensures Following(f)(next) && Grouped(groups, seen + {node}, f)
  {
    var root;
    next, root := Locate(parent, node, f);
    groups := AddToGroup(comps, root, node, seen, f);
  }

  method GroupByRoot(start: Parents, nodes: set<Id>, ghost f: Representing) returns (comps: map<Id, set<Id>>)
    requires Following(f)(start)
    ensures Grouped(comps, nodes, f)
  {
    var parent, todo := start, nodes;
    ghost var seen: set<Id> := {};
    comps := map[];
    while todo != {}
      invariant Following(f)(parent) && Grouped(comps, seen, f)
      invariant forall x :: x in nodes <==> x in seen || x in todo
    {
      var node :| node in todo;
      parent, comps := Place(parent, comps, node, seen, f);
      seen, todo := seen + {node}, todo - {node};
    }
    assert seen == nodes;
  }

  method AddToGroup(comps: map<Id, set<Id>>, root: Id, node: Id, ghost seen: set<Id>, ghost f: Representing)
    returns (next: map<Id, set<Id>>)
    requires Grouped(comps, seen, f) && root == f(node)
    ensures Grouped(next, seen + {node}, f)
  {
    GroupedNext(comps, seen, f, node);
    next := comps[root := (if root in comps then comps[root] else {}) + {node}];
  }

  lemma GroupedNext(comps: map<Id, set<Id>>, seen: set<Id>, f: Representing, x: Id)
    requires Grouped(comps, seen, f)
    ensures Grouped(comps[f(x) := (if f(x) in comps then comps[f(x)] else {}) + {x}], seen + {x}, f)
  {
  }

  /** A representing function whose values represent themselves, lie in the class and come first. */
  ghost predicate Leading(f: Representing, nodes: set<Id>) {
    forall x {:trigger f(x)} | x in nodes :: f(x) in nodes && f(x) <= x
  }

  lemma GroupMembers(comps: map<Id, set<Id>>, f: Representing, nodes: set<Id>, links: set<(Id, Id)>, k: Id, y: Id)
    requires Classifies(f, nodes, links) && Grouped(comps, nodes, f) && k in comps && k in nodes && f(k) == k
    ensures y in comps[k] <==> y in nodes && Connected(links, k, y)
  {
    if y in nodes { assert f(k) == f(y) <==> Connected(links, k, y); }
  }

  lemma NodesGrouped(comps: map<Id, set<Id>>, f: Representing, nodes: set<Id>)
    requires Grouped(comps, nodes, f)
    ensures Covering(comps, nodes)
  {
    forall x | x in nodes ensures exists k | k in comps :: x in comps[k] { assert f(x) in comps; }
  }

  lemma GroupsLed(comps: map<Id, set<Id>>, f: Representing, nodes: set<Id>)
    requires Grouped(comps, nodes, f) && Leading(f, nodes) && forall k | k in comps :: k in nodes && f(k) == k
    ensures UnderLeast(comps)
  {
  }

  lemma GroupsExact(comps: map<Id, set<Id>>, f: Representing, nodes: set<Id>, links: set<(Id, Id)>)
    requires Classifies(f, nodes, links) && Grouped(comps, nodes, f) && forall k | k in comps :: k in nodes && f(k) == k
    ensures Exact(comps, nodes, links)
  {
    forall k, y | k in comps ensures y in comps[k] <==> y in nodes && Connected(links, k, y) {
      GroupMembers(comps, f, nodes, links, k, y);
    }
  }

  lemma RootsLead(parent: Parents)
    requires Descending(parent)
    ensures Leading(Reps(parent), parent.Keys)
  {
  }

  lemma GroupHeads(comps: map<Id, set<Id>>, parent: Parents)
    requires Descending(parent) && Grouped(comps, parent.Keys, Reps(parent))
    ensures forall k | k in comps :: k in parent.Keys && Reps(parent)(k) == k
  {
    forall k | k in comps ensures k in parent.Keys && Reps(parent)(k) == k {
      var z :| z in comps[k];
      assert Reps(parent)(z) == k;
      RootOfRoot(parent, z);
    }
  }

  lemma StartsFollowing(parent: Parents)
    requires Descending(parent)
    ensures Following(Reps(parent))(parent)
  {
  }

  method Components(parent: Parents, ghost nodes: set<Id>, ghost links: set<(Id, Id)>) returns (comps: map<Id, set<Id>>)
    requires Represents()(parent, nodes, links)
    ensures ComponentsOf(comps, nodes, links)
  {
    StartsFollowing(parent);
    RootsLead(parent);
    comps := GroupByRoot(parent, parent.Keys, Reps(parent));
    GroupHeads(comps, parent);
    NodesGrouped(comps, Reps(parent), nodes);
    GroupsExact(comps, Reps(parent), nodes, links);
    GroupsLed(comps, Reps(parent), nodes);
  }

  /** The records that MATCH decisions connect, each class under its least record. */
  method ManualComponents(decisions: seq<DecisionEdge>, limit: nat)
    returns (r: Result<map<Id, set<Id>>, ConstraintError>)
    ensures |decisions| > limit ==> r == Err(CheckLimit(|decisions|, limit))
    ensures |decisions| <= limit ==> r.Ok? && ComponentsOf(r.value, Nodes(Matches(decisions)), MatchLinks(decisions))
  {
    if |decisions| > limit { return Err(CheckLimit(|decisions|, limit)); }
    var parent := MatchForest(decisions);
    var comps := Components(parent, Nodes(Matches(decisions)), MatchLinks(decisions));
    r := Ok(comps);
  }
}
