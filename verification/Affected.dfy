/** The set of records a change can reach. */
module Affected {
  import opened Prelude
  import opened Types
  import opened IdentitySpec

  datatype ClosureError = CrossingEdge(left: Id, right: Id)

  /** No identity, current or historical, and no connecting edge has an end on each side. */
  ghost predicate ClosedScope(scope: set<Id>, memberships: seq<Member>, manual: seq<DecisionEdge>,
      pairs: seq<PairDecision>) {
    MembersTogether(scope, memberships) && MatchesTogether(scope, manual) && PairsTogether(scope, pairs)
  }

  ghost predicate MembersTogether(scope: set<Id>, memberships: seq<Member>) {
    forall m, n | m in memberships && n in memberships && m.identity == n.identity ::
      m.record in scope <==> n.record in scope
  }

  ghost predicate MatchesTogether(scope: set<Id>, manual: seq<DecisionEdge>) {
    forall e | e in manual && e.kind.Match? :: e.left in scope <==> e.right in scope
  }

  ghost predicate PairsTogether(scope: set<Id>, pairs: seq<PairDecision>) {
    forall d | d in pairs && d.result in {AutomaticIdentity, AutomaticStrong, PairResult.Review} ::
      d.left in scope <==> d.right in scope
  }

  /** Every closed set that holds the seeds holds `records`. */
  ghost predicate Needed(records: set<Id>, seeds: set<Id>, memberships: seq<Member>, manual: seq<DecisionEdge>,
      pairs: seq<PairDecision>) {
    forall t: set<Id> | ClosedScope(t, memberships, manual, pairs) && seeds <= t :: records <= t
  }

  /** Every id the inputs mention. */
  ghost function Mentioned(seeds: set<Id>, memberships: seq<Member>, manual: seq<DecisionEdge>,
      pairs: seq<PairDecision>): set<Id> {
    seeds + (set m | m in memberships :: m.record)
    + (set e | e in manual :: e.left) + (set e | e in manual :: e.right)
    + (set d | d in pairs :: d.left) + (set d | d in pairs :: d.right)
  }

  method AddEdge(records: set<Id>, left: Id, right: Id) returns (r: set<Id>)
    ensures r == if left in records || right in records then records + {left, right} else records
  {
    r := records;
    if left in r || right in r { r := r + {left, right}; }
  }

  method AddMembers(records: set<Id>, memberships: seq<Member>) returns (r: set<Id>)
    ensures r == records + set m, n | m in memberships && n in memberships && m.record in records
      && m.identity == n.identity :: n.record
  {
    var ids := set m | m in memberships && m.record in records :: m.identity;
    r := records + set n | n in memberships && n.identity in ids :: n.record;
  }

  method AddMatches(records: set<Id>, manual: seq<DecisionEdge>) returns (r: set<Id>)
    ensures records <= r
    ensures r == records ==> MatchesTogether(records, manual)
    ensures forall t | MatchesTogether(t, manual) && records <= t :: r <= t
    ensures r <= records + (set e | e in manual :: e.left) + (set e | e in manual :: e.right)
  {
    r := records;
    for i := 0 to |manual|
      invariant records <= r
      invariant r == records ==> MatchesTogether(records, manual[..i])
      invariant forall t | MatchesTogether(t, manual) && records <= t :: r <= t
      invariant r <= records + (set e | e in manual :: e.left) + (set e | e in manual :: e.right)
    {
      var e := manual[i];
      assert manual[..i + 1] == manual[..i] + [e];
      if e.kind.Match? {
        r := AddEdge(r, e.left, e.right);
      }
    }
    assert manual[..|manual|] == manual;
  }

  method AddPairs(records: set<Id>, pairs: seq<PairDecision>) returns (r: set<Id>)
    ensures records <= r
    ensures r == records ==> PairsTogether(records, pairs)
    ensures forall t | PairsTogether(t, pairs) && records <= t :: r <= t
    ensures r <= records + (set d | d in pairs :: d.left) + (set d | d in pairs :: d.right)
  {
    r := records;
    for i := 0 to |pairs|
      invariant records <= r
      invariant r == records ==> PairsTogether(records, pairs[..i])
      invariant forall t | PairsTogether(t, pairs) && records <= t :: r <= t
      invariant r <= records + (set d | d in pairs :: d.left) + (set d | d in pairs :: d.right)
    {
      var d := pairs[i];
      assert pairs[..i + 1] == pairs[..i] + [d];
      if d.result.Connects() {
        r := AddEdge(r, d.left, d.right);
      }
    }
    assert pairs[..|pairs|] == pairs;
  }

  method EnsureClosed(records: set<Id>, left: Id, right: Id) returns (r: Result<(), ClosureError>)
    ensures r.Ok? <==> (left in records <==> right in records)
  {
    if (left in records) != (right in records) { return Err(CrossingEdge(left, right)); }
    r := Ok(());
  }

  /** The closing checks. */
  method EnsureAllClosed(records: set<Id>, manual: seq<DecisionEdge>, pairs: seq<PairDecision>)
    returns (r: Result<(), ClosureError>)
    ensures r.Ok? <==> MatchesTogether(records, manual) && PairsTogether(records, pairs)
  {
    for i := 0 to |manual|
      invariant MatchesTogether(records, manual[..i])
    {
      var e := manual[i];
      assert manual[..i + 1] == manual[..i] + [e];
      if e.kind.Match? {
        r := EnsureClosed(records, e.left, e.right);
        if r.Err? { assert e in manual; return; }
      }
    }
    assert manual[..|manual|] == manual;
    for i := 0 to |pairs|
      invariant PairsTogether(records, pairs[..i])
    {
      var d := pairs[i];
      assert pairs[..i + 1] == pairs[..i] + [d];
      if d.result.Connects() {
        r := EnsureClosed(records, d.left, d.right);
        if r.Err? { assert d in pairs; return; }
      }
    }
    assert pairs[..|pairs|] == pairs;
    r := Ok(());
  }

  /** One round of growth: closed if nothing was added, and nothing is added without need. */
  method Grow(records: set<Id>, ghost seeds: set<Id>, memberships: seq<Member>, manual: seq<DecisionEdge>,
      pairs: seq<PairDecision>)
    returns (r: set<Id>)
    requires seeds <= records <= Mentioned(seeds, memberships, manual, pairs)
    requires Needed(records, seeds, memberships, manual, pairs)
    ensures records <= r <= Mentioned(seeds, memberships, manual, pairs)
    ensures Needed(r, seeds, memberships, manual, pairs)
    ensures r == records ==> ClosedScope(r, memberships, manual, pairs)
  {
    var members := AddMembers(records, memberships);
    var matched := AddMatches(members, manual);
    r := AddPairs(matched, pairs);
    if r == records {
      assert members == records && matched == records;
    }
    forall t: set<Id> | ClosedScope(t, memberships, manual, pairs) && seeds <= t ensures r <= t {
      assert records <= t;
      assert members <= t;
      assert matched <= t;
    }
  }

  /** The least closed set around the seeds. The closing checks never fail. */
  method Build(seeds: set<Id>, memberships: seq<Member>, manual: seq<DecisionEdge>, pairs: seq<PairDecision>)
    returns (r: Result<set<Id>, ClosureError>)
    ensures r.Ok? && seeds <= r.value
    ensures ClosedScope(r.value, memberships, manual, pairs)
    ensures Needed(r.value, seeds, memberships, manual, pairs)
  {
    var records := seeds;
    while true
      invariant seeds <= records <= Mentioned(seeds, memberships, manual, pairs)
      invariant Needed(records, seeds, memberships, manual, pairs)
      decreases |Mentioned(seeds, memberships, manual, pairs)| - |records|
    {
      var before := |records|;
      var grown := Grow(records, seeds, memberships, manual, pairs);
      SubsetSize(records, grown);
      SubsetFull(records, grown);
      SubsetSize(grown, Mentioned(seeds, memberships, manual, pairs));
      records := grown;
      if |records| == before { break; }
    }
    var closed := EnsureAllClosed(records, manual, pairs);
    if closed.Err? {
      assert false;
    }
    r := Ok(records);
  }

  /** The closure is unique, and the order of the inputs does not matter. */
  lemma ClosureUnique(seeds: set<Id>, a: set<Id>, b: set<Id>, memberships: seq<Member>, manual: seq<DecisionEdge>,
      pairs: seq<PairDecision>, others: seq<Member>, edges: seq<DecisionEdge>, decisions: seq<PairDecision>)
    requires Elements(memberships) == Elements(others) && Elements(manual) == Elements(edges)
      && Elements(pairs) == Elements(decisions)
    requires seeds <= a && ClosedScope(a, memberships, manual, pairs) && Needed(a, seeds, memberships, manual, pairs)
    requires seeds <= b && ClosedScope(b, others, edges, decisions) && Needed(b, seeds, others, edges, decisions)
    ensures a == b
  {
    SameElementsClosed(b, others, edges, decisions, memberships, manual, pairs);
    SameElementsClosed(a, memberships, manual, pairs, others, edges, decisions);
  }

  lemma SameElementsClosed(scope: set<Id>, memberships: seq<Member>, manual: seq<DecisionEdge>,
      pairs: seq<PairDecision>, others: seq<Member>, edges: seq<DecisionEdge>, decisions: seq<PairDecision>)
    requires Elements(memberships) == Elements(others) && Elements(manual) == Elements(edges)
      && Elements(pairs) == Elements(decisions)
    requires ClosedScope(scope, memberships, manual, pairs)
    ensures ClosedScope(scope, others, edges, decisions)
  {
    forall m | m in others ensures m in memberships { assert m in Elements(others); }
    forall e | e in edges ensures e in manual { assert e in Elements(edges); }
    forall d | d in decisions ensures d in pairs { assert d in Elements(decisions); }
  }
}
