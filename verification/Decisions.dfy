/** The steward's decision table, and what its consistency means for the resolver. */
module Decisions {
  import opened Prelude
  import opened Types
  import opened Connectivity
  import opened Constraint
  import opened Sorting
  import opened Folding
  import opened ResolverSpec
  import opened ResolverSafety

  /** The largest 64-bit signed integer: versions and epochs stop there. */
  const MAX_VERSION: int := 0x7FFF_FFFF_FFFF_FFFF

  datatype DecisionRow = DecisionRow(id: Id, left: Id, right: Id, kind: DecisionKind, version: int, current: bool,
      supersedes: Option<Id>)

  datatype DecideError = VersionConflict | Exhausted | Refused(error: ConstraintError)

  function EdgeOf(row: DecisionRow): DecisionEdge {
    CanonicalEdge(DecisionEdge(row.id, row.left, row.right, row.kind))
  }

  function IsCurrent(row: DecisionRow): bool { row.current }

  function CurrentRows(rows: seq<DecisionRow>): seq<DecisionRow> {
    Filter(rows, IsCurrent)
  }

  function CurrentEdges(rows: seq<DecisionRow>): seq<DecisionEdge> {
    Map(CurrentRows(rows), EdgeOf)
  }

  // ---- consistency looks only at ends and kinds ----

  /** Every edge of `a` has one in `b` with the same ends, in either order, and the same kind. */
  ghost predicate Covered(a: seq<DecisionEdge>, b: seq<DecisionEdge>) {
    forall e | e in a :: exists f | f in b :: f.kind == e.kind && Joins(f, e.left, e.right)
  }

  lemma CoveredLinks(a: seq<DecisionEdge>, b: seq<DecisionEdge>, x: Id, y: Id)
    requires Covered(a, b) && Connected(MatchLinks(a), x, y)
    ensures Connected(MatchLinks(b), x, y)
  {
    forall p | p in MatchLinks(a) ensures Linked(MatchLinks(b), p.0, p.1) {
      var e :| e in a && e.kind.Match? && p == (e.left, e.right);
      var f :| f in b && f.kind == e.kind && Joins(f, e.left, e.right);
      assert (f.left, f.right) in MatchLinks(b);
    }
    ConnectedMono(MatchLinks(a), MatchLinks(b), x, y);
  }

  /** A set of decisions covered by a consistent one is consistent. */
  lemma CoveredConsistent(a: seq<DecisionEdge>, b: seq<DecisionEdge>)
    requires Covered(a, b) && Consistent(b)
    ensures Consistent(a)
  {
    forall e | e in a && e.kind.NotMatch? ensures !Connected(MatchLinks(a), e.left, e.right) {
      if Connected(MatchLinks(a), e.left, e.right) {
        CoveredLinks(a, b, e.left, e.right);
        var f :| f in b && f.kind == e.kind && Joins(f, e.left, e.right);
        if f.left != e.left { ConnectedSym(MatchLinks(b), e.left, e.right); }
        assert false;
      }
    }
  }

  lemma CanonicalJoins(e: DecisionEdge)
    ensures CanonicalEdge(e).kind == e.kind && Joins(CanonicalEdge(e), e.left, e.right)
      && Joins(e, CanonicalEdge(e).left, CanonicalEdge(e).right)
  {
  }

  // ---- one decision ----

  function NextVersion(current: Option<int>, expected: int): Result<int, DecideError> {
    var now := if current.Some? then current.value else 0;
    if now != expected then Err(VersionConflict)
    else if now >= MAX_VERSION then Err(Exhausted)
    else Ok(now + 1)
  }

  predicate ForEnds(row: DecisionRow, left: Id, right: Id) {
    row.current && row.left == left && row.right == right
  }

  /** The table after `fresh` replaces the current row of its pair. */
  function Superseded(rows: seq<DecisionRow>, row: DecisionRow): seq<DecisionRow> {
    Map(rows, (r: DecisionRow) => if ForEnds(r, row.left, row.right) then r.(current := false) else r) + [row]
  }

  /** The first current row of a pair; a valid table has no other. */
  function CurrentOf(rows: seq<DecisionRow>, left: Id, right: Id): (row: Option<DecisionRow>)
    ensures row.None? ==> forall r | r in rows :: !ForEnds(r, left, right)
    ensures row.Some? ==> row.value in rows && ForEnds(row.value, left, right)
  {
    if rows == [] then None
    else if ForEnds(rows[0], left, right) then Some(rows[0])
    else CurrentOf(rows[1..], left, right)
  }

  function IdIn(row: Option<DecisionRow>): Option<Id> {
    if row.Some? then Some(row.value.id) else None
  }

  function VersionIn(row: Option<DecisionRow>): Option<int> {
    if row.Some? then Some(row.value.version) else None
  }

  /** The decision as it is checked: it stands in for the current one of its pair. */
  function ProposedEdge(rows: seq<DecisionRow>, left: Id, right: Id, kind: DecisionKind): DecisionEdge {
    var id := IdIn(CurrentOf(rows, left, right));
    CanonicalEdge(DecisionEdge(if id.Some? then id.value else 0, left, right, kind))
  }

  /** When a decision is accepted: two different records, the version that was read, room for the
      next numbers, and current decisions that stay within the limit and consistent. */
  ghost predicate Decidable(
    rows: seq<DecisionRow>, epoch: int, left: Id, right: Id, kind: DecisionKind, expected: int, limit: nat)
  {
    var version := VersionIn(CurrentOf(rows, left, right));
    var proposed := ProposedEdge(rows, left, right, kind);
    && left != right
    && expected == (if version.Some? then version.value else 0) < MAX_VERSION && epoch < MAX_VERSION
    && WithinLimit(CurrentEdges(rows), proposed, limit) && Consistent(CurrentWith(CurrentEdges(rows), proposed))
  }

  /** Ids are unique and not zero, a pair has one current decision, and the current decisions are consistent. */
  ghost predicate TableValid(rows: seq<DecisionRow>) {
    RowsValid(rows) && Consistent(CurrentEdges(rows))
  }

  lemma CurrentEdgeMeans(rows: seq<DecisionRow>, e: DecisionEdge)
    ensures e in CurrentEdges(rows) <==> exists r | r in rows :: r.current && e == EdgeOf(r)
  {
    var current := CurrentRows(rows);
    if e in CurrentEdges(rows) {
      var i :| 0 <= i < |current| && CurrentEdges(rows)[i] == e;
      assert current[i] in rows && current[i].current;
    }
    if r :| r in rows && r.current && e == EdgeOf(r) {
      assert r in current;
      var i :| 0 <= i < |current| && current[i] == r;
      assert CurrentEdges(rows)[i] == e;
    }
  }

  lemma SupersededMeans(rows: seq<DecisionRow>, row: DecisionRow, r: DecisionRow)
    requires r.current
    ensures r in Superseded(rows, row) <==> r == row || (r in rows && !ForEnds(r, row.left, row.right))
  {
    var mark := (q: DecisionRow) => if ForEnds(q, row.left, row.right) then q.(current := false) else q;
    var marked := Map(rows, mark);
    if r in marked {
      var i :| 0 <= i < |marked| && marked[i] == r;
      assert marked[i] == mark(rows[i]) && rows[i] in rows;
    }
    if r in rows && !ForEnds(r, row.left, row.right) {
      var i :| 0 <= i < |rows| && rows[i] == r;
      assert marked[i] == r;
    }
  }

  /** The new current decisions are, up to ids and order, those the check accepted. */
  lemma AcceptedCovers(rows: seq<DecisionRow>, row: DecisionRow, proposed: DecisionEdge)
    requires row.current && Joins(proposed, row.left, row.right) && proposed.kind == row.kind
    requires forall r | r in rows && ForEnds(r, row.left, row.right) :: r.id == proposed.decision
    requires forall r | r in rows && r.current && r.id == proposed.decision :: ForEnds(r, row.left, row.right)
    ensures Covered(CurrentEdges(Superseded(rows, row)), CurrentWith(CurrentEdges(rows), proposed))
  {
    var later, checked := CurrentEdges(Superseded(rows, row)), CurrentWith(CurrentEdges(rows), proposed);
    var others := Filter(CurrentEdges(rows), (e: DecisionEdge) => e.decision != proposed.decision);
    forall e | e in later ensures exists f | f in checked :: f.kind == e.kind && Joins(f, e.left, e.right) {
      CurrentEdgeMeans(Superseded(rows, row), e);
      var r :| r in Superseded(rows, row) && r.current && e == EdgeOf(r);
      SupersededMeans(rows, row, r);
      if r == row {
        var f := CanonicalEdge(proposed);
        assert checked[|checked| - 1] == f && f in checked;
      } else {
        CurrentEdgeMeans(rows, e);
        assert e in CurrentEdges(rows) && e.decision == r.id;
        assert e in others;
        var i :| 0 <= i < |others| && others[i] == e;
        assert Canonicals(others)[i] == CanonicalEdge(e);
        assert checked[i] == CanonicalEdge(e);
        CanonicalJoins(e);
        assert CanonicalEdge(e) in checked;
      }
    }
  }

  class DecisionTable {
    var rows: seq<DecisionRow>
    var epoch: int

    ghost predicate Valid()
      reads this
    {
      TableValid(rows) && 0 <= epoch <= MAX_VERSION
    }

    constructor ()
      ensures Valid() && rows == [] && epoch == 0
    {
      rows, epoch := [], 0;
    }

    /** The current row of a pair. */
    method Current(left: Id, right: Id) returns (row: Option<DecisionRow>)
      ensures row == CurrentOf(rows, left, right)
    {
      for i := 0 to |rows|
        invariant CurrentOf(rows[i..], left, right) == CurrentOf(rows, left, right)
      {
        assert rows[i..][0] == rows[i] && rows[i..][1..] == rows[i + 1..];
        if ForEnds(rows[i], left, right) { return Some(rows[i]); }
      }
      row := None;
    }

    /** Records a decision on a pair, ordered as the table orders it, replacing the current one.
        The table stays consistent; a refused decision changes nothing. */
    method Decide(left: Id, right: Id, kind: DecisionKind, expected: int, limit: nat, newId: Id)
      returns (r: Result<int, DecideError>)
      requires Valid() && newId != 0 && forall q | q in rows :: q.id != newId
      modifies this
      ensures Valid()
      ensures r.Ok? <==> Decidable(old(rows), old(epoch), left, right, kind, expected, limit)
      ensures r.Err? ==> rows == old(rows) && epoch == old(epoch)
      ensures left == right ==> r == Err(Refused(DecisionInvalid))
      ensures left != right && NextVersion(VersionIn(CurrentOf(old(rows), left, right)), expected).Err? ==>
        r == Err(NextVersion(VersionIn(CurrentOf(old(rows), left, right)), expected).error)
      ensures r.Ok? ==> r.value == expected + 1 && epoch == old(epoch) + 1
      ensures r.Ok? ==> rows == Superseded(old(rows),
        DecisionRow(newId, left, right, kind, r.value, true, IdIn(CurrentOf(old(rows), left, right))))
    {
      if left == right { return Err(Refused(DecisionInvalid)); }
      var current := Current(left, right);
      var version := NextVersion(VersionIn(current), expected);
      if version.Err? { return Err(version.error); }
      var proposedId := if current.Some? then current.value.id else 0;
      var proposed := CanonicalEdge(DecisionEdge(proposedId, left, right, kind));
      var checked := ValidateProposedDecision(CurrentEdges(rows), proposed, limit);
      if checked.Err? { return Err(Refused(checked.error)); }
      if epoch >= MAX_VERSION { return Err(Exhausted); }
      var row := DecisionRow(newId, left, right, kind, version.value, true, IdIn(current));
      SupersedeKeepsValid(rows, row, current, proposed);
      rows, epoch := Superseded(rows, row), epoch + 1;
      r := Ok(version.value);
    }
  }

  lemma SupersedeKeepsValid(rows: seq<DecisionRow>, row: DecisionRow, current: Option<DecisionRow>,
      proposed: DecisionEdge)
    requires TableValid(rows) && row.current && row.id != 0 && row.left != row.right && 0 < row.version <= MAX_VERSION
    requires forall q | q in rows :: q.id != row.id
    requires current.None? ==> forall q | q in rows :: !ForEnds(q, row.left, row.right)
    requires current.Some? ==> current.value in rows && ForEnds(current.value, row.left, row.right)
    requires proposed == CanonicalEdge(
      DecisionEdge(if current.Some? then current.value.id else 0, row.left, row.right, row.kind))
    requires Consistent(CurrentWith(CurrentEdges(rows), proposed))
    ensures TableValid(Superseded(rows, row))
  {
    SupersededRows(rows, row);
    ProposedReplaces(rows, row, current, proposed);
    AcceptedCovers(rows, row, proposed);
    CoveredConsistent(CurrentEdges(Superseded(rows, row)), CurrentWith(CurrentEdges(rows), proposed));
  }

  ghost predicate RowsValid(rows: seq<DecisionRow>) {
    && (forall i, j | 0 <= i < j < |rows| :: rows[i].id != rows[j].id)
    && (forall i, j | 0 <= i < j < |rows| && rows[i].current && rows[j].current ::
          !(rows[i].left == rows[j].left && rows[i].right == rows[j].right))
    && (forall i | 0 <= i < |rows| ::
      rows[i].id != 0 && rows[i].left != rows[i].right && 0 < rows[i].version <= MAX_VERSION)
  }

  lemma SupersededRows(rows: seq<DecisionRow>, row: DecisionRow)
    requires RowsValid(rows) && row.current && row.id != 0 && row.left != row.right && 0 < row.version <= MAX_VERSION
    requires forall q | q in rows :: q.id != row.id
    ensures RowsValid(Superseded(rows, row))
  {
    var later := Superseded(rows, row);
    var n := |rows|;
    assert later[n] == row;
    forall i | 0 <= i < n
      ensures later[i] == if ForEnds(rows[i], row.left, row.right) then rows[i].(current := false) else rows[i]
      ensures later[i].id != row.id
    {
      assert rows[i] in rows;
    }
  }

  lemma ProposedReplaces(rows: seq<DecisionRow>, row: DecisionRow, current: Option<DecisionRow>, proposed: DecisionEdge)
    requires RowsValid(rows)
    requires current.None? ==> forall q | q in rows :: !ForEnds(q, row.left, row.right)
    requires current.Some? ==> current.value in rows && ForEnds(current.value, row.left, row.right)
    requires proposed.decision == if current.Some? then current.value.id else 0
    ensures forall r | r in rows && ForEnds(r, row.left, row.right) :: r.id == proposed.decision
    ensures forall r | r in rows && r.current && r.id == proposed.decision :: ForEnds(r, row.left, row.right)
  {
    forall r | r in rows
      ensures ForEnds(r, row.left, row.right) ==> r.id == proposed.decision
      ensures r.current && r.id == proposed.decision ==> ForEnds(r, row.left, row.right)
    {
      var i :| 0 <= i < |rows| && rows[i] == r;
      if current.Some? {
        var j :| 0 <= j < |rows| && rows[j] == current.value;
      }
    }
  }

  // ---- what it means for the resolver ----

  lemma LinkedByDecision(e: DecisionEdge, decisions: seq<DecisionEdge>)
    requires e.kind.Match? && exists f | f in decisions :: f.kind == e.kind && Joins(f, e.left, e.right)
    ensures Linked(MatchLinks(decisions), e.left, e.right)
  {
    var f :| f in decisions && f.kind == e.kind && Joins(f, e.left, e.right);
    assert (f.left, f.right) in MatchLinks(decisions);
  }

  /** Every separated pair of the resolver's input is apart in the MATCH graph of the decisions. */
  ghost predicate Apart(cannot: set<(Id, Id)>, links: set<(Id, Id)>) {
    forall p | p in cannot :: !Connected(links, p.0, p.1)
  }

  lemma {:induction false} ManualNeverContradicts(c: Context, s: Clustering, edges: seq<ManualEdge>, n: nat,
      seen: set<(Id, Id)>, links: set<(Id, Id)>)
    requires ResolverSafety.Classifies(s.part, seen) && Apart(c.cannot, links)
    requires forall p | p in seen :: Linked(links, p.0, p.1)
    requires forall e | e in edges ::
      e.pair.left in s.part && e.pair.right in s.part && Linked(links, e.pair.left, e.pair.right)
    ensures Fold(ManualStepper(c), s, edges, n).Ok?
    decreases |edges|
  {
    if edges != [] {
      var e := edges[0];
      assert edges == [e] + edges[1..];
      StepNeverContradicts(c, s, e, seen, links);
      ManualStepClassifies(c, s, e, seen);
      ManualNeverContradicts(c, ManualStep(c, s, e).value, edges[1..], n + 1, seen + {(e.pair.left, e.pair.right)},
        links);
    }
  }

  lemma StepNeverContradicts(c: Context, s: Clustering, e: ManualEdge, seen: set<(Id, Id)>, links: set<(Id, Id)>)
    requires ResolverSafety.Classifies(s.part, seen) && Apart(c.cannot, links)
    requires forall p | p in seen :: Linked(links, p.0, p.1)
    requires e.pair.left in s.part && e.pair.right in s.part && Linked(links, e.pair.left, e.pair.right)
    ensures ManualStep(c, s, e).Ok? && ManualStep(c, s, e).value.part.Keys == s.part.Keys
  {
    var l, r := e.pair.left, e.pair.right;
    if CannotCross(s.part[l], s.part[r], c.cannot) {
      var a, b :| a in s.part[l] && b in s.part[r] && ((a, b) in c.cannot || (b, a) in c.cannot);
      ClassConnected(s.part, seen, links, a, l);
      ClassConnected(s.part, seen, links, r, b);
      ConnectedEdge(links, l, r);
      ConnectedTrans(links, a, l, r);
      ConnectedTrans(links, a, r, b);
      ConnectedSym(links, a, b);
      assert false;
    }
  }

  lemma ClassConnected(part: Partition, seen: set<(Id, Id)>, links: set<(Id, Id)>, a: Id, b: Id)
    requires ResolverSafety.Classifies(part, seen) && (forall p | p in seen :: Linked(links, p.0, p.1))
    requires (b in part && a in part[b]) || (a in part && b in part[a])
    ensures Connected(links, a, b)
  {
    assert a in part && b in part && part[a] == part[b];
    ConnectedMono(seen, links, a, b);
  }

  lemma BaseLinksApart(part: Partition, seen: set<(Id, Id)>, cannot: set<(Id, Id)>, links: set<(Id, Id)>)
    requires ResolverSafety.Classifies(part, seen) && Apart(cannot, links)
      && (forall p | p in seen :: Linked(links, p.0, p.1))
    ensures !LinkInside(part, cannot)
  {
    if p :| p in cannot && p.0 in part && p.1 in part && part[p.0] == part[p.1] {
      assert p.1 in part[p.1];
      ClassConnected(part, seen, links, p.1, p.0);
      ConnectedSym(links, p.1, p.0);
      assert false;
    }
  }

  lemma PreparedLinks(input: Input, decisions: seq<DecisionEdge>)
    requires Prepare(input).Ok? && Consistent(decisions)
    requires Covered(input.manual, decisions) && Covered(input.cannot, decisions)
    requires forall d | d in input.pairs && d.result.Prohibited? :: exists f | f in decisions ::
      f.kind.NotMatch? && Joins(f, d.left, d.right)
    ensures Apart(Prepare(input).value.context.cannot, MatchLinks(decisions))
    ensures forall e | e in Prepare(input).value.manual :: Linked(MatchLinks(decisions), e.pair.left, e.pair.right)
    ensures forall e | e in Prepare(input).value.manual ::
      e.pair.left in Index(input.records) && e.pair.right in Index(input.records)
  {
    var records := Index(input.records);
    CanonicalKnown(input.manual, records, Match);
    forall e | e in Prepare(input).value.manual ensures Linked(MatchLinks(decisions), e.pair.left, e.pair.right) {
      var raw := RawEdge(input.manual, records, Match, e);
      LinkedByDecision(raw, decisions);
    }
    forall p | p in Prepare(input).value.context.cannot ensures !Connected(MatchLinks(decisions), p.0, p.1) {
      var cannot := CanonicalManualEdges(input.cannot, records, NotMatch).value;
      if e :| e in cannot && p == (e.pair.left, e.pair.right) {
        var raw := RawEdge(input.cannot, records, NotMatch, e);
        SeparatedByDecision(decisions, raw.left, raw.right);
        SeparatedBothWays(decisions, raw.left, raw.right);
      } else {
        var d :| d in input.pairs && d.result.Prohibited? && p == Endpoints(d.left, d.right, records);
        SeparatedByDecision(decisions, d.left, d.right);
        SeparatedBothWays(decisions, d.left, d.right);
      }
    }
  }

  lemma RawEdge(edges: seq<DecisionEdge>, records: Records, kind: DecisionKind, e: ManualEdge)
    returns (raw: DecisionEdge)
    requires CanonicalManualEdges(edges, records, kind).Ok? && e in CanonicalManualEdges(edges, records, kind).value
    ensures raw in edges && raw.kind == kind && Joins(raw, e.pair.left, e.pair.right)
  {
    var canonical := Canonical(edges, records, kind);
    SortElements(canonical, ManualRank);
    var i :| 0 <= i < |canonical| && canonical[i] == e;
    raw := edges[i];
    assert ValidEdge(edges[i], records, kind);
    EndpointsUnordered(raw.left, raw.right, records);
  }

  lemma SeparatedByDecision(decisions: seq<DecisionEdge>, a: Id, b: Id)
    requires Consistent(decisions) && exists f | f in decisions :: f.kind.NotMatch? && Joins(f, a, b)
    ensures !Connected(MatchLinks(decisions), a, b)
  {
    var f :| f in decisions && f.kind.NotMatch? && Joins(f, a, b);
    if Connected(MatchLinks(decisions), a, b) {
      ConnectedSym(MatchLinks(decisions), a, b);
      assert false;
    }
  }

  lemma SeparatedBothWays(decisions: seq<DecisionEdge>, a: Id, b: Id)
    requires !Connected(MatchLinks(decisions), a, b)
    ensures !Connected(MatchLinks(decisions), b, a)
  {
    if Connected(MatchLinks(decisions), b, a) {
      ConnectedSym(MatchLinks(decisions), b, a);
      assert false;
    }
  }

  /** From a consistent table the resolver never reports a decision contradiction, whichever of the
      decisions have active ends, as long as prohibited pairs come from NOT_MATCH decisions. */
  lemma ConsistentNeverContradicts(input: Input, decisions: seq<DecisionEdge>)
    requires Consistent(decisions)
    requires Covered(input.manual, decisions) && Covered(input.cannot, decisions)
    requires forall d | d in input.pairs && d.result.Prohibited? :: exists f | f in decisions ::
      f.kind.NotMatch? && Joins(f, d.left, d.right)
    ensures Resolve(input) != Err(ResolverSpec.Contradiction)
  {
    if Prepare(input).Ok? {
      var p := Prepare(input).value;
      PreparedLinks(input, decisions);
      SingletonsClassify(p.context.records);
      ManualNeverContradicts(p.context, Start(p.context), p.manual, 0, {}, MatchLinks(decisions));
      ManualPhaseClassifies(p.context, Start(p.context), p.manual, 0, {});
      assert {} + EdgeSet(p.manual) == EdgeSet(p.manual);
      var base := ManualPhase(p.context, Start(p.context), p.manual).value;
      BaseLinksApart(base.part, EdgeSet(p.manual), p.context.cannot, MatchLinks(decisions));
      AutomaticNeverContradicts(p.context, base, Automatic(input), 0);
    }
  }

  lemma {:induction false} AutomaticNeverContradicts(c: Context, s: Clustering, edges: seq<PairDecision>, n: nat)
    ensures Fold(AutomaticStepper(c), s, edges, n) != Err(ResolverSpec.Contradiction)
    decreases |edges|
  {
    if edges != [] && AutomaticStep(c, s, edges[0], n).Ok? {
      AutomaticNeverContradicts(c, AutomaticStep(c, s, edges[0], n).value, edges[1..], n + 1);
    }
  }
}
