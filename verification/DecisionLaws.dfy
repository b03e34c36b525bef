/** When a steward's decision is accepted and what the table then holds, in plain words over its rows. */
module DecisionLaws {
  import opened Prelude
  import opened Sorting
  import opened Types
  import opened Connectivity
  import opened Constraint
  import opened Decisions

  /** A current row of another pair than the one decided. */
  predicate Stands(r: DecisionRow, left: Id, right: Id) {
    r.current && (r.left != left || r.right != right)
  }

  /** The new decision, or a standing one, says `kind` of the two. */
  ghost predicate Decided(rows: seq<DecisionRow>, left: Id, right: Id, latest: DecisionKind, x: Id, y: Id,
      kind: DecisionKind)
  {
    || (x == left && y == right && kind == latest)
    || exists i :: 0 <= i < |rows| && Stands(rows[i], left, right)
         && rows[i].left == x && rows[i].right == y && rows[i].kind == kind
  }

  /** The pairs that would be joined. */
  ghost function JoinedPairs(rows: seq<DecisionRow>, left: Id, right: Id, kind: DecisionKind): set<(Id, Id)> {
    (set r | r in rows && Stands(r, left, right) && r.kind == Match :: (r.left, r.right))
    + if kind == Match then {(left, right)} else {}
  }

  /** No chain of joined pairs would lead from one end of a separated pair to the other. */
  ghost predicate Peaceful(rows: seq<DecisionRow>, left: Id, right: Id, kind: DecisionKind) {
    forall x, y | Decided(rows, left, right, kind, x, y, NotMatch) ::
      !Connected(JoinedPairs(rows, left, right, kind), x, y)
  }

  /** The version of the pair's current row, or 0. */
  ghost predicate VersionRead(rows: seq<DecisionRow>, left: Id, right: Id, version: int) {
    if exists i :: 0 <= i < |rows| && rows[i].current && rows[i].left == left && rows[i].right == right
    then exists i :: 0 <= i < |rows| && rows[i].current && rows[i].left == left && rows[i].right == right
           && rows[i].version == version
    else version == 0
  }

  /** Four units of work for each standing decision and the new one, and two more, up to 64 bits. */
  function Work(rows: seq<DecisionRow>, left: Id, right: Id): nat {
    var n := |Places(rows, (r: DecisionRow) => Stands(r, left, right))| + 1;
    if 4 * n + 2 <= 0xFFFF_FFFF_FFFF_FFFF then 4 * n + 2 else 0xFFFF_FFFF_FFFF_FFFF
  }

  // ---- the decisions that would stand ----

  function Plain(r: DecisionRow): DecisionEdge {
    DecisionEdge(r.id, r.left, r.right, r.kind)
  }

  function Standing(rows: seq<DecisionRow>, left: Id, right: Id): seq<DecisionRow> {
    Filter(rows, (r: DecisionRow) => Stands(r, left, right))
  }

  function PlainEdges(rows: seq<DecisionRow>, left: Id, right: Id, kind: DecisionKind): seq<DecisionEdge> {
    Map(Standing(rows, left, right), Plain) + [DecisionEdge(0, left, right, kind)]
  }

  lemma MappedIn<T, U>(s: seq<T>, f: T -> U, u: U)
    ensures u in Map(s, f) <==> exists x :: x in s && f(x) == u
  {
    var all := Map(s, f);
    if u in all {
      var i :| 0 <= i < |all| && all[i] == u;
      assert s[i] in s;
    }
    if x :| x in s && f(x) == u {
      var i :| 0 <= i < |s| && s[i] == x;
      assert all[i] == u;
    }
  }

  lemma PlainEdgesAre(rows: seq<DecisionRow>, left: Id, right: Id, kind: DecisionKind, e: DecisionEdge)
    ensures e in PlainEdges(rows, left, right, kind) <==>
      || e == DecisionEdge(0, left, right, kind)
      || exists r :: r in rows && Stands(r, left, right) && e == Plain(r)
  {
    MappedIn(Standing(rows, left, right), Plain, e);
  }

  lemma PlainMatches(rows: seq<DecisionRow>, left: Id, right: Id, kind: DecisionKind)
    ensures MatchLinks(PlainEdges(rows, left, right, kind)) == JoinedPairs(rows, left, right, kind)
  {
    var edges := PlainEdges(rows, left, right, kind);
    forall e { PlainEdgesAre(rows, left, right, kind, e); }
    forall p | p in JoinedPairs(rows, left, right, kind) ensures p in MatchLinks(edges) {
      if r :| r in rows && Stands(r, left, right) && r.kind == Match && p == (r.left, r.right) {
        assert Plain(r) in edges;
      } else {
        assert DecisionEdge(0, left, right, kind) in edges;
      }
    }
  }

  lemma PlainPeaceful(rows: seq<DecisionRow>, left: Id, right: Id, kind: DecisionKind)
    ensures Consistent(PlainEdges(rows, left, right, kind)) <==> Peaceful(rows, left, right, kind)
  {
    var edges := PlainEdges(rows, left, right, kind);
    PlainMatches(rows, left, right, kind);
    forall e { PlainEdgesAre(rows, left, right, kind, e); }
    if Consistent(edges) {
      forall x, y | Decided(rows, left, right, kind, x, y, NotMatch) ensures !Connected(MatchLinks(edges), x, y) {
        if x == left && y == right && kind == NotMatch {
          assert DecisionEdge(0, left, right, kind) in edges;
        } else {
          var i :| 0 <= i < |rows| && Stands(rows[i], left, right)
            && rows[i].left == x && rows[i].right == y && rows[i].kind == NotMatch;
          assert Plain(rows[i]) in edges;
        }
      }
    }
    if Peaceful(rows, left, right, kind) {
      forall e | e in edges && e.kind.NotMatch? ensures !Connected(MatchLinks(edges), e.left, e.right) {
        if r :| r in rows && Stands(r, left, right) && e == Plain(r) {
          var i :| 0 <= i < |rows| && rows[i] == r;
        }
        assert Decided(rows, left, right, kind, e.left, e.right, NotMatch);
      }
    }
  }

  // ---- the decisions that are checked ----

  ghost predicate ChecksPair(rows: seq<DecisionRow>, left: Id, right: Id, proposed: DecisionEdge) {
    forall r | r in rows && r.current :: r.id != proposed.decision <==> Stands(r, left, right)
  }

  lemma ProposedIs(rows: seq<DecisionRow>, left: Id, right: Id, kind: DecisionKind)
    requires RowsValid(rows)
    ensures ChecksPair(rows, left, right, ProposedEdge(rows, left, right, kind))
  {
    var proposed := ProposedEdge(rows, left, right, kind);
    var row := DecisionRow(0, left, right, kind, 1, true, None);
    ProposedReplaces(rows, row, CurrentOf(rows, left, right), proposed);
  }

  lemma CheckedIn(rows: seq<DecisionRow>, left: Id, right: Id, proposed: DecisionEdge, f: DecisionEdge)
    requires ChecksPair(rows, left, right, proposed)
    ensures f in CurrentWith(CurrentEdges(rows), proposed) <==>
      || f == CanonicalEdge(proposed)
      || exists r :: r in rows && Stands(r, left, right) && f == CanonicalEdge(EdgeOf(r))
  {
    var others := Filter(CurrentEdges(rows), (e: DecisionEdge) => e.decision != proposed.decision);
    MappedIn(others, CanonicalEdge, f);
    if e :| e in others && CanonicalEdge(e) == f {
      CurrentEdgeMeans(rows, e);
      var r :| r in rows && r.current && e == EdgeOf(r);
      assert Stands(r, left, right);
    }
    if r :| r in rows && Stands(r, left, right) && f == CanonicalEdge(EdgeOf(r)) {
      CurrentEdgeMeans(rows, EdgeOf(r));
      assert EdgeOf(r) in others;
    }
  }

  lemma SameEnds(e: DecisionEdge, f: DecisionEdge)
    requires f == CanonicalEdge(e) || f == CanonicalEdge(CanonicalEdge(e))
    ensures f.kind == e.kind && Joins(f, e.left, e.right) && Joins(e, f.left, f.right)
  {
  }

  /** The proposed edge, before its ends are put in order. */
  lemma ProposedEnds(rows: seq<DecisionRow>, left: Id, right: Id, kind: DecisionKind)
    ensures var f := CanonicalEdge(ProposedEdge(rows, left, right, kind));
      f.kind == kind && Joins(f, left, right) && Joins(DecisionEdge(0, left, right, kind), f.left, f.right)
  {
    var proposed := ProposedEdge(rows, left, right, kind);
    SameEnds(DecisionEdge(proposed.decision, left, right, kind), CanonicalEdge(proposed));
  }

  lemma PlainCovered(rows: seq<DecisionRow>, left: Id, right: Id, kind: DecisionKind)
    requires ChecksPair(rows, left, right, ProposedEdge(rows, left, right, kind))
    ensures Covered(PlainEdges(rows, left, right, kind),
      CurrentWith(CurrentEdges(rows), ProposedEdge(rows, left, right, kind)))
  {
    var proposed := ProposedEdge(rows, left, right, kind);
    var checked, plain := CurrentWith(CurrentEdges(rows), proposed), PlainEdges(rows, left, right, kind);
    forall e | e in plain ensures exists f | f in checked :: f.kind == e.kind && Joins(f, e.left, e.right) {
      PlainEdgesAre(rows, left, right, kind, e);
      if r :| r in rows && Stands(r, left, right) && e == Plain(r) {
        SameEnds(e, CanonicalEdge(EdgeOf(r)));
        CheckedIn(rows, left, right, proposed, CanonicalEdge(EdgeOf(r)));
      } else {
        CheckedIn(rows, left, right, proposed, CanonicalEdge(proposed));
        ProposedEnds(rows, left, right, kind);
      }
    }
  }

  lemma CheckedCovered(rows: seq<DecisionRow>, left: Id, right: Id, kind: DecisionKind)
    requires ChecksPair(rows, left, right, ProposedEdge(rows, left, right, kind))
    ensures Covered(CurrentWith(CurrentEdges(rows), ProposedEdge(rows, left, right, kind)),
      PlainEdges(rows, left, right, kind))
  {
    var proposed := ProposedEdge(rows, left, right, kind);
    var checked, plain := CurrentWith(CurrentEdges(rows), proposed), PlainEdges(rows, left, right, kind);
    forall f | f in checked ensures exists e | e in plain :: e.kind == f.kind && Joins(e, f.left, f.right) {
      CheckedIn(rows, left, right, proposed, f);
      if r :| r in rows && Stands(r, left, right) && f == CanonicalEdge(EdgeOf(r)) {
        PlainEdgesAre(rows, left, right, kind, Plain(r));
        SameEnds(Plain(r), f);
      } else {
        PlainEdgesAre(rows, left, right, kind, DecisionEdge(0, left, right, kind));
        ProposedEnds(rows, left, right, kind);
      }
    }
  }

  lemma CheckedFromPlain(rows: seq<DecisionRow>, left: Id, right: Id, kind: DecisionKind)
    requires ChecksPair(rows, left, right, ProposedEdge(rows, left, right, kind))
    requires Consistent(PlainEdges(rows, left, right, kind))
    ensures Consistent(CurrentWith(CurrentEdges(rows), ProposedEdge(rows, left, right, kind)))
  {
    CheckedCovered(rows, left, right, kind);
    CoveredConsistent(CurrentWith(CurrentEdges(rows), ProposedEdge(rows, left, right, kind)),
      PlainEdges(rows, left, right, kind));
  }

  lemma PlainFromChecked(rows: seq<DecisionRow>, left: Id, right: Id, kind: DecisionKind)
    requires ChecksPair(rows, left, right, ProposedEdge(rows, left, right, kind))
    requires Consistent(CurrentWith(CurrentEdges(rows), ProposedEdge(rows, left, right, kind)))
    ensures Consistent(PlainEdges(rows, left, right, kind))
  {
    PlainCovered(rows, left, right, kind);
    CoveredConsistent(PlainEdges(rows, left, right, kind),
      CurrentWith(CurrentEdges(rows), ProposedEdge(rows, left, right, kind)));
  }

  lemma ConsistentMeans(rows: seq<DecisionRow>, left: Id, right: Id, kind: DecisionKind)
    requires RowsValid(rows)
    ensures Consistent(CurrentWith(CurrentEdges(rows), ProposedEdge(rows, left, right, kind))) <==>
      Peaceful(rows, left, right, kind)
  {
    ProposedIs(rows, left, right, kind);
    PlainPeaceful(rows, left, right, kind);
    if Peaceful(rows, left, right, kind) {
      CheckedFromPlain(rows, left, right, kind);
    } else if Consistent(CurrentWith(CurrentEdges(rows), ProposedEdge(rows, left, right, kind))) {
      PlainFromChecked(rows, left, right, kind);
      assert false;
    }
  }

  // ---- how many there are ----

  lemma {:induction false} FilterMapped<T, U>(s: seq<T>, f: T -> U, keep: U -> bool, good: T -> bool)
    requires forall x :: good(x) <==> keep(f(x))
    ensures |Filter(Map(s, f), keep)| == |Filter(s, good)|
  {
    if s != [] {
      FilterMapped(s[1..], f, keep, good);
      assert Map(s, f) == [f(s[0])] + Map(s[1..], f);
      FilterCons(f(s[0]), Map(s[1..], f), keep);
    }
  }

  lemma CheckedCount(rows: seq<DecisionRow>, left: Id, right: Id, proposed: DecisionEdge)
    requires ChecksPair(rows, left, right, proposed)
    ensures |CurrentWith(CurrentEdges(rows), proposed)| ==
      |Places(rows, (r: DecisionRow) => Stands(r, left, right))| + 1
  {
    var keep := (e: DecisionEdge) => e.decision != proposed.decision;
    var good := (r: DecisionRow) => r.id != proposed.decision;
    var stands := (r: DecisionRow) => Stands(r, left, right);
    FilterMapped(CurrentRows(rows), EdgeOf, keep, good);
    FilterCongruent(CurrentRows(rows), good, stands);
    FilterNested(rows, IsCurrent, stands);
    FilterSize(rows, stands);
  }

  // ---- the laws ----

  lemma VersionReadIs(rows: seq<DecisionRow>, left: Id, right: Id, expected: int)
    requires RowsValid(rows)
    ensures var version := VersionIn(CurrentOf(rows, left, right));
      expected == (if version.Some? then version.value else 0) <==> VersionRead(rows, left, right, expected)
  {
    var row := CurrentOf(rows, left, right);
    if row.Some? {
      var k :| 0 <= k < |rows| && rows[k] == row.value;
      forall i | 0 <= i < |rows| && rows[i].current && rows[i].left == left && rows[i].right == right ensures i == k {
      }
    } else {
      forall i | 0 <= i < |rows| ensures !ForEnds(rows[i], left, right) {
        assert rows[i] in rows;
      }
    }
  }

  lemma WithinLimitMeans(rows: seq<DecisionRow>, left: Id, right: Id, kind: DecisionKind, limit: nat)
    requires RowsValid(rows)
    ensures WithinLimit(CurrentEdges(rows), ProposedEdge(rows, left, right, kind), limit) <==>
      limit >= 1 && Work(rows, left, right) <= limit
  {
    ProposedIs(rows, left, right, kind);
    CheckedCount(rows, left, right, ProposedEdge(rows, left, right, kind));
  }

  /** A decision is accepted exactly for two different records at the version read, with room for the
      next numbers, when the work is within a positive limit and no separated pair would be joined. */
  lemma DecisionExplained(rows: seq<DecisionRow>, epoch: int, left: Id, right: Id, kind: DecisionKind, expected: int,
      limit: nat)
    requires TableValid(rows)
    ensures Decidable(rows, epoch, left, right, kind, expected, limit) <==>
      && left != right && VersionRead(rows, left, right, expected)
      && expected < 0x7FFF_FFFF_FFFF_FFFF && epoch < 0x7FFF_FFFF_FFFF_FFFF
      && limit >= 1 && Work(rows, left, right) <= limit
      && Peaceful(rows, left, right, kind)
  {
    VersionReadIs(rows, left, right, expected);
    ConsistentMeans(rows, left, right, kind);
    WithinLimitMeans(rows, left, right, kind, limit);
  }

  /** The row recorded names the one it replaces; that one alone stops being current. */
  lemma TableExplained(rows: seq<DecisionRow>, left: Id, right: Id, kind: DecisionKind, version: int, id: Id)
    requires TableValid(rows)
    ensures var row := DecisionRow(id, left, right, kind, version, true, IdIn(CurrentOf(rows, left, right)));
      var later := Superseded(rows, row);
      && |later| == |rows| + 1
      && (forall i | 0 <= i < |rows| ::
            later[i] == if rows[i].left == left && rows[i].right == right then rows[i].(current := false) else rows[i])
      && later[|rows|] == row
      && (forall i | 0 <= i < |rows| && rows[i].current && rows[i].left == left && rows[i].right == right ::
            row.supersedes == Some(rows[i].id))
      && ((forall i | 0 <= i < |rows| && rows[i].left == left && rows[i].right == right :: !rows[i].current) ==>
            row.supersedes == None)
  {
    var found := CurrentOf(rows, left, right);
    if found.Some? {
      var k :| 0 <= k < |rows| && rows[k] == found.value;
    }
    forall i | 0 <= i < |rows| ensures rows[i] in rows {
    }
  }
}
