/** Following an identity through merges and splits to what its members are now. */
module IdentityLineage {
  import opened Prelude
  import opened Sorting
  import opened Types
  import opened IdentitySpec
  import opened IdentityLedger

  /** Every revision at which members ever moved. */
  function MoveRevisions(b: Books): set<Revision> {
    (set a | a in b.aliases :: a.revision) + (set s | s in b.splits :: s.revision)
  }

  /** The revisions after `since` at which `p` passed members on. */
  function Later(b: Books, p: Id, since: Revision): set<Revision> {
    (set a | a in b.aliases && a.source == p && a.revision > since :: a.revision)
    + (set s | s in b.splits && s.parent == p && s.revision > since :: s.revision)
  }

  function Children(b: Books, p: Id, v: Revision): set<Id> {
    (set a | a in b.aliases && a.source == p && a.revision == v :: a.target)
    + (set s | s in b.splits && s.parent == p && s.revision == v :: s.child)
  }

  ghost function Remaining(b: Books, since: Revision): nat {
    |set v | v in MoveRevisions(b) && v > since|
  }

  lemma EarliestExists(revisions: set<Revision>)
    requires revisions != {}
    ensures exists v :: v in revisions && forall w | w in revisions :: v <= w
  {
    var rank := (v: Revision) => [v];
    var v := LeastByRank(revisions, rank);
    forall w | w in revisions ensures v <= w { assert LexLe(rank(v), rank(w)); }
  }

  ghost function Earliest(revisions: set<Revision>): (v: Revision)
    requires revisions != {}
    ensures v in revisions && forall w | w in revisions :: v <= w
  {
    EarliestExists(revisions);
    var v :| v in revisions && forall w | w in revisions :: v <= w;
    v
  }

  lemma RemainingShrinks(b: Books, p: Id, since: Revision)
    requires Later(b, p, since) != {}
    ensures Remaining(b, Earliest(Later(b, p, since))) < Remaining(b, since)
  {
    var v := Earliest(Later(b, p, since));
    var big, small := (set w | w in MoveRevisions(b) && w > since), (set w | w in MoveRevisions(b) && w > v);
    assert v in big;
    SubsetSize(small + {v}, big);
  }

  /** Where the members of `p` after publication `since` are now: each step takes the first later
      publication that moved them. */
  ghost function Terminals(b: Books, p: Id, since: Revision): set<Id>
    decreases Remaining(b, since)
  {
    if Later(b, p, since) == {} then {p}
    else
      var v := Earliest(Later(b, p, since));
      RemainingShrinks(b, p, since);
      set c, t | c in Children(b, p, v) && t in Terminals(b, c, v) :: t
  }

  lemma LaterMeans(b: Books, p: Id, since: Revision, v: Revision)
    ensures v in Later(b, p, since) <==> v > since && exists c :: Moves(b, p, v, c)
  {
    if v in Later(b, p, since) {
      if a :| a in b.aliases && a.source == p && a.revision == v {
        assert a == Alias(p, a.target, v) && Moves(b, p, v, a.target);
      } else {
        var s :| s in b.splits && s.parent == p && s.revision == v;
        assert s == Branch(p, s.child, v) && Moves(b, p, v, s.child);
      }
    }
    if v > since && exists c :: Moves(b, p, v, c) {
      var c :| Moves(b, p, v, c);
      if Alias(p, c, v) in b.aliases {
        assert Alias(p, c, v).revision in Later(b, p, since);
      } else {
        assert Branch(p, c, v).revision in Later(b, p, since);
      }
    }
  }

  lemma ChildrenMeans(b: Books, p: Id, v: Revision, c: Id)
    ensures c in Children(b, p, v) <==> Moves(b, p, v, c)
  {
    if c in Children(b, p, v) {
      if a :| a in b.aliases && a.source == p && a.revision == v && a.target == c {
        assert a == Alias(p, c, v);
      } else {
        var s :| s in b.splits && s.parent == p && s.revision == v && s.child == c;
        assert s == Branch(p, c, v);
      }
    }
    if Alias(p, c, v) in b.aliases { assert Alias(p, c, v).target in Children(b, p, v); }
    if Branch(p, c, v) in b.splits { assert Branch(p, c, v).child in Children(b, p, v); }
  }

  /** No identity is followed to a merged or a split one. */
  lemma {:induction false} TerminalsEnded(b: Books, now: Revision, p: Id, since: Revision, t: Id)
    requires Sound(b, now) && p in b.registry && t in Terminals(b, p, since)
    requires b.registry[p].retired.Some? ==> since < b.registry[p].retired.value
    ensures t in b.registry && (b.registry[t].status.Active? || b.registry[t].status.Retired?)
    decreases Remaining(b, since)
  {
    if Later(b, p, since) == {} {
      EndedHasMoved(b, now, p, since);
    } else {
      var v := Earliest(Later(b, p, since));
      RemainingShrinks(b, p, since);
      var c :| c in Children(b, p, v) && t in Terminals(b, c, v);
      ChildrenMeans(b, p, v, c);
      assert MoveSound(b, now, p, v, c);
      TerminalsEnded(b, now, c, v, t);
    }
  }

  lemma EndedHasMoved(b: Books, now: Revision, p: Id, since: Revision)
    requires Sound(b, now) && p in b.registry && (b.registry[p].retired.Some? ==> since < b.registry[p].retired.value)
    requires Later(b, p, since) == {}
    ensures b.registry[p].status.Active? || b.registry[p].status.Retired?
  {
    if b.registry[p].status.Merged? {
      var a :| a in b.aliases && a.source == p;
      LaterMeans(b, p, since, a.revision);
      assert Moves(b, p, a.revision, a.target);
    }
    if b.registry[p].status.Split? {
      var v, c :| b.registry[p].retired == Some(v) && Moves(b, p, v, c);
      LaterMeans(b, p, since, v);
    }
  }

  // ---- lineage over runs ----

  /** An identity that still lives leads to itself. */
  lemma {:induction false} ActiveReachesItself(b: Books, now: Revision, x: Id, since: Revision)
    requires Sound(b, now) && x in b.registry && b.registry[x].status.Active?
    ensures x in Terminals(b, x, since)
    decreases Remaining(b, since)
  {
    if Later(b, x, since) != {} {
      var v := Earliest(Later(b, x, since));
      RemainingShrinks(b, x, since);
      LaterMeans(b, x, since, v);
      var c :| Moves(b, x, v, c);
      assert MoveSound(b, now, x, v, c);
      ChildrenMeans(b, x, v, x);
      ActiveReachesItself(b, now, x, v);
    }
  }

  /** A publication continues the walk: whoever was reached is replaced by where its members went. */
  lemma {:induction false} WalkContinues(b: Books, n: Books, now: Revision, v: Revision, p: Id, since: Revision, t: Id,
      c: Id)
    requires Grown(b, n, now, v) && since <= now && t in Terminals(b, p, since)
    requires Moves(n, t, v, c) || (c == t && forall d :: !Moves(n, t, v, d))
    ensures c in Terminals(n, p, since)
    decreases Remaining(b, since)
  {
    if Later(b, p, since) == {} {
      LastStep(b, n, now, v, p, since, c);
    } else {
      var w := Earliest(Later(b, p, since));
      RemainingShrinks(b, p, since);
      var d :| d in Children(b, p, w) && t in Terminals(b, d, w);
      SameFirstStep(b, n, now, v, p, since);
      ChildrenMeans(b, p, w, d);
      ChildrenMeans(n, p, w, d);
      WalkContinues(b, n, now, v, d, w, t, c);
      RemainingShrinks(n, p, since);
    }
  }

  /** `n` has the history of `b` and, besides it, only moves made at `v`. */
  ghost predicate Grown(b: Books, n: Books, now: Revision, v: Revision) {
    && now < v
    && (forall p, w, c | Moves(b, p, w, c) :: w <= now)
    && (forall p, w, c | w <= now :: Moves(n, p, w, c) <==> Moves(b, p, w, c))
    && (forall p, w, c | Moves(n, p, w, c) :: w <= v)
    && (forall p, w, c | Moves(n, p, w, c) && w > now :: w == v)
  }

  lemma SameFirstStep(b: Books, n: Books, now: Revision, v: Revision, p: Id, since: Revision)
    requires Grown(b, n, now, v) && Later(b, p, since) != {}
    ensures Later(n, p, since) != {} && Earliest(Later(n, p, since)) == Earliest(Later(b, p, since)) <= now
  {
    var w := Earliest(Later(b, p, since));
    LaterMeans(b, p, since, w);
    var c :| Moves(b, p, w, c);
    assert Moves(n, p, w, c);
    LaterMeans(n, p, since, w);
    var u := Earliest(Later(n, p, since));
    LaterMeans(n, p, since, u);
    var d :| Moves(n, p, u, d);
    assert u <= w <= now;
    assert Moves(b, p, u, d);
    LaterMeans(b, p, since, u);
  }

  lemma LastStep(b: Books, n: Books, now: Revision, v: Revision, p: Id, since: Revision, c: Id)
    requires Grown(b, n, now, v) && since <= now && Later(b, p, since) == {}
    requires Moves(n, p, v, c) || (c == p && forall d :: !Moves(n, p, v, d))
    ensures c in Terminals(n, p, since)
  {
    forall w | w in Later(n, p, since) ensures w == v && exists d :: Moves(n, p, v, d) {
      LaterMeans(n, p, since, w);
      var d :| Moves(n, p, w, d);
      LaterMeans(b, p, since, w);
      assert w <= now ==> Moves(b, p, w, d);
    }
    if Moves(n, p, v, c) {
      LaterMeans(n, p, since, v);
      assert Earliest(Later(n, p, since)) == v;
      ChildrenMeans(n, p, v, c);
      NothingAfter(n, c, v);
    }
  }

  lemma NothingAfter(n: Books, c: Id, v: Revision)
    requires forall p, w, d | Moves(n, p, w, d) :: w <= v
    ensures Terminals(n, c, v) == {c}
  {
    forall w ensures w !in Later(n, c, v) { LaterMeans(n, c, v, w); }
  }

  lemma StepGrows(b: Books, now: Revision, p: Publication)
    requires Sound(b, now) && Publishable(b, now, p)
    ensures Grown(b, Step(b, p), now, p.revision)
  {
    var a := Assigned(b, p.rows, p.supply);
    AssignedContinuous(b, p.rows, p.supply);
    var n := Step(b, p);
    forall x, w, c | Moves(b, x, w, c) ensures w <= now { assert MoveSound(b, now, x, w, c); }
    forall x, w, c | w != p.revision ensures Moves(n, x, w, c) <==> Moves(b, x, w, c) {
      OldMoves(b, p.rows, a, p.revision, x, w, c);
    }
  }

  /** A record either moves with the publication or its identity stays where it is. */
  lemma MemberGoes(b: Books, now: Revision, p: Publication, r: Id)
    requires Sound(b, now) && Publishable(b, now, p)
    requires r in b.members && b.members[r].active && r in p.rows
    ensures r in Step(b, p).members && Step(b, p).members[r].active
    ensures var n := Step(b, p); var t, c := b.members[r].identity, n.members[r].identity;
      Moves(n, t, p.revision, c) || (c == t && forall d :: !Moves(n, t, p.revision, d))
  {
    var n, a := Step(b, p), Assigned(b, p.rows, p.supply);
    AssignedContinuous(b, p.rows, p.supply);
    MemberStep(b, now, p.rows, a, p.revision, r);
    SuccessorOf(b, p.rows, a, r);
    var t := b.members[r].identity;
    forall d ensures Moves(n, t, p.revision, d) <==>
      d in Successors(b, p.rows, a, t) && Successors(b, p.rows, a, t) != {t} {
      NewMoves(b, now, p.rows, a, p.revision, t, d);
    }
  }

  /** One publication keeps a still active record reachable. */
  lemma StepKeepsLineage(b: Books, now: Revision, p: Publication, r: Id, x: Id, since: Revision)
    requires Sound(b, now) && Publishable(b, now, p) && since <= now
    requires r in b.members && b.members[r].active && r in p.rows
    requires b.members[r].identity in Terminals(b, x, since)
    ensures var n := Step(b, p);
      r in n.members && n.members[r].active && n.members[r].identity in Terminals(n, x, since)
  {
    MemberGoes(b, now, p, r);
    StepGrows(b, now, p);
    WalkContinues(b, Step(b, p), now, p.revision, x, since, b.members[r].identity, Step(b, p).members[r].identity);
  }

  lemma {:induction false} LineageFrom(b: Books, now: Revision, run: seq<Publication>, r: Id, x: Id, since: Revision)
    requires Sound(b, now) && ValidRun(b, now, run) && since <= now
    requires r in b.members && b.members[r].active && b.members[r].identity in Terminals(b, x, since)
    requires forall p | p in run :: r in p.rows
    ensures var n := After(b, run); r in n.members && n.members[r].identity in Terminals(n, x, since)
    decreases |run|
  {
    if run != [] {
      NextSound(b, now, run[0]);
      StepKeepsLineage(b, now, run[0], r, x, since);
      LineageFrom(Step(b, run[0]), run[0].revision, run[1..], r, x, since);
    }
  }

  /** Lineage is complete. A record that was an active member of `x` and was resolved in every later
      publication is found, whatever happened since, by following `x`. */
  lemma LineageComplete(b: Books, now: Revision, run: seq<Publication>, r: Id, since: Revision)
    requires Sound(b, now) && ValidRun(b, now, run) && since <= now
    requires r in b.members && b.members[r].active
    requires forall p | p in run :: r in p.rows
    ensures var n := After(b, run);
      r in n.members && n.members[r].identity in Terminals(n, b.members[r].identity, since)
  {
    var x := b.members[r].identity;
    assert HasActiveMember(b, x);
    ActiveReachesItself(b, now, x, since);
    LineageFrom(b, now, run, r, x, since);
  }
}
