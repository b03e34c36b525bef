/** The resolver and the set-based reference resolver agree. */
module OracleRefinement {
  import opened Prelude
  import opened Folding
  import opened Types
  import opened ResolverSpec
  import opened ResolverSafety
  import opened ResolverTheorems
  import opened Components
  import opened Oracle
  import Resolver

  // ---- the component list mirrors the partition ----

  ghost predicate Holds(comps: seq<SetComponent>, members: set<Id>) {
    exists i: nat :: i < |comps| && comps[i].members == members
  }

  /** The non-empty components are the classes, each with the claims of its members. */
  ghost predicate Mirrors(comps: seq<SetComponent>, part: Partition, records: Records) {
    && IsPartition(part) && part.Keys == records.Keys
    && (forall id | id in part :: Holds(comps, part[id]))
    && (forall i: nat, j: nat {:trigger comps[i], comps[j]} | i < j < |comps| :: comps[i].members !! comps[j].members)
    && (forall i: nat {:trigger comps[i]} | i < |comps| ::
          comps[i].members <= part.Keys && Pairs(comps[i].authority) == Claims(comps[i].members, records))
  }

  lemma IndexFinds(comps: seq<SetComponent>, id: Id, i: nat)
    requires i < |comps| && id in comps[i].members
    ensures ComponentIndex(comps, id).Some?
  {
    if id !in comps[0].members { IndexFinds(comps[1..], id, i - 1); }
  }

  lemma MirrorAt(comps: seq<SetComponent>, part: Partition, records: Records, id: Id)
    requires Mirrors(comps, part, records)
    ensures ComponentIndex(comps, id).Some? <==> id in part
    ensures id in part ==>
      ComponentIndex(comps, id).value < |comps| && comps[ComponentIndex(comps, id).value].members == part[id]
  {
    IndexInRange(comps, id);
    if id in part {
      var i: nat :| i < |comps| && comps[i].members == part[id];
      IndexFinds(comps, id, i);
      var j := ComponentIndex(comps, id).value;
      assert id in comps[i].members && id in comps[j].members;
      assert i == j;
    }
  }

  lemma MirrorSame(comps: seq<SetComponent>, part: Partition, records: Records, a: Id, b: Id)
    requires Mirrors(comps, part, records) && a in part && b in part
    ensures ComponentIndex(comps, a) == ComponentIndex(comps, b) <==> part[a] == part[b]
  {
    MirrorAt(comps, part, records, a);
    MirrorAt(comps, part, records, b);
    var i, j := ComponentIndex(comps, a).value, ComponentIndex(comps, b).value;
    if part[a] == part[b] {
      assert b in comps[i].members && b in comps[j].members;
      assert i == j;
    }
  }

  lemma MergedPairs(l: Authority, r: Authority)
    ensures Pairs(MergeAuthority(l, r)) == Pairs(l) + Pairs(r)
  {
    var m := MergeAuthority(l, r);
    forall p ensures p in Pairs(m) <==> p in Pairs(l) || p in Pairs(r) {
      assert p == (p.0, p.1);
      assert p in Pairs(m) <==> p.0 in m && p.1 in m[p.0];
      assert p in Pairs(l) <==> p.0 in l && p.1 in l[p.0];
      assert p in Pairs(r) <==> p.0 in r && p.1 in r[p.0];
    }
  }

  /** What the list holds after absorbing one component into another. */
  lemma AbsorbAt(comps: seq<SetComponent>, l: nat, r: nat, records: Records)
    requires l < |comps| && r < |comps| && l != r
    requires Pairs(comps[l].authority) == Claims(comps[l].members, records)
      && Pairs(comps[r].authority) == Claims(comps[r].members, records)
    ensures var after := Absorb(comps, l, r);
      && |after| == |comps| && after[r] == NOTHING
      && after[l].members == comps[l].members + comps[r].members
      && Pairs(after[l].authority) == Claims(after[l].members, records)
      && forall i: nat | i < |comps| && i != l && i != r :: after[i] == comps[i]
  {
    MergedPairs(comps[l].authority, comps[r].authority);
    Resolver.ClaimsUnion(comps[l].members, comps[r].members, records);
  }

  lemma NothingClaims(records: Records)
    ensures Pairs(NOTHING.authority) == {} == Claims({}, records)
  {
  }

  lemma AbsorbShape(comps: seq<SetComponent>, part: Partition, records: Records, l: nat, r: nat)
    requires Mirrors(comps, part, records) && l < |comps| && r < |comps| && l != r
    ensures var after := Absorb(comps, l, r);
      && (forall i: nat, j: nat {:trigger after[i], after[j]} | i < j < |after| :: after[i].members !! after[j].members)
      && (forall i: nat {:trigger after[i]} | i < |after| ::
            after[i].members <= part.Keys && Pairs(after[i].authority) == Claims(after[i].members, records))
  {
    AbsorbAt(comps, l, r, records);
    NothingClaims(records);
    var after := Absorb(comps, l, r);
    forall i: nat, j: nat | i < j < |after| ensures after[i].members !! after[j].members {
      assert i != l && i != r ==> after[i] == comps[i];
      assert j != l && j != r ==> after[j] == comps[j];
      assert comps[i].members !! comps[j].members;
      if i == l && j != r { DisjointPair(comps, r, j); }
      if j == l && i != r { DisjointPair(comps, r, i); }
    }
    forall i: nat | i < |after|
      ensures after[i].members <= part.Keys && Pairs(after[i].authority) == Claims(after[i].members, records)
    {
      assert i != l && i != r ==> after[i] == comps[i];
      assert comps[l].members <= part.Keys && comps[r].members <= part.Keys;
    }
  }

  lemma DisjointPair(comps: seq<SetComponent>, i: nat, j: nat)
    requires forall i: nat, j: nat {:trigger comps[i], comps[j]} | i < j < |comps| ::
      comps[i].members !! comps[j].members
    requires i < |comps| && j < |comps| && i != j
    ensures comps[i].members !! comps[j].members
  {
    if i < j { assert comps[i].members !! comps[j].members; } else { assert comps[j].members !! comps[i].members; }
  }

  lemma AbsorbHolds(comps: seq<SetComponent>, part: Partition, records: Records, a: Id, b: Id, l: nat, r: nat, x: Id)
    requires Mirrors(comps, part, records) && a in part && b in part && x in part && part[a] != part[b]
    requires ComponentIndex(comps, a) == Some(l) && ComponentIndex(comps, b) == Some(r) && l < |comps| && r < |comps|
      && l != r
    ensures Holds(Absorb(comps, l, r), ResolverSpec.Merge(part, a, b)[x])
  {
    MirrorAt(comps, part, records, a);
    MirrorAt(comps, part, records, b);
    AbsorbAt(comps, l, r, records);
    var after := Absorb(comps, l, r);
    InClass(part, x, a);
    InClass(part, x, b);
    if x in part[a] || x in part[b] {
      assert after[l].members == ResolverSpec.Merge(part, a, b)[x];
    } else {
      MirrorAt(comps, part, records, x);
      var i := ComponentIndex(comps, x).value;
      assert i != l && i != r && after[i] == comps[i];
      assert after[i].members == ResolverSpec.Merge(part, a, b)[x];
    }
  }

  lemma AbsorbMirrors(comps: seq<SetComponent>, part: Partition, records: Records, a: Id, b: Id, l: nat, r: nat)
    requires Mirrors(comps, part, records) && a in part && b in part && part[a] != part[b]
    requires ComponentIndex(comps, a) == Some(l) && ComponentIndex(comps, b) == Some(r) && l < |comps| && r < |comps|
      && l != r
    ensures Mirrors(Absorb(comps, l, r), ResolverSpec.Merge(part, a, b), records)
  {
    MergePartition(part, a, b);
    AbsorbShape(comps, part, records, l, r);
    forall x | x in part ensures Holds(Absorb(comps, l, r), ResolverSpec.Merge(part, a, b)[x]) {
      AbsorbHolds(comps, part, records, a, b, l, r, x);
    }
  }

  lemma StartAt(ids: seq<Id>, records: Records)
    requires forall id | id in ids :: id in records
    ensures |StartSets(ids, records)| == |ids|
    ensures forall i: nat | i < |ids| :: StartSets(ids, records)[i] == SingletonSet(records[ids[i]])
  {
    if ids != [] {
      StartAt(ids[1..], records);
    }
  }

  lemma SingletonClaims(r: Record, records: Records)
    requires r.id in records && records[r.id] == r
    ensures Pairs(SingletonSet(r).authority) == Claims({r.id}, records)
  {
    var a := SingletonSet(r).authority;
    forall p ensures p in Pairs(a) <==> p in Claims({r.id}, records) {
      assert p == (p.0, p.1);
      assert p in Pairs(a) <==> p.0 in a && p.1 in a[p.0];
    }
  }

  lemma StartComponent(ids: seq<Id>, records: Records, i: nat)
    requires WellKeyed(records) && (forall id | id in ids :: id in records) && i < |ids|
    ensures |StartSets(ids, records)| == |ids|
    ensures var comp := StartSets(ids, records)[i];
      comp.members == {ids[i]} && ids[i] in records && Pairs(comp.authority) == Claims(comp.members, records)
  {
    StartAt(ids, records);
    assert ids[i] in ids;
    SingletonClaims(records[ids[i]], records);
  }

  lemma StartHolds(ids: seq<Id>, records: Records, id: Id)
    requires WellKeyed(records) && (forall id | id in ids :: id in records) && id in ids
    ensures Holds(StartSets(ids, records), {id})
  {
    var i: nat :| i < |ids| && ids[i] == id;
    StartComponent(ids, records, i);
  }

  lemma StartMirrors(records: Records)
    requires WellKeyed(records)
    ensures forall id | id in Ascending(records.Keys) :: id in records
    ensures Mirrors(StartSets(Ascending(records.Keys), records), Singletons(records), records)
  {
    var ids := Ascending(records.Keys);
    AscendingEnumerates(records.Keys);
    forall i: nat, j: nat | i < j < |ids| ensures ids[i] != ids[j] {}
    ListMirrors(ids, records);
  }

  lemma ListMirrors(ids: seq<Id>, records: Records)
    requires WellKeyed(records) && forall id :: id in ids <==> id in records
    requires forall i: nat, j: nat | i < j < |ids| :: ids[i] != ids[j]
    ensures Mirrors(StartSets(ids, records), Singletons(records), records)
  {
    SingletonsPartition(records);
    StartDisjoint(ids, records);
    StartRows(ids, records);
    StartHoldsAll(ids, records);
  }

  lemma StartHoldsAll(ids: seq<Id>, records: Records)
    requires WellKeyed(records) && forall id :: id in ids <==> id in records
    ensures forall id | id in Singletons(records) :: Holds(StartSets(ids, records), Singletons(records)[id])
  {
    forall id | id in records ensures Holds(StartSets(ids, records), Singletons(records)[id]) {
      StartHolds(ids, records, id);
    }
  }

  lemma StartDisjoint(ids: seq<Id>, records: Records)
    requires WellKeyed(records) && forall id | id in ids :: id in records
    requires forall i: nat, j: nat | i < j < |ids| :: ids[i] != ids[j]
    ensures var comps := StartSets(ids, records);
      forall i: nat, j: nat {:trigger comps[i], comps[j]} | i < j < |comps| :: comps[i].members !! comps[j].members
  {
    var comps := StartSets(ids, records);
    StartAt(ids, records);
    forall i: nat, j: nat | i < j < |comps| ensures comps[i].members !! comps[j].members {
      StartComponent(ids, records, i);
      StartComponent(ids, records, j);
    }
  }

  lemma StartRows(ids: seq<Id>, records: Records)
    requires WellKeyed(records) && forall id | id in ids :: id in records
    ensures var comps := StartSets(ids, records);
      forall i: nat {:trigger comps[i]} | i < |comps| ::
        comps[i].members <= records.Keys && Pairs(comps[i].authority) == Claims(comps[i].members, records)
  {
    var comps := StartSets(ids, records);
    StartAt(ids, records);
    forall i: nat | i < |comps|
      ensures comps[i].members <= records.Keys && Pairs(comps[i].authority) == Claims(comps[i].members, records)
    {
      StartComponent(ids, records, i);
    }
  }

  // ---- the steps agree ----

  ghost predicate Alike(s: Clustering, t: Sets, records: Records) {
    Mirrors(t.comps, s.part, records) && s.accepted == t.accepted && s.rejected == t.rejected
  }

  lemma ManualMergesAgree(c: Context, s: Clustering, t: Sets, e: ManualEdge, l: nat, r: nat)
    requires Alike(s, t, c.records) && e.pair.left in s.part && e.pair.right in s.part && l < |t.comps|
      && r < |t.comps| && l != r
    requires ComponentIndex(t.comps, e.pair.left) == Some(l) && ComponentIndex(t.comps, e.pair.right) == Some(r)
    requires t.comps[l].members == s.part[e.pair.left] && t.comps[r].members == s.part[e.pair.right]
    requires s.part[e.pair.left] != s.part[e.pair.right]
    ensures Alike(Clustering(ResolverSpec.Merge(s.part, e.pair.left, e.pair.right),
      s.accepted + [ManualFact(c, s.part, e)], s.rejected),
      Sets(Absorb(t.comps, l, r),
           t.accepted + [MakeFact(e.pair, ComponentKey(t.comps[l].members, c.records),
             ComponentKey(t.comps[r].members, c.records), Accepted, ManualMatched, [])],
           t.rejected), c.records)
  {
    AbsorbMirrors(t.comps, s.part, c.records, e.pair.left, e.pair.right, l, r);
  }

  lemma ManualEndsKnown(c: Context, s: Clustering, t: Sets, e: ManualEdge)
    requires Alike(s, t, c.records)
    ensures OracleManualStep(c, t, e) == Err(Invalid) <==> e.pair.left !in s.part || e.pair.right !in s.part
  {
    MirrorAt(t.comps, s.part, c.records, e.pair.left);
    MirrorAt(t.comps, s.part, c.records, e.pair.right);
  }

  lemma ManualStepsAgree(c: Context, s: Clustering, t: Sets, e: ManualEdge)
    requires Alike(s, t, c.records)
    ensures ManualStep(c, s, e).Ok? <==> OracleManualStep(c, t, e).Ok?
    ensures ManualStep(c, s, e).Ok? ==> Alike(ManualStep(c, s, e).value, OracleManualStep(c, t, e).value, c.records)
  {
    var a, b := e.pair.left, e.pair.right;
    ManualEndsKnown(c, s, t, e);
    if a in s.part && b in s.part {
      MirrorAt(t.comps, s.part, c.records, a);
      MirrorAt(t.comps, s.part, c.records, b);
      MirrorSame(t.comps, s.part, c.records, a, b);
      if s.part[a] != s.part[b] {
        ManualMergesAgree(c, s, t, e, ComponentIndex(t.comps, a).value, ComponentIndex(t.comps, b).value);
      }
    }
  }

  lemma EstablishedAgree(left: SetComponent, right: SetComponent, c: Context)
    requires Pairs(left.authority) == Claims(left.members, c.records)
      && Pairs(right.authority) == Claims(right.members, c.records)
    ensures OracleEstablished(left, right, c) == EstablishedRejects(left.members, right.members, c.decisions, c.records)
  {
    SharedAuthorityMeans(left.authority, right.authority);
  }

  lemma AdmissionsAgree(left: SetComponent, right: SetComponent, c: Context, d: PairDecision)
    requires Pairs(left.authority) == Claims(left.members, c.records)
      && Pairs(right.authority) == Claims(right.members, c.records)
    ensures OracleAdmission(left, right, c, d) == Admission(c, left.members, right.members, d)
  {
    AuthoritiesConflictMeans(left.authority, right.authority);
    EstablishedAgree(left, right, c);
  }

  lemma MirrorClaims(comps: seq<SetComponent>, part: Partition, records: Records, i: nat)
    requires Mirrors(comps, part, records) && i < |comps|
    ensures Pairs(comps[i].authority) == Claims(comps[i].members, records)
  {
  }

  lemma VerdictsAgree(c: Context, s: Clustering, t: Sets, d: PairDecision, l: nat, r: nat)
    requires Alike(s, t, c.records) && d.left in s.part && d.right in s.part
    requires ComponentIndex(t.comps, d.left) == Some(l) && ComponentIndex(t.comps, d.right) == Some(r)
    requires l < |t.comps| && r < |t.comps|
    ensures OracleAdmission(t.comps[l], t.comps[r], c, d) == Verdict(c, s.part, d)
  {
    MirrorAt(t.comps, s.part, c.records, d.left);
    MirrorAt(t.comps, s.part, c.records, d.right);
    MirrorClaims(t.comps, s.part, c.records, l);
    MirrorClaims(t.comps, s.part, c.records, r);
    AdmissionsAgree(t.comps[l], t.comps[r], c, d);
  }

  lemma ConnectedStepsAgree(c: Context, s: Clustering, t: Sets, d: PairDecision, checks: nat, l: nat)
    requires Alike(s, t, c.records) && checks < c.limits.maxComponentChecks
    requires d.left in s.part && d.right in s.part && s.part[d.left] == s.part[d.right]
    requires ComponentIndex(t.comps, d.left) == Some(l) == ComponentIndex(t.comps, d.right)
    requires l < |t.comps| && t.comps[l].members == s.part[d.left]
    ensures AutomaticStep(c, s, d, checks).Ok? && OracleAutomaticStep(c, t, d).Ok?
    ensures Alike(AutomaticStep(c, s, d, checks).value, OracleAutomaticStep(c, t, d).value, c.records)
  {
  }

  /** What the resolver does with an edge between two classes, given the verdict. */
  ghost function Conclude(c: Context, s: Clustering, d: PairDecision,
      verdict: Option<Reason>): Result<Clustering, Error>
    requires Known(c, s.part, d.left) && Known(c, s.part, d.right)
  {
    var edge := PairKeyOf(d.left, d.right, c.records);
    var left, right := ComponentKey(s.part[d.left], c.records), ComponentKey(s.part[d.right], c.records);
    match verdict
    case Some(reason) => Ok(Clustering(s.part, s.accepted,
      s.rejected + [MakeFact(edge, left, right, Rejected, reason, d.groups)]))
    case None =>
      var size := |s.part[d.left]| + |s.part[d.right]|;
      if size > c.limits.maxRecordsPerComponent then
        Err(Limit(MaxRecordsPerComponent, size, c.limits.maxRecordsPerComponent))
      else Ok(Clustering(ResolverSpec.Merge(s.part, d.left, d.right),
                         s.accepted + [MakeFact(edge, left, right, Accepted, ReasonFor(d.result), d.groups)],
                           s.rejected))
  }

  lemma StepConcludes(c: Context, s: Clustering, d: PairDecision, checks: nat)
    requires Known(c, s.part, d.left) && Known(c, s.part, d.right) && s.part[d.left] != s.part[d.right]
    requires checks < c.limits.maxComponentChecks
    ensures AutomaticStep(c, s, d, checks) == Conclude(c, s, d, Verdict(c, s.part, d))
  {
    FactVerdict(c, s.part, d);
  }

  lemma ConclusionsAgree(c: Context, s: Clustering, t: Sets, d: PairDecision, l: nat, r: nat, verdict: Option<Reason>)
    requires s.accepted == t.accepted && s.rejected == t.rejected && Mirrors(t.comps, s.part, c.records)
    requires Known(c, s.part, d.left) && Known(c, s.part, d.right)
    requires l < |t.comps| && r < |t.comps| && t.comps[l].members == s.part[d.left]
      && t.comps[r].members == s.part[d.right]
    requires Mirrors(Absorb(t.comps, l, r), ResolverSpec.Merge(s.part, d.left, d.right), c.records)
    ensures Conclude(c, s, d, verdict).Ok? <==> OracleConclude(c, t, d, l, r, verdict).Ok?
    ensures Conclude(c, s, d, verdict).Ok? ==>
      Alike(Conclude(c, s, d, verdict).value, OracleConclude(c, t, d, l, r, verdict).value, c.records)
  {
  }

  lemma OracleConcludes(c: Context, t: Sets, d: PairDecision, l: nat, r: nat)
    requires ComponentIndex(t.comps, d.left) == Some(l) && ComponentIndex(t.comps, d.right) == Some(r) && l != r
    requires l < |t.comps| && r < |t.comps| && d.left in c.records && d.right in c.records
    ensures OracleAutomaticStep(c, t, d) == OracleConclude(c, t, d, l, r, OracleAdmission(t.comps[l], t.comps[r], c, d))
  {
  }

  lemma SeparateStepsAgree(c: Context, s: Clustering, t: Sets, d: PairDecision, checks: nat, l: nat, r: nat)
    requires Alike(s, t, c.records) && checks < c.limits.maxComponentChecks
    requires d.left in s.part && d.right in s.part && s.part[d.left] != s.part[d.right]
    requires ComponentIndex(t.comps, d.left) == Some(l) && ComponentIndex(t.comps, d.right) == Some(r) && l != r
    requires l < |t.comps| && r < |t.comps| && t.comps[l].members == s.part[d.left]
      && t.comps[r].members == s.part[d.right]
    ensures AutomaticStep(c, s, d, checks).Ok? <==> OracleAutomaticStep(c, t, d).Ok?
    ensures AutomaticStep(c, s, d, checks).Ok? ==>
      Alike(AutomaticStep(c, s, d, checks).value, OracleAutomaticStep(c, t, d).value, c.records)
  {
    StepConcludes(c, s, d, checks);
    OracleConcludes(c, t, d, l, r);
    VerdictsAgree(c, s, t, d, l, r);
    AbsorbMirrors(t.comps, s.part, c.records, d.left, d.right, l, r);
    ConclusionsAgree(c, s, t, d, l, r, Verdict(c, s.part, d));
  }

  lemma UnknownStepsAgree(c: Context, s: Clustering, t: Sets, d: PairDecision, checks: nat)
    requires Alike(s, t, c.records) && checks < c.limits.maxComponentChecks
    requires d.left !in s.part || d.right !in s.part
    requires ComponentIndex(t.comps, d.left).None? || ComponentIndex(t.comps, d.right).None?
    ensures AutomaticStep(c, s, d, checks).Err? && OracleAutomaticStep(c, t, d).Err?
  {
  }

  lemma AutomaticStepsAgree(c: Context, s: Clustering, t: Sets, d: PairDecision, checks: nat)
    requires Alike(s, t, c.records) && checks < c.limits.maxComponentChecks
    ensures AutomaticStep(c, s, d, checks).Ok? <==> OracleAutomaticStep(c, t, d).Ok?
    ensures AutomaticStep(c, s, d, checks).Ok? ==>
      Alike(AutomaticStep(c, s, d, checks).value, OracleAutomaticStep(c, t, d).value, c.records)
  {
    MirrorAt(t.comps, s.part, c.records, d.left);
    MirrorAt(t.comps, s.part, c.records, d.right);
    if d.left !in s.part || d.right !in s.part {
      UnknownStepsAgree(c, s, t, d, checks);
    } else {
      MirrorSame(t.comps, s.part, c.records, d.left, d.right);
      var l, r := ComponentIndex(t.comps, d.left).value, ComponentIndex(t.comps, d.right).value;
      if s.part[d.left] == s.part[d.right] {
        ConnectedStepsAgree(c, s, t, d, checks, l);
      } else {
        SeparateStepsAgree(c, s, t, d, checks, l, r);
      }
    }
  }

  // ---- the runs agree ----

  lemma ManualPhasesAgree(c: Context, s: Clustering, t: Sets, edges: seq<ManualEdge>)
    requires Alike(s, t, c.records)
    ensures ManualPhase(c, s, edges).Ok? <==> Fold(OracleManualStepper(c), t, edges, 0).Ok?
    ensures ManualPhase(c, s, edges).Ok? ==>
      Alike(ManualPhase(c, s, edges).value, Fold(OracleManualStepper(c), t, edges, 0).value, c.records)
  {
    var rel := (u: Clustering, v: Sets) => Alike(u, v, c.records);
    var first, second := ManualStepper(c), OracleManualStepper(c);
    forall u, v, e, i: nat | rel(u, v)
      ensures (first(u, e, i).Ok? <==> second(v, e, i).Ok?)
        && (first(u, e, i).Ok? ==> rel(first(u, e, i).value, second(v, e, i).value))
    {
      ManualStepsAgree(c, u, v, e);
    }
    FoldAgree(first, second, s, t, edges, 0, |edges|, (e: ManualEdge) => true, rel);
  }

  lemma AutomaticPhasesAgree(c: Context, s: Clustering, t: Sets, edges: seq<PairDecision>)
    requires Alike(s, t, c.records) && |edges| <= c.limits.maxComponentChecks
    ensures AutomaticPhase(c, s, edges).Ok? <==> Fold(OracleAutomaticStepper(c), t, edges, 0).Ok?
    ensures AutomaticPhase(c, s, edges).Ok? ==>
      Alike(AutomaticPhase(c, s, edges).value, Fold(OracleAutomaticStepper(c), t, edges, 0).value, c.records)
  {
    var rel := (u: Clustering, v: Sets) => Alike(u, v, c.records);
    var first, second := AutomaticStepper(c), OracleAutomaticStepper(c);
    forall u, v, e, i: nat | rel(u, v) && i < c.limits.maxComponentChecks
      ensures (first(u, e, i).Ok? <==> second(v, e, i).Ok?)
        && (first(u, e, i).Ok? ==> rel(first(u, e, i).value, second(v, e, i).value))
    {
      AutomaticStepsAgree(c, u, v, e, i);
    }
    FoldAgree(first, second, s, t, edges, 0, c.limits.maxComponentChecks, (e: PairDecision) => true, rel);
  }

  lemma {:induction false} ChecksBounded(c: Context, s: Clustering, edges: seq<PairDecision>, n: nat)
    requires Fold(AutomaticStepper(c), s, edges, n).Ok? && n <= c.limits.maxComponentChecks
    ensures n + |edges| <= c.limits.maxComponentChecks
    decreases |edges|
  {
    if edges != [] {
      ChecksBounded(c, AutomaticStep(c, s, edges[0], n).value, edges[1..], n + 1);
    }
  }

  lemma RowsAgree(ids: seq<Id>, comps: seq<SetComponent>, part: Partition, records: Records)
    requires Mirrors(comps, part, records) && forall id | id in ids :: id in records
    ensures SetMemberships(ids, comps, records) == Memberships(ids, part, records)
  {
    if ids != [] {
      MirrorAt(comps, part, records, ids[0]);
      RowsAgree(ids[1..], comps, part, records);
    }
  }

  lemma FinishAgrees(s: Clustering, t: Sets, records: Records)
    requires Alike(s, t, records)
    ensures OracleFinish(t, records) == Finish(s, records)
  {
    AscendingEnumerates(records.Keys);
    RowsAgree(Ascending(records.Keys), t.comps, s.part, records);
  }

  lemma LinksAgree(s: Clustering, t: Sets, c: Context)
    requires Alike(s, t, c.records) && forall p | p in c.cannot :: p.0 in c.records && p.1 in c.records
    ensures SetsLinkInside(t.comps, c.cannot) <==> LinkInside(s.part, c.cannot)
  {
    forall p | p in c.cannot
      ensures ComponentIndex(t.comps, p.0) == ComponentIndex(t.comps, p.1) <==> s.part[p.0] == s.part[p.1] {
      MirrorSame(t.comps, s.part, c.records, p.0, p.1);
    }
  }

  /** After indexing, both resolvers succeed together, with the same rows and facts in the same
      order, as long as the check limit is not what stops the resolver. */
  lemma ClustersAgree(c: Context, manual: seq<ManualEdge>, automatic: seq<PairDecision>, known: bool)
    requires WellKeyed(c.records) && (forall p | p in c.cannot :: p.0 in c.records && p.1 in c.records)
    requires |automatic| <= c.limits.maxComponentChecks
    ensures Clustered(c, manual, automatic, known).Ok? <==> OracleCluster(c, manual, automatic, known).Ok?
    ensures Clustered(c, manual, automatic, known).Ok? ==>
      OracleCluster(c, manual, automatic, known).value
        == Finish(Clustered(c, manual, automatic, known).value, c.records)
  {
    StartMirrors(c.records);
    var start := Sets(StartSets(Ascending(c.records.Keys), c.records), [], []);
    ManualPhasesAgree(c, Start(c), start, manual);
    if ManualPhase(c, Start(c), manual).Ok? {
      var s, t := ManualPhase(c, Start(c), manual).value, Fold(OracleManualStepper(c), start, manual, 0).value;
      LinksAgree(s, t, c);
      AutomaticPhasesAgree(c, s, t, automatic);
      if AutomaticPhase(c, s, automatic).Ok? {
        FinishAgrees(AutomaticPhase(c, s, automatic).value, Fold(OracleAutomaticStepper(c), t, automatic, 0).value,
          c.records);
      }
    }
  }

  lemma LastIsIndex(records: seq<Record>)
    requires UniqueRecords(records)
    ensures LastById(records) == Index(records)
  {
    if records != [] {
      var n := |records| - 1;
      LastIsIndex(records[..n]);
      forall q | q in records[..n] ensures q.key != records[n].key && q.id != records[n].id {
        var i :| 0 <= i < n && records[..n][i] == q;
        assert records[i] == q;
      }
      Resolver.UniqueNext(records[..n], records[n]);
      assert records == records[..n] + [records[n]];
    }
  }

  /** On inputs with distinct record ids and sort keys and within the check limit, the resolver and
      the reference resolver accept the same inputs and give the same result. */
  lemma ResolversAgree(input: Input)
    requires UniqueRecords(input.records) && |Automatic(input)| <= input.limits.maxComponentChecks
    ensures Resolve(input).Ok? <==> OracleResolve(input).Ok?
    ensures Resolve(input).Ok? ==> Resolve(input) == OracleResolve(input)
  {
    LastIsIndex(input.records);
    if Prepare(input).Ok? {
      var p := Prepare(input).value;
      Resolver.LinksKnown(input);
      ClustersAgree(p.context, p.manual, Automatic(input), DecisionsKnown(input.pairs, p.context.records));
    }
  }

  /** Refinement: whatever the resolver returns, the reference resolver returns too. */
  lemma ResolverRefinesOracle(input: Input)
    requires Resolve(input).Ok?
    ensures OracleResolve(input) == Resolve(input)
  {
    var run := ResolveRun(input);
    ResolveUnique(input);
    ChecksBounded(run.c, run.base, Automatic(input), 0);
    ResolversAgree(input);
  }

  lemma ResolveUnique(input: Input)
    requires Resolve(input).Ok?
    ensures UniqueRecords(input.records) && Prepare(input).value.context.limits == input.limits
  {
  }
}
