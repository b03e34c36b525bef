/** When a resolution succeeds, and when it reports a contradiction, in the words of its input. */
module ResolverOutcomes {
  import opened Prelude
  import opened Types
  import opened Connectivity
  import opened Folding
  import opened ResolverSpec
  import opened ResolverSafety
  import opened ResolverTheorems
  import opened ResolverLaws
  import Decisions

  ghost predicate IsRecord(input: Input, id: Id) {
    exists x | x in input.records :: x.id == id
  }

  predicate LimitsSane(limits: Limits) {
    && 0 < limits.maxActiveRecords <= 10_000_000 && 0 < limits.maxAutomaticEdges <= 100_000_000
    && 0 < limits.maxRecordsPerComponent <= 10_000_000 && 0 < limits.maxComponentChecks <= 100_000_000
  }

  ghost predicate EdgesSane(input: Input, edges: seq<DecisionEdge>, kind: DecisionKind) {
    forall e | e in edges :: e.kind == kind && e.left != e.right && IsRecord(input, e.left) && IsRecord(input, e.right)
  }

  /** What is asked of the input before the first merge. */
  ghost predicate Sane(input: Input) {
    && LimitsSane(input.limits) && |input.records| <= input.limits.maxActiveRecords
    && (forall i, j | 0 <= i < j < |input.records| ::
          input.records[i].id != input.records[j].id && input.records[i].key != input.records[j].key)
    && EdgesSane(input, input.manual, Match) && EdgesSane(input, input.cannot, NotMatch)
    && (forall d | d in input.pairs && d.result.Prohibited? :: IsRecord(input, d.left) && IsRecord(input, d.right))
  }

  lemma RecordsIndexed(input: Input)
    requires UniqueRecords(input.records)
    ensures forall id :: id in Index(input.records) <==> IsRecord(input, id)
  {
  }

  lemma EdgesValid(input: Input, edges: seq<DecisionEdge>, kind: DecisionKind)
    requires UniqueRecords(input.records)
    ensures CanonicalManualEdges(edges, Index(input.records), kind).Ok? <==> EdgesSane(input, edges, kind)
  {
    RecordsIndexed(input);
    if ValidEdges(edges, Index(input.records), kind) {
      forall e | e in edges ensures ValidEdge(e, Index(input.records), kind) {
        var i :| 0 <= i < |edges| && edges[i] == e;
      }
    }
    if EdgesSane(input, edges, kind) {
      forall i | 0 <= i < |edges| ensures ValidEdge(edges[i], Index(input.records), kind) {
        assert edges[i] in edges;
      }
    }
  }

  lemma ProhibitedMean(input: Input)
    requires UniqueRecords(input.records)
    ensures ProhibitedKnown(input.pairs, Index(input.records)) <==>
      forall d | d in input.pairs && d.result.Prohibited? :: IsRecord(input, d.left) && IsRecord(input, d.right)
  {
    RecordsIndexed(input);
  }

  /** The input is taken up exactly when it is sane. */
  lemma PreparedExactly(input: Input)
    ensures Prepare(input).Ok? <==> Sane(input)
  {
    if UniqueRecords(input.records) {
      EdgesValid(input, input.manual, Match);
      EdgesValid(input, input.cannot, NotMatch);
      ProhibitedMean(input);
    }
  }

  /** Some NOT_MATCH decision or prohibited pair is about two records that MATCH decisions connect. */
  ghost predicate Contradictory(input: Input) {
    exists a, b | Forbidden(input, a, b) :: Connected(MatchEdges(input), a, b)
  }

  /** Without such a pair the manual phase succeeds and separates what it must. */
  lemma ManualSettles(input: Input)
    requires Prepare(input).Ok? && !Contradictory(input)
    ensures var p := Prepare(input).value; var base := ManualPhase(p.context, Start(p.context), p.manual);
      base.Ok? && !LinkInside(base.value.part, p.context.cannot) && IsPartition(base.value.part)
  {
    var p := Prepare(input).value;
    var c, links := p.context, MatchEdges(input);
    PreparedContext(input);
    CanonicalEdges(input, c.records, p.manual);
    CanonicalKnown(input.manual, c.records, Match);
    forall x | x in c.cannot ensures !Connected(links, x.0, x.1) {
      assert x == (x.0, x.1);
      assert Forbidden(input, x.0, x.1);
    }
    forall e | e in p.manual ensures Linked(links, e.pair.left, e.pair.right) {
      assert (e.pair.left, e.pair.right) in EdgeSet(p.manual);
    }
    SingletonsClassify(c.records);
    Decisions.ManualNeverContradicts(c, Start(c), p.manual, 0, {}, links);
    ManualPhaseClassifies(c, Start(c), p.manual, 0, {});
    assert {} + EdgeSet(p.manual) == EdgeSet(p.manual);
    var base := ManualPhase(c, Start(c), p.manual).value;
    Decisions.BaseLinksApart(base.part, EdgeSet(p.manual), c.cannot, links);
  }

  /** A manual step fails only on a contradiction. */
  lemma {:induction false} ManualErrors(c: Context, s: Clustering, edges: seq<ManualEdge>, n: nat)
    requires forall e | e in edges :: e.pair.left in s.part && e.pair.right in s.part
    ensures Fold(ManualStepper(c), s, edges, n).Err? ==> Fold(ManualStepper(c), s, edges, n).error == Contradiction
    decreases |edges|
  {
    if edges != [] && ManualStep(c, s, edges[0]).Ok? {
      ManualErrors(c, ManualStep(c, s, edges[0]).value, edges[1..], n + 1);
    }
  }

  /** On sane input a contradiction is reported exactly when there is one. */
  lemma ContradictionExactly(input: Input)
    requires Sane(input)
    ensures Resolve(input) == Err(Contradiction) <==> Contradictory(input)
  {
    PreparedExactly(input);
    var p := Prepare(input).value;
    var c := p.context;
    if !Contradictory(input) {
      ManualSettles(input);
      Decisions.AutomaticNeverContradicts(c, ManualPhase(c, Start(c), p.manual).value, Automatic(input), 0);
    } else {
      var a, b :| Forbidden(input, a, b) && Connected(MatchEdges(input), a, b);
      CanonicalKnown(input.manual, c.records, Match);
      ManualErrors(c, Start(c), p.manual, 0);
      if ManualPhase(c, Start(c), p.manual).Ok? {
        ContradictionInside(input, a, b);
      }
    }
  }

  lemma ForbiddenKnown(input: Input, a: Id, b: Id)
    requires Sane(input) && UniqueRecords(input.records) && Forbidden(input, a, b)
    ensures a in Index(input.records) && b in Index(input.records)
  {
    RecordsIndexed(input);
  }

  lemma ManualClasses(input: Input)
    requires Prepare(input).Ok?
    requires var p := Prepare(input).value; ManualPhase(p.context, Start(p.context), p.manual).Ok?
    ensures var p := Prepare(input).value; var part := ManualPhase(p.context, Start(p.context), p.manual).value.part;
      Classifies(part, EdgeSet(p.manual)) && part.Keys == p.context.records.Keys
  {
    var p := Prepare(input).value;
    PreparedContext(input);
    SingletonsClassify(p.context.records);
    ManualPhaseClassifies(p.context, Start(p.context), p.manual, 0, {});
    ManualKeys(p.context, Start(p.context), p.manual);
    assert {} + EdgeSet(p.manual) == EdgeSet(p.manual);
  }

  lemma ForbiddenInContext(input: Input, a: Id, b: Id)
    requires Sane(input) && Prepare(input).Ok? && Forbidden(input, a, b)
    ensures var c := Prepare(input).value.context;
      a in c.records && b in c.records && ((a, b) in c.cannot || (b, a) in c.cannot)
  {
    PreparedContext(input);
    ForbiddenKnown(input, a, b);
  }

  lemma ContradictionInside(input: Input, a: Id, b: Id)
    requires Sane(input) && Prepare(input).Ok? && Forbidden(input, a, b) && Connected(MatchEdges(input), a, b)
    requires var p := Prepare(input).value; ManualPhase(p.context, Start(p.context), p.manual).Ok?
    ensures var p := Prepare(input).value;
      LinkInside(ManualPhase(p.context, Start(p.context), p.manual).value.part, p.context.cannot)
  {
    var p := Prepare(input).value;
    var part := ManualPhase(p.context, Start(p.context), p.manual).value.part;
    ManualClasses(input);
    ForbiddenInContext(input, a, b);
    ClassesConnect(input, p.context.records, p.manual, part, a, b);
    assert part[a] == part[b];
  }

  // ---- success ----

  lemma UnionWithin(part: Partition, a: Id, b: Id, records: Records)
    requires IsPartition(part) && part.Keys == records.Keys && a in part && b in part && part[a] != part[b]
    ensures |part[a]| + |part[b]| <= |records|
  {
    ClassesDisjoint(part, a, b);
    assert |part[a] + part[b]| == |part[a]| + |part[b]|;
    SubsetSize(part[a] + part[b], records.Keys);
  }

  /** With known ends and room under every limit no automatic edge fails. */
  lemma {:induction false} AutomaticSucceeds(c: Context, s: Clustering, edges: seq<PairDecision>, n: nat)
    requires IsPartition(s.part) && s.part.Keys == c.records.Keys
    requires forall d | d in edges :: d.left in c.records && d.right in c.records
    requires n + |edges| <= c.limits.maxComponentChecks && |c.records| <= c.limits.maxRecordsPerComponent
    ensures Fold(AutomaticStepper(c), s, edges, n).Ok?
    decreases |edges|
  {
    if edges != [] {
      var d := edges[0];
      assert d in edges;
      if s.part[d.left] != s.part[d.right] { UnionWithin(s.part, d.left, d.right, c.records); }
      assert AutomaticStep(c, s, d, n).Ok?;
      StepShifts(c, s, d, n);
      AutomaticSucceeds(c, AutomaticStep(c, s, d, n).value, edges[1..], n + 1);
    }
  }

  ghost predicate EndsKnown(input: Input) {
    forall d | d in input.pairs && (d.left != d.right || d.result.AutomaticIdentity? || d.result.AutomaticStrong?) ::
      IsRecord(input, d.left) && IsRecord(input, d.right)
  }

  /** Sane input without contradiction resolves, if the automatic edges and the records are within the limits. */
  lemma ResolveSucceeds(input: Input)
    requires Sane(input) && !Contradictory(input) && EndsKnown(input)
    requires |Filter(input.pairs, IsAutomatic)| <= input.limits.maxAutomaticEdges
    requires |Filter(input.pairs, IsAutomatic)| <= input.limits.maxComponentChecks
    requires |input.records| <= input.limits.maxRecordsPerComponent
    ensures Resolve(input).Ok?
  {
    PreparedExactly(input);
    ManualSettles(input);
    AutomaticSettles(input);
    DecisionsSettle(input);
    AutomaticElements(input);
    var p := Prepare(input).value;
    ClusteredFrom(p.context, p.manual, Automatic(input));
    ResolvedFrom(input, p);
  }

  lemma ClusteredFrom(c: Context, manual: seq<ManualEdge>, automatic: seq<PairDecision>)
    requires ManualPhase(c, Start(c), manual).Ok?
    requires !LinkInside(ManualPhase(c, Start(c), manual).value.part, c.cannot)
    requires |automatic| <= c.limits.maxAutomaticEdges
    requires AutomaticPhase(c, ManualPhase(c, Start(c), manual).value, automatic).Ok?
    ensures Clustered(c, manual, automatic, true).Ok?
  {
  }

  lemma ResolvedFrom(input: Input, p: Prepared)
    requires Prepare(input) == Ok(p) && DecisionsKnown(input.pairs, p.context.records)
    requires Clustered(p.context, p.manual, Automatic(input), true).Ok?
    ensures Resolve(input).Ok?
  {
  }

  lemma DecisionsSettle(input: Input)
    requires UniqueRecords(input.records) && EndsKnown(input)
    ensures DecisionsKnown(input.pairs, Index(input.records))
  {
    RecordsIndexed(input);
  }

  lemma AutomaticSettles(input: Input)
    requires Prepare(input).Ok? && !Contradictory(input) && EndsKnown(input)
    requires |Filter(input.pairs, IsAutomatic)| <= input.limits.maxComponentChecks
    requires |input.records| <= input.limits.maxRecordsPerComponent
    ensures var p := Prepare(input).value; var base := ManualPhase(p.context, Start(p.context), p.manual);
      base.Ok? && AutomaticPhase(p.context, base.value, Automatic(input)).Ok?
  {
    ManualSettles(input);
    IndexSize(input.records);
    AutomaticElements(input);
    var p := Prepare(input).value;
    var base := ManualPhase(p.context, Start(p.context), p.manual).value;
    ManualKeys(p.context, Start(p.context), p.manual);
    forall d | d in Automatic(input) ensures d.left in p.context.records && d.right in p.context.records {
      RecordsIndexed(input);
    }
    AutomaticSucceeds(p.context, base, Automatic(input), 0);
  }
}
