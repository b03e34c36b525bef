/** Guarantees of a successful resolution, stated on its input and its output rows. */
module ResolverTheorems {
  import opened Prelude
  import opened Sorting
  import opened Folding
  import opened Types
  import opened Connectivity
  import opened ResolverSpec
  import opened ResolverSafety

  // ---- from the result back to the two phases ----

  lemma IndexUnique(records: seq<Record>)
    requires UniqueRecords(records)
    ensures WellKeyed(Index(records))
    ensures |Index(records)| == |records|
    ensures forall r | r in records :: r.id in Index(records) && Index(records)[r.id] == r
  {
    UniqueRows(records);
    IndexSize(records);
  }

  lemma IndexSize(records: seq<Record>)
    requires UniqueRecords(records)
    ensures |Index(records)| == |records|
  {
    UniqueRows(records);
    var ids := Map(records, (r: Record) => r.id);
    DistinctSize(ids);
    forall id ensures id in Index(records).Keys <==> id in Elements(ids) {
      if id in ids {
        var i :| 0 <= i < |ids| && ids[i] == id;
        assert records[i] in records;
      }
      if id in Index(records) {
        var r :| r in records && r.id == id;
        var i :| 0 <= i < |records| && records[i] == r;
        assert ids[i] == id;
      }
    }
    assert Index(records).Keys == Elements(ids);
  }

  /** The intermediate results of a successful resolution. */
  datatype Run = Run(c: Context, manual: seq<ManualEdge>, base: Clustering, final: Clustering)

  ghost predicate Completed(input: Input, run: Run) {
    && Prepare(input) == Ok(Prepared(run.c, run.manual))
    && UniqueRecords(input.records)
    && run.c.records == Index(input.records)
    && Phased(run, Automatic(input))
  }

  ghost predicate Phased(run: Run, edges: seq<PairDecision>) {
    && ManualPhase(run.c, Start(run.c), run.manual) == Ok(run.base)
    && !LinkInside(run.base.part, run.c.cannot)
    && run.base.part.Keys == run.c.records.Keys == run.final.part.Keys
    && AutomaticPhase(run.c, run.base, edges) == Ok(run.final)
  }

  lemma ResolveRun(input: Input) returns (run: Run)
    requires Resolve(input).Ok?
    ensures Completed(input, run)
    ensures Resolve(input).value == Finish(run.final, run.c.records)
  {
    var p := Prepare(input).value;
    var base := ManualPhase(p.context, Start(p.context), p.manual).value;
    var s := AutomaticPhase(p.context, base, Automatic(input)).value;
    ManualKeys(p.context, Start(p.context), p.manual);
    AutomaticKeys(p.context, base, Automatic(input));
    run := Run(p.context, p.manual, base, s);
  }

  // ---- memberships ----

  /** `a` and `b` are published in the same component. */
  ghost predicate Together(r: Resolution, a: Id, b: Id) {
    exists m, n | m in r.memberships && n in r.memberships :: m.id == a && n.id == b && m.component == n.component
  }

  lemma MembershipElements(ids: seq<Id>, part: Partition, records: Records)
    requires forall id | id in ids :: id in part && id in records
    ensures forall id | id in ids :: MembershipOf(id, part, records) in Memberships(ids, part, records)
    ensures forall m | m in Memberships(ids, part, records) ::
      m.id in ids && m == MembershipOf(m.id, part, records)
    ensures |Memberships(ids, part, records)| == |ids|
  {
  }

  lemma FinishedMemberships(s: Clustering, records: Records)
    requires s.part.Keys == records.Keys
    ensures forall id | id in records :: MembershipOf(id, s.part, records) in Finish(s, records).memberships
    ensures forall m | m in Finish(s, records).memberships ::
      m.id in records && m == MembershipOf(m.id, s.part, records)
    ensures |Finish(s, records).memberships| == |records|
  {
    var ids := Ascending(records.Keys);
    AscendingEnumerates(records.Keys);
    var rows := Memberships(ids, s.part, records);
    MembershipElements(ids, s.part, records);
    SortElements(rows, MembershipRank);
    SortMultiset(rows, MembershipRank);
    EnumerationSize(ids, records.Keys);
    assert |records.Keys| == |records|;
  }

  lemma EnumerationSize(ids: seq<Id>, s: set<Id>)
    requires Enumerates(ids, s)
    ensures |ids| == |s|
  {
    if ids == [] {
      assert s == {};
    } else {
      var rest := s - {ids[0]};
      assert ids[0] in s;
      forall id ensures id in ids[1..] <==> id in rest {
        if id in ids[1..] { assert id in ids; }
      }
      EnumerationSize(ids[1..], rest);
    }
  }

  lemma EnumerationTail(a: seq<Id>, s: set<Id>)
    requires a != [] && Enumerates(a, s)
    ensures Enumerates(a[1..], s - {a[0]}) && a[0] in s && forall id | id in s :: a[0] <= id
  {
    assert a == [a[0]] + a[1..];
    assert a[0] in a;
    forall id ensures id in a[1..] <==> id in s - {a[0]} {
      if id in a[1..] { assert id in a; }
      if id in s { assert id in a; }
    }
  }

  lemma EnumerationUnique(a: seq<Id>, b: seq<Id>, s: set<Id>)
    requires Enumerates(a, s) && Enumerates(b, s)
    ensures a == b
  {
    EnumerationSize(a, s);
    EnumerationSize(b, s);
    if a != [] {
      EnumerationTail(a, s);
      EnumerationTail(b, s);
      EnumerationUnique(a[1..], b[1..], s - {a[0]});
      assert a == [a[0]] + a[1..] && b == [b[0]] + b[1..];
    }
  }

  lemma TogetherIsSame(s: Clustering, records: Records, a: Id, b: Id)
    requires IsPartition(s.part) && s.part.Keys == records.Keys && WellKeyed(records)
    ensures Together(Finish(s, records), a, b) <==> Same(s.part, a, b)
  {
    FinishedMemberships(s, records);
    var r := Finish(s, records);
    if a in records && b in records {
      KeysIdentifyClasses(s.part, records, a, b);
      var m, n := MembershipOf(a, s.part, records), MembershipOf(b, s.part, records);
      assert m in r.memberships && n in r.memberships;
    }
  }

  lemma RowsDistinct(s: Clustering, records: Records)
    requires s.part.Keys == records.Keys && WellKeyed(records)
    ensures var rows := Finish(s, records).memberships;
      forall i, j | 0 <= i < j < |rows| :: rows[i].id != rows[j].id && rows[i].key < rows[j].key
  {
    var rows := Finish(s, records).memberships;
    AscendingEnumerates(records.Keys);
    var plain := Memberships(Ascending(records.Keys), s.part, records);
    FinishedMemberships(s, records);
    SortSorted(plain, MembershipRank);
    DistinctMemberships(Ascending(records.Keys), s.part, records);
    SortMultiset(plain, MembershipRank);
    DistinctPermuted(plain, rows);
    forall i, j | 0 <= i < j < |rows| ensures rows[i].id != rows[j].id && rows[i].key < rows[j].key {
      assert rows[i] in rows && rows[j] in rows && rows[i] != rows[j];
      assert LexLe(MembershipRank(rows[i]), MembershipRank(rows[j]));
    }
  }

  lemma RowKeysLeast(s: Clustering, records: Records, m: Membership)
    requires IsPartition(s.part) && s.part.Keys == records.Keys && WellKeyed(records)
    requires m in Finish(s, records).memberships
    ensures exists n | n in Finish(s, records).memberships :: n.component == m.component && n.key == m.component
    ensures forall n | n in Finish(s, records).memberships && m.component == n.component :: m.component <= n.key
  {
    var rows := Finish(s, records).memberships;
    FinishedMemberships(s, records);
    KeyOfClass(s.part, records, m.id);
    var b :| b in s.part[m.id] && b in records && ComponentKey(s.part[m.id], records) == records[b].key;
    assert MembershipOf(b, s.part, records) in rows;
    forall n | n in rows && m.component == n.component ensures m.component <= n.key {
      KeysIdentifyClasses(s.part, records, m.id, n.id);
      assert n.id in s.part[n.id];
    }
  }

  ghost predicate OneRowEach(records: seq<Record>, rows: seq<Membership>) {
    && |rows| == |records|
    && (forall i, j | 0 <= i < j < |rows| :: rows[i].id != rows[j].id && rows[i].key < rows[j].key)
    && (forall r | r in records :: exists m | m in rows :: m.id == r.id && m.key == r.key)
  }

  /** Each component is named by the least sort key of its members. */
  ghost predicate NamedByLeastKey(rows: seq<Membership>) {
    && (forall m, n | m in rows && n in rows && m.component == n.component :: m.component <= n.key)
    && (forall m | m in rows :: exists n | n in rows :: n.component == m.component && n.key == m.component)
  }

  lemma RunRows(records: seq<Record>, s: Clustering)
    requires UniqueRecords(records) && s.part.Keys == Index(records).Keys
    ensures OneRowEach(records, Finish(s, Index(records)).memberships)
  {
    var index := Index(records);
    IndexUnique(records);
    RowsDistinct(s, index);
    FinishedMemberships(s, index);
    var rows := Finish(s, index).memberships;
    forall r | r in records ensures exists m | m in rows :: m.id == r.id && m.key == r.key {
      assert MembershipOf(r.id, s.part, index) in rows;
    }
  }

  lemma RunNames(s: Clustering, index: Records)
    requires IsPartition(s.part) && s.part.Keys == index.Keys && WellKeyed(index)
    ensures NamedByLeastKey(Finish(s, index).memberships)
  {
    var rows := Finish(s, index).memberships;
    forall m | m in rows
      ensures exists n | n in rows :: n.component == m.component && n.key == m.component
      ensures forall n | n in rows && m.component == n.component :: m.component <= n.key
    {
      RowKeysLeast(s, index, m);
    }
  }

  /** Every record has exactly one membership, carrying the record's own sort key and the least
      sort key of the records published with it. */
  lemma MembershipsExact(input: Input)
    requires Resolve(input).Ok?
    ensures OneRowEach(input.records, Resolve(input).value.memberships)
    ensures NamedByLeastKey(Resolve(input).value.memberships)
  {
    var run := ResolveRun(input);
    SafeRun(input, run);
    RunRows(input.records, run.final);
    RunNames(run.final, run.c.records);
  }

  lemma DistinctMemberships(ids: seq<Id>, part: Partition, records: Records)
    requires forall id | id in ids :: id in part && id in records
    requires forall i, j | 0 <= i < j < |ids| :: ids[i] < ids[j]
    ensures Distinct(Memberships(ids, part, records))
  {
    if ids != [] {
      DistinctMemberships(ids[1..], part, records);
      MembershipElements(ids[1..], part, records);
    }
  }

  // ---- safety ----

  ghost function MatchEdges(input: Input): set<(Id, Id)> {
    set e | e in input.manual :: (e.left, e.right)
  }

  ghost function AutomaticEdges(input: Input): set<(Id, Id)> {
    set d | d in input.pairs && d.result.IsAutomaticEdge() :: (d.left, d.right)
  }

  lemma CanonicalEdges(input: Input, records: Records, manual: seq<ManualEdge>)
    requires CanonicalManualEdges(input.manual, records, Match) == Ok(manual)
    ensures forall e | e in EdgeSet(manual) :: Linked(MatchEdges(input), e.0, e.1)
    ensures forall e | e in MatchEdges(input) :: Linked(EdgeSet(manual), e.0, e.1)
  {
    var canonical := Canonical(input.manual, records, Match);
    SortElements(canonical, ManualRank);
    forall p | p in EdgeSet(manual) ensures Linked(MatchEdges(input), p.0, p.1) {
      var e :| e in manual && p == (e.pair.left, e.pair.right);
      assert e in canonical;
      var i :| 0 <= i < |canonical| && canonical[i] == e;
      var raw := input.manual[i];
      assert (raw.left, raw.right) in MatchEdges(input);
      EndpointsUnordered(raw.left, raw.right, records);
    }
    forall p | p in MatchEdges(input) ensures Linked(EdgeSet(manual), p.0, p.1) {
      var raw :| raw in input.manual && p == (raw.left, raw.right);
      var i :| 0 <= i < |input.manual| && input.manual[i] == raw;
      var e := canonical[i];
      assert e in canonical && e in manual;
      assert (e.pair.left, e.pair.right) in EdgeSet(manual);
      EndpointsUnordered(raw.left, raw.right, records);
    }
  }

  lemma AutomaticElements(input: Input)
    ensures forall d | d in Automatic(input) :: d in input.pairs && d.result.IsAutomaticEdge()
    ensures forall d | d in input.pairs && d.result.IsAutomaticEdge() :: d in Automatic(input)
    ensures |Automatic(input)| == |Filter(input.pairs, IsAutomatic)|
  {
    SortElements(Filter(input.pairs, IsAutomatic), AutomaticRank);
    SortMultiset(Filter(input.pairs, IsAutomatic), AutomaticRank);
  }

  lemma BaseClassifies(run: Run, edges: seq<PairDecision>)
    requires Phased(run, edges)
    ensures Classifies(run.base.part, EdgeSet(run.manual))
    ensures run.base.rejected == []
  {
    SingletonsClassify(run.c.records);
    ManualPhaseClassifies(run.c, Start(run.c), run.manual, 0, {});
    assert {} + EdgeSet(run.manual) == EdgeSet(run.manual);
    ManualPhaseCounts(run.c, run.manual);
  }

  lemma PhasedSafe(run: Run, edges: seq<PairDecision>, all: set<(Id, Id)>)
    requires Phased(run, edges)
    requires EdgeSet(run.manual) <= all && forall d | d in edges :: (d.left, d.right) in all
    ensures Safe(run.c, run.base.part, all, run.final)
  {
    BaseClassifies(run, edges);
    var part := run.base.part;
    forall a, b | a in part && b in part && part[a] == part[b] ensures Connected(all, a, b) {
      ConnectedMono(EdgeSet(run.manual), all, a, b);
    }
    PhaseSafe(run.c, part, all, run.base, edges);
  }

  /** A finished run is safe relative to its own manual phase. */
  lemma SafeRun(input: Input, run: Run)
    requires Completed(input, run)
    ensures Classifies(run.base.part, EdgeSet(run.manual))
    ensures Safe(run.c, run.base.part, EdgeSet(run.manual) + AutomaticEdges(input), run.final)
    ensures WellKeyed(run.c.records)
  {
    IndexUnique(input.records);
    BaseClassifies(run, Automatic(input));
    AutomaticElements(input);
    PhasedSafe(run, Automatic(input), EdgeSet(run.manual) + AutomaticEdges(input));
  }

  lemma RunSandwich(input: Input, run: Run, a: Id, b: Id)
    requires Completed(input, run) && a in run.c.records && b in run.c.records
    ensures Connected(MatchEdges(input), a, b) ==> Same(run.final.part, a, b)
    ensures Same(run.final.part, a, b) ==> Connected(MatchEdges(input) + AutomaticEdges(input), a, b)
  {
    SafeRun(input, run);
    ContextLinks(input, run);
    CanonicalEdges(input, run.c.records, run.manual);
    var base, s := run.base.part, run.final.part;
    if Connected(MatchEdges(input), a, b) {
      ConnectedMono(MatchEdges(input), EdgeSet(run.manual), a, b);
      assert b in base[b] && base[a] == base[b];
      assert b in s[a];
    }
    if Same(s, a, b) {
      ConnectedMono(EdgeSet(run.manual) + AutomaticEdges(input), MatchEdges(input) + AutomaticEdges(input), a, b);
    }
  }

  /** The published partition is coarser than MATCH connectivity and finer than connectivity by
      MATCH and automatic edges together. */
  lemma PartitionSandwich(input: Input, x: Record, y: Record)
    requires Resolve(input).Ok?
    requires x in input.records && y in input.records
    ensures Connected(MatchEdges(input), x.id, y.id) ==> Together(Resolve(input).value, x.id, y.id)
    ensures Together(Resolve(input).value, x.id, y.id)
        ==> Connected(MatchEdges(input) + AutomaticEdges(input), x.id, y.id)
  {
    var run := ResolveRun(input);
    SafeRun(input, run);
    IndexUnique(input.records);
    TogetherIsSame(run.final, run.c.records, x.id, y.id);
    RunSandwich(input, run, x.id, y.id);
  }

  /** The context's cannot-links come from the steward's edges and the Prohibited decisions. */
  lemma ContextLinks(input: Input, run: Run)
    requires Completed(input, run)
    ensures CanonicalManualEdges(input.manual, run.c.records, Match) == Ok(run.manual)
    ensures CanonicalManualEdges(input.cannot, run.c.records, NotMatch).Ok?
    ensures ProhibitedKnown(input.pairs, run.c.records)
    ensures run.c.cannot == CannotLinks(CanonicalManualEdges(input.cannot, run.c.records, NotMatch).value, input.pairs,
      run.c.records)
  {
  }

  lemma RunSeparates(input: Input, run: Run, e: DecisionEdge)
    requires Completed(input, run) && e in input.cannot
    ensures !Same(run.final.part, e.left, e.right)
  {
    SafeRun(input, run);
    ContextLinks(input, run);
    var canonical := Canonical(input.cannot, run.c.records, NotMatch);
    SortElements(canonical, ManualRank);
    var i :| 0 <= i < |input.cannot| && input.cannot[i] == e;
    assert ValidEdge(input.cannot[i], run.c.records, NotMatch);
    assert canonical[i] in SortBy(canonical, ManualRank);
    var p := (canonical[i].pair.left, canonical[i].pair.right);
    assert p in run.c.cannot;
    EndpointsUnordered(e.left, e.right, run.c.records);
  }

  lemma RunSeparatesProhibited(input: Input, run: Run, d: PairDecision)
    requires Completed(input, run) && d in input.pairs && d.result.Prohibited?
    ensures !Same(run.final.part, d.left, d.right)
  {
    SafeRun(input, run);
    ContextLinks(input, run);
    var p := Endpoints(d.left, d.right, run.c.records);
    assert p in run.c.cannot;
  }

  /** Every pair a steward or a Prohibited decision separates ends in two components. */
  lemma CannotLinksHold(input: Input)
    requires Resolve(input).Ok?
    ensures forall e | e in input.cannot :: !Together(Resolve(input).value, e.left, e.right)
    ensures forall d | d in input.pairs && d.result.Prohibited? :: !Together(Resolve(input).value, d.left, d.right)
  {
    var run := ResolveRun(input);
    var r := Finish(run.final, run.c.records);
    SafeRun(input, run);
    forall e | e in input.cannot ensures !Together(r, e.left, e.right) {
      RunSeparates(input, run, e);
      TogetherIsSame(run.final, run.c.records, e.left, e.right);
    }
    forall d | d in input.pairs && d.result.Prohibited? ensures !Together(r, d.left, d.right) {
      RunSeparatesProhibited(input, run, d);
      TogetherIsSame(run.final, run.c.records, d.left, d.right);
    }
  }

  lemma RunMatched(input: Input, run: Run, a: Id, b: Id, f: Field)
    requires Completed(input, run) && Same(run.final.part, a, b) && Contradicts(run.c.records, a, b, f)
    ensures Connected(MatchEdges(input), a, b)
  {
    SafeRun(input, run);
    ContextLinks(input, run);
    CanonicalEdges(input, run.c.records, run.manual);
    assert Same(run.base.part, a, b);
    ConnectedMono(EdgeSet(run.manual), MatchEdges(input), a, b);
  }

  /** Only MATCH edges can put records with different authoritative values for a field together. */
  lemma AuthorityNeedsMatch(input: Input, x: Record, y: Record, f: Field)
    requires Resolve(input).Ok?
    requires x in input.records && y in input.records && Together(Resolve(input).value, x.id, y.id)
    requires f in x.authority && f in y.authority
    requires x.authority[f] != "" && y.authority[f] != "" && x.authority[f] != y.authority[f]
    ensures Connected(MatchEdges(input), x.id, y.id)
  {
    var run := ResolveRun(input);
    SafeRun(input, run);
    IndexUnique(input.records);
    TogetherIsSame(run.final, run.c.records, x.id, y.id);
    assert Contradicts(run.c.records, x.id, y.id, f);
    RunMatched(input, run, x.id, y.id, f);
  }

  /** An edge rejected for a cannot-link or an authority conflict never becomes internal later. */
  lemma RejectionsStand(input: Input, f: Fact)
    requires Resolve(input).Ok? && f in Resolve(input).value.rejected && Permanent(f)
    ensures !Together(Resolve(input).value, f.edge.left, f.edge.right)
  {
    var run := ResolveRun(input);
    SafeRun(input, run);
    TogetherIsSame(run.final, run.c.records, f.edge.left, f.edge.right);
    assert StillBlocked(run.c, run.final.part, f);
  }

  // ---- conservation of facts ----

  function IsAccepted(f: Fact): bool { f.outcome.Accepted? }
  function IsRejected(f: Fact): bool { f.outcome.Rejected? }

  /** The fact each automatic edge yields, in processing order. */
  ghost function Outcomes(c: Context, s: Clustering, todo: seq<PairDecision>, n: nat): (log: seq<Fact>)
    requires Fold(AutomaticStepper(c), s, todo, n).Ok?
    ensures |log| == |todo|
    decreases |todo|
  {
    if todo == [] then []
    else [AutomaticFact(c, s.part, todo[0])] + Outcomes(c, AutomaticStep(c, s, todo[0], n).value, todo[1..], n + 1)
  }

  ghost predicate Reports(f: Fact, d: PairDecision, records: Records) {
    && d.left in records && d.right in records
    && f.edge == PairKeyOf(d.left, d.right, records)
    && f.groups == Dedup(SortBy(d.groups, GroupRank))
  }

  lemma StepOutcome(c: Context, s: Clustering, d: PairDecision, checks: nat)
    requires IsPartition(s.part) && AutomaticStep(c, s, d, checks).Ok?
    ensures var f := AutomaticFact(c, s.part, d); var t := AutomaticStep(c, s, d, checks).value;
      && IsPartition(t.part)
      && t.accepted == (if IsAccepted(f) then s.accepted + [f] else s.accepted)
      && t.rejected == (if IsRejected(f) then s.rejected + [f] else s.rejected)
      && ClassCount(t.part) == (if Merges(f) then ClassCount(s.part) - 1 else ClassCount(s.part))
      && Reports(f, d, c.records)
  {
    FactVerdict(c, s.part, d);
    if Merges(AutomaticFact(c, s.part, d)) {
      MergePartition(s.part, d.left, d.right);
      MergeCount(s.part, d.left, d.right);
    }
  }

  /** `log` accounts for everything that changed between `s` and `t` while processing `todo`. */
  ghost predicate Accounts(s: Clustering, t: Clustering, log: seq<Fact>, todo: seq<PairDecision>, records: Records) {
    && |log| == |todo|
    && t.accepted == s.accepted + Filter(log, IsAccepted)
    && t.rejected == s.rejected + Filter(log, IsRejected)
    && |Filter(log, Merges)| == ClassCount(s.part) - ClassCount(t.part)
    && forall i | 0 <= i < |log| :: Reports(log[i], todo[i], records)
  }

  lemma AccountsCons(s: Clustering, t: Clustering, u: Clustering, f: Fact, log: seq<Fact>, d: PairDecision,
      todo: seq<PairDecision>, records: Records)
    requires Accounts(t, u, log, todo, records) && Reports(f, d, records)
    requires t.accepted == (if IsAccepted(f) then s.accepted + [f] else s.accepted)
    requires t.rejected == (if IsRejected(f) then s.rejected + [f] else s.rejected)
    requires ClassCount(t.part) == (if Merges(f) then ClassCount(s.part) - 1 else ClassCount(s.part))
    ensures Accounts(s, u, [f] + log, [d] + todo, records)
  {
    var longer, edges := [f] + log, [d] + todo;
    assert u.accepted == s.accepted + Filter(longer, IsAccepted) by { AppendFiltered(s.accepted, f, log, IsAccepted); }
    assert u.rejected == s.rejected + Filter(longer, IsRejected) by { AppendFiltered(s.rejected, f, log, IsRejected); }
    assert |Filter(longer, Merges)| == ClassCount(s.part) - ClassCount(u.part) by { FilterCons(f, log, Merges); }
    forall i | 0 <= i < |longer| ensures Reports(longer[i], edges[i], records) {
      if i > 0 { assert longer[i] == log[i - 1] && edges[i] == todo[i - 1]; }
    }
  }

  lemma AppendFiltered(before: seq<Fact>, f: Fact, log: seq<Fact>, keep: Fact -> bool)
    ensures before + Filter([f] + log, keep) == (if keep(f) then before + [f] else before) + Filter(log, keep)
  {
    FilterCons(f, log, keep);
  }

  lemma {:induction false} OutcomesConserved(c: Context, s: Clustering, todo: seq<PairDecision>, n: nat)
    requires IsPartition(s.part) && Fold(AutomaticStepper(c), s, todo, n).Ok?
    ensures Accounts(s, Fold(AutomaticStepper(c), s, todo, n).value, Outcomes(c, s, todo, n), todo, c.records)
    decreases |todo|
  {
    if todo != [] {
      var d, rest := todo[0], todo[1..];
      StepOutcome(c, s, d, n);
      var t := AutomaticStep(c, s, d, n).value;
      OutcomesConserved(c, t, rest, n + 1);
      AccountsCons(s, t, Fold(AutomaticStepper(c), t, rest, n + 1).value, AutomaticFact(c, s.part, d),
                   Outcomes(c, t, rest, n + 1), d, rest, c.records);
      assert todo == [d] + rest;
    }
  }

  ghost function ComponentKeys(r: Resolution): set<Key> {
    set m | m in r.memberships :: m.component
  }

  ghost function KeyImage(classes: set<set<Id>>, records: Records): set<Key> {
    set v | v in classes :: ComponentKey(v, records)
  }

  lemma KeyImageSize(classes: set<set<Id>>, records: Records)
    requires forall v, w | v in classes && w in classes && ComponentKey(v, records) == ComponentKey(w, records) ::
      v == w
    ensures |KeyImage(classes, records)| == |classes|
  {
    if classes != {} {
      var v :| v in classes;
      var rest := classes - {v};
      KeyImageSize(rest, records);
      assert KeyImage(classes, records) == KeyImage(rest, records) + {ComponentKey(v, records)};
      assert ComponentKey(v, records) !in KeyImage(rest, records);
    }
  }

  lemma ClassKeysDiffer(part: Partition, records: Records, v: set<Id>, w: set<Id>)
    requires IsPartition(part) && part.Keys == records.Keys && WellKeyed(records)
    requires v in part.Values && w in part.Values && ComponentKey(v, records) == ComponentKey(w, records)
    ensures v == w
  {
    var a :| a in part && part[a] == v;
    var b :| b in part && part[b] == w;
    KeysIdentifyClasses(part, records, a, b);
  }

  lemma RowKeys(rows: seq<Membership>, part: Partition, records: Records)
    requires part.Keys == records.Keys
    requires forall id | id in records :: MembershipOf(id, part, records) in rows
    requires forall m | m in rows :: m.id in records && m == MembershipOf(m.id, part, records)
    ensures (set m | m in rows :: m.component) == KeyImage(part.Values, records)
  {
    forall m | m in rows ensures m.component in KeyImage(part.Values, records) {
      assert part[m.id] in part.Values;
    }
    forall k | k in KeyImage(part.Values, records) ensures k in set m | m in rows :: m.component {
      var v :| v in part.Values && ComponentKey(v, records) == k;
      var a :| a in part && part[a] == v;
      assert MembershipOf(a, part, records).component == k;
    }
  }

  lemma ComponentsAreClasses(s: Clustering, records: Records)
    requires IsPartition(s.part) && s.part.Keys == records.Keys && WellKeyed(records)
    ensures |ComponentKeys(Finish(s, records))| == ClassCount(s.part)
  {
    FinishedMemberships(s, records);
    RowKeys(Finish(s, records).memberships, s.part, records);
    forall v, w | v in s.part.Values && w in s.part.Values && ComponentKey(v, records) == ComponentKey(w, records)
      ensures v == w
    {
      ClassKeysDiffer(s.part, records, v, w);
    }
    KeyImageSize(s.part.Values, records);
  }

  lemma RunConserves(run: Run, edges: seq<PairDecision>)
    requires Phased(run, edges) && WellKeyed(run.c.records) && IsPartition(run.base.part) && IsPartition(run.final.part)
    ensures var log := Outcomes(run.c, run.base, edges, 0);
      && (forall i | 0 <= i < |log| :: Reports(log[i], edges[i], run.c.records))
      && (forall f | f in run.base.accepted :: f.reason == ManualMatched)
      && run.final.accepted == run.base.accepted + Filter(log, IsAccepted)
      && run.final.rejected == Filter(log, IsRejected)
      && |Filter(run.final.accepted, Merges)| == |run.c.records| - ClassCount(run.final.part)
  {
    var base := run.base;
    var log := Outcomes(run.c, base, edges, 0);
    ManualPhaseCounts(run.c, run.manual);
    OutcomesConserved(run.c, base, edges, 0);
    FilterConcat(base.accepted, Filter(log, IsAccepted), Merges);
    FilterAll(base.accepted, Merges);
    FilterNarrower(log);
  }

  /** Every automatic edge yields exactly one fact, in order, after the manual facts, and the
      merging facts number exactly the records less the final components. */
  lemma FactsConserved(input: Input) returns (manualFacts: seq<Fact>, log: seq<Fact>)
    requires Resolve(input).Ok?
    ensures UniqueRecords(input.records)
    ensures var r := Resolve(input).value; var edges := Automatic(input);
      && |log| == |edges|
      && (forall i | 0 <= i < |log| :: Reports(log[i], edges[i], Index(input.records)))
      && (forall f | f in manualFacts :: f.reason == ManualMatched)
      && r.accepted == manualFacts + Filter(log, IsAccepted)
      && r.rejected == Filter(log, IsRejected)
      && |Filter(r.accepted, Merges)| == |input.records| - |ComponentKeys(r)|
  {
    var run := ResolveRun(input);
    SafeRun(input, run);
    IndexUnique(input.records);
    RunConserves(run, Automatic(input));
    ComponentsAreClasses(run.final, run.c.records);
    manualFacts := run.base.accepted;
    log := Outcomes(run.c, run.base, Automatic(input), 0);
  }

  lemma FilterNarrower(log: seq<Fact>)
    ensures Filter(Filter(log, IsAccepted), Merges) == Filter(log, Merges)
  {
    if log != [] {
      FilterNarrower(log[1..]);
      FilterCons(log[0], log[1..], IsAccepted);
      FilterCons(log[0], Filter(log[1..], IsAccepted), Merges);
      FilterCons(log[0], log[1..], Merges);
      assert log == [log[0]] + log[1..];
    }
  }
}
