/** The set-based reference resolver: no union-find and no cached keys, only a list of components
    searched from the front. */
module Oracle {
  import opened Prelude
  import opened Sorting
  import opened Folding
  import opened Types
  import opened ResolverSpec
  import opened ResolverSafety
  import opened ResolverTheorems
  import opened Components

  datatype SetComponent = SetComponent(members: set<Id>, authority: Authority)

  datatype Sets = Sets(comps: seq<SetComponent>, accepted: seq<Fact>, rejected: seq<Fact>)

  const NOTHING := SetComponent({}, map[])

  /** The first component that holds `id`. */
  function ComponentIndex(comps: seq<SetComponent>, id: Id): Option<nat> {
    if comps == [] then None
    else if id in comps[0].members then Some(0)
    else match ComponentIndex(comps[1..], id) case None => None case Some(i) => Some(i + 1)
  }

  function MergeAuthority(left: Authority, right: Authority): Authority {
    map f | f in left.Keys + right.Keys ::
      (if f in left then left[f] else {}) + (if f in right then right[f] else {})
  }

  /** Moves the component at `right` into the one at `left`, leaving the default behind. */
  function Absorb(comps: seq<SetComponent>, left: nat, right: nat): seq<SetComponent>
    requires left < |comps| && right < |comps|
  {
    var l, r := comps[left], comps[right];
    comps[right := NOTHING][left := SetComponent(l.members + r.members, MergeAuthority(l.authority, r.authority))]
  }

  function SingletonSet(r: Record): SetComponent {
    SetComponent({r.id}, map f | f in r.authority && r.authority[f] != "" :: {r.authority[f]})
  }

  ghost function StartSets(ids: seq<Id>, records: Records): seq<SetComponent>
    requires forall id | id in ids :: id in records
  {
    if ids == [] then [] else [SingletonSet(records[ids[0]])] + StartSets(ids[1..], records)
  }

  // ---- the steps ----

  ghost function OracleManualStep(c: Context, s: Sets, e: ManualEdge): Result<Sets, Error> {
    match (ComponentIndex(s.comps, e.pair.left), ComponentIndex(s.comps, e.pair.right))
    case (Some(l), Some(r)) =>
      (IndexInRange(s.comps, e.pair.left);
      IndexInRange(s.comps, e.pair.right);
      if l == r then Ok(s)
      else if CannotCross(s.comps[l].members, s.comps[r].members, c.cannot) then Err(Contradiction)
      else Ok(Sets(Absorb(s.comps, l, r),
                   s.accepted + [MakeFact(e.pair, ComponentKey(s.comps[l].members, c.records),
                                          ComponentKey(s.comps[r].members, c.records), Accepted, ManualMatched, [])],
                   s.rejected)))
    case (_, _) => Err(Invalid)
  }

  lemma IndexInRange(comps: seq<SetComponent>, id: Id)
    ensures var i := ComponentIndex(comps, id); i.Some? ==> i.value < |comps| && id in comps[i.value].members
  {
  }

  /** The reasons of the reference admission, on the components' own authority tables. */
  ghost function OracleEstablished(left: SetComponent, right: SetComponent, c: Context): Option<Reason> {
    if SharedAuthority(left.authority, right.authority) then None
    else
      var connections := Connections(left.members, right.members, c.decisions, c.records);
      if |connections| < 2 then
        if exists p | p in connections :: |ConnectionGroups(p, c.decisions)| > 1
        then Some(EstablishedReusesPair) else Some(EstablishedNeedsTwo)
      else if exists p, q | p in connections && q in connections :: Independent(p, q, c.decisions)
      then None
      else Some(EstablishedNotIndependent)
  }

  ghost function OracleAdmission(left: SetComponent, right: SetComponent, c: Context, d: PairDecision): Option<Reason> {
    if CannotCross(left.members, right.members, c.cannot) then Some(CannotLink)
    else if AuthoritiesConflict(left.authority, right.authority) then Some(AuthoritativeConflict)
    else if |left.members| == 1 && |right.members| == 1 then None
    else if |left.members| == 1 then
      if SingletonAdmits(d, d.left, right.members, c.decisions) then None else Some(SingletonNeedsIndependentGroup)
    else if |right.members| == 1 then
      if SingletonAdmits(d, d.right, left.members, c.decisions) then None else Some(SingletonNeedsIndependentGroup)
    else OracleEstablished(left, right, c)
  }

  /** Rejects the edge, refuses an oversized component, or merges. */
  ghost function OracleConclude(c: Context, s: Sets, d: PairDecision, l: nat, r: nat,
      verdict: Option<Reason>): Result<Sets, Error>
    requires l < |s.comps| && r < |s.comps| && d.left in c.records && d.right in c.records
  {
    var edge := PairKeyOf(d.left, d.right, c.records);
    var leftKey, rightKey := ComponentKey(s.comps[l].members, c.records), ComponentKey(s.comps[r].members, c.records);
    match verdict
    case Some(reason) => Ok(s.(rejected :=
      s.rejected + [MakeFact(edge, leftKey, rightKey, Rejected, reason, d.groups)]))
    case None =>
      var size := |s.comps[l].members| + |s.comps[r].members|;
      if size > c.limits.maxRecordsPerComponent then
        Err(Limit(MaxRecordsPerComponent, size, c.limits.maxRecordsPerComponent))
      else Ok(Sets(Absorb(s.comps, l, r),
                   s.accepted + [MakeFact(edge, leftKey, rightKey, Accepted, ReasonFor(d.result), d.groups)],
                     s.rejected))
  }

  ghost function OracleAutomaticStep(c: Context, s: Sets, d: PairDecision): Result<Sets, Error> {
    match (ComponentIndex(s.comps, d.left), ComponentIndex(s.comps, d.right))
    case (Some(l), Some(r)) =>
      (IndexInRange(s.comps, d.left);
      IndexInRange(s.comps, d.right);
      if d.left !in c.records || d.right !in c.records then Err(Invalid) else
      var edge := PairKeyOf(d.left, d.right, c.records);
      var left, right := s.comps[l], s.comps[r];
      var leftKey, rightKey := ComponentKey(left.members, c.records), ComponentKey(right.members, c.records);
      if l == r then Ok(s.(accepted :=
        s.accepted + [MakeFact(edge, leftKey, rightKey, Accepted, AlreadyConnected, d.groups)]))
      else OracleConclude(c, s, d, l, r, OracleAdmission(left, right, c, d)))
    case (_, _) => Err(Invalid)
  }

  ghost function OracleManualStepper(c: Context): (Sets, ManualEdge, nat) -> Result<Sets, Error> {
    (s: Sets, e: ManualEdge, n: nat) => OracleManualStep(c, s, e)
  }

  ghost function OracleAutomaticStepper(c: Context): (Sets, PairDecision, nat) -> Result<Sets, Error> {
    (s: Sets, d: PairDecision, n: nat) => OracleAutomaticStep(c, s, d)
  }

  // ---- the whole reference resolver ----

  /** Records by id, the last row winning. */
  function LastById(records: seq<Record>): Records {
    if records == [] then map[]
    else LastById(records[..|records| - 1])[records[|records| - 1].id := records[|records| - 1]]
  }

  ghost predicate SetsLinkInside(comps: seq<SetComponent>, cannot: set<(Id, Id)>) {
    exists p | p in cannot :: ComponentIndex(comps, p.0) == ComponentIndex(comps, p.1)
  }

  ghost function SetMembership(id: Id, comps: seq<SetComponent>, records: Records): Membership
    requires id in records
  {
    var i := ComponentIndex(comps, id);
    IndexInRange(comps, id);
    Membership(id, records[id].key, if i.None? then 0 else ComponentKey(comps[i.value].members, records))
  }

  ghost function SetMemberships(ids: seq<Id>, comps: seq<SetComponent>, records: Records): seq<Membership>
    requires forall id | id in ids :: id in records
  {
    if ids == [] then [] else [SetMembership(ids[0], comps, records)] + SetMemberships(ids[1..], comps, records)
  }

  ghost function OracleFinish(s: Sets, records: Records): Resolution {
    AscendingEnumerates(records.Keys);
    Resolution(SortBy(SetMemberships(Ascending(records.Keys), s.comps, records), MembershipRank), s.accepted,
      s.rejected)
  }

  /** Everything after the input is indexed. */
  ghost function OracleCluster(c: Context, manual: seq<ManualEdge>, automatic: seq<PairDecision>,
      known: bool): Result<Resolution, Error> {
    AscendingEnumerates(c.records.Keys);
    match Fold(OracleManualStepper(c), Sets(StartSets(Ascending(c.records.Keys), c.records), [], []), manual, 0)
    case Err(e) => Err(e)
    case Ok(s) =>
      if SetsLinkInside(s.comps, c.cannot) then Err(Contradiction)
      else if !known then Err(Invalid)
      else if |automatic| > c.limits.maxAutomaticEdges then Err(Limit(MaxAutomaticEdges, |automatic|,
        c.limits.maxAutomaticEdges))
      else match Fold(OracleAutomaticStepper(c), s, automatic, 0)
        case Err(e) => Err(e)
        case Ok(t) => Ok(OracleFinish(t, c.records))
  }

  ghost function OracleResolve(input: Input): Result<Resolution, Error> {
    if !input.limits.Valid() then Err(Invalid)
    else if |input.records| > input.limits.maxActiveRecords then
      Err(Limit(MaxActiveRecords, |input.records|, input.limits.maxActiveRecords))
    else
      var records := LastById(input.records);
      var manual := CanonicalManualEdges(input.manual, records, Match);
      var cannot := CanonicalManualEdges(input.cannot, records, NotMatch);
      if manual.Err? || cannot.Err? || !ProhibitedKnown(input.pairs, records) then Err(Invalid)
      else
        var c := Context(records, CannotLinks(cannot.value, input.pairs, records), Elements(input.pairs), input.limits);
        OracleCluster(c, manual.value, Automatic(input), DecisionsKnown(input.pairs, records))
  }
}
