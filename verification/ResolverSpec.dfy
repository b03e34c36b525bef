/** What the conservative clustering resolver computes: manual MATCH edges, then sorted automatic
    edges, merge the classes of a partition of the records. */
module ResolverSpec {
  import opened Prelude
  import opened Sorting
  import opened Folding
  import opened Types

  datatype Record = Record(id: Id, key: Key, authority: map<Field, Value>)

  datatype Resource = MaxActiveRecords | MaxAutomaticEdges | MaxRecordsPerComponent | MaxComponentChecks

  datatype Error =
    | Invalid
    | Limit(resource: Resource, observed: nat, limit: nat)
    | Contradiction
    | Invariant

  const ABSOLUTE_MAX_ACTIVE_RECORDS: nat := 10_000_000
  const ABSOLUTE_MAX_AUTOMATIC_EDGES: nat := 100_000_000
  const ABSOLUTE_MAX_RECORDS_PER_COMPONENT: nat := 10_000_000
  const ABSOLUTE_MAX_COMPONENT_CHECKS: nat := 100_000_000

  datatype Limits = Limits(
    maxActiveRecords: nat, maxAutomaticEdges: nat,
    maxRecordsPerComponent: nat, maxComponentChecks: nat)
  {
    predicate Valid() {
      && 0 < maxActiveRecords <= ABSOLUTE_MAX_ACTIVE_RECORDS
      && 0 < maxAutomaticEdges <= ABSOLUTE_MAX_AUTOMATIC_EDGES
      && 0 < maxRecordsPerComponent <= ABSOLUTE_MAX_RECORDS_PER_COMPONENT
      && 0 < maxComponentChecks <= ABSOLUTE_MAX_COMPONENT_CHECKS
    }
  }

  datatype PairKey = PairKey(left: Id, right: Id, leftKey: Key, rightKey: Key)

  datatype Outcome = Accepted | Rejected

  datatype Reason =
    | ManualMatched | AlreadyConnected | Identity | Strong
    | CannotLink | AuthoritativeConflict | SingletonNeedsIndependentGroup
    | EstablishedReusesPair | EstablishedNeedsTwo | EstablishedNotIndependent

  datatype Fact = Fact(leftKey: Key, rightKey: Key, edge: PairKey, outcome: Outcome, reason: Reason, groups: seq<Group>)

  datatype Membership = Membership(id: Id, key: Key, component: Key)

  datatype Resolution = Resolution(memberships: seq<Membership>, accepted: seq<Fact>, rejected: seq<Fact>)

  datatype Input = Input(
    records: seq<Record>, manual: seq<DecisionEdge>, cannot: seq<DecisionEdge>,
    pairs: seq<PairDecision>, limits: Limits)

  type Records = map<Id, Record>
  type Partition = map<Id, set<Id>>

  // ---- keys and endpoints ----

  function Endpoints(left: Id, right: Id, records: Records): (Id, Id)
    requires left in records && right in records
  {
    var l, r := records[left].key, records[right].key;
    if l < r || (l == r && left <= right) then (left, right) else (right, left)
  }

  function PairKeyOf(left: Id, right: Id, records: Records): PairKey
    requires left in records && right in records
  {
    var (l, r) := Endpoints(left, right, records);
    PairKey(l, r, records[l].key, records[r].key)
  }

  /** A manual edge with canonical endpoints. */
  datatype ManualEdge = ManualEdge(decision: Id, pair: PairKey)

  function ManualRank(e: ManualEdge): seq<int> {
    [e.pair.leftKey, e.pair.rightKey, e.decision]
  }

  predicate ValidEdge(e: DecisionEdge, records: Records, kind: DecisionKind) {
    e.kind == kind && e.left != e.right && e.left in records && e.right in records
  }

  predicate ValidEdges(edges: seq<DecisionEdge>, records: Records, kind: DecisionKind) {
    forall i | 0 <= i < |edges| :: ValidEdge(edges[i], records, kind)
  }

  function Canonical(edges: seq<DecisionEdge>, records: Records, kind: DecisionKind): (r: seq<ManualEdge>)
    requires ValidEdges(edges, records, kind)
    ensures |r| == |edges|
    ensures forall i | 0 <= i < |edges| ::
      r[i] == ManualEdge(edges[i].decision, PairKeyOf(edges[i].left, edges[i].right, records))
  {
    if edges == [] then []
    else [ManualEdge(edges[0].decision, PairKeyOf(edges[0].left, edges[0].right, records))]
         + Canonical(edges[1..], records, kind)
  }

  function CanonicalManualEdges(edges: seq<DecisionEdge>, records: Records, kind: DecisionKind)
    : Result<seq<ManualEdge>, Error>
  {
    if ValidEdges(edges, records, kind)
    then Ok(SortBy(Canonical(edges, records, kind), ManualRank))
    else Err(Invalid)
  }

  function AutomaticRank(d: PairDecision): seq<int> {
    [d.sortKey, d.leftKey, d.rightKey, d.left, d.right]
  }

  function IsAutomatic(d: PairDecision): bool { d.result.IsAutomaticEdge() }

  // ---- records ----

  predicate UniqueRecords(records: seq<Record>) {
    forall i, j | 0 <= i < j < |records| :: records[i].key != records[j].key && records[i].id != records[j].id
  }

  lemma UniqueRows(records: seq<Record>)
    requires UniqueRecords(records)
    ensures forall r, q | r in records && q in records && (r.id == q.id || r.key == q.key) :: r == q
  {
    forall r, q | r in records && q in records && (r.id == q.id || r.key == q.key) ensures r == q {
      var i :| 0 <= i < |records| && records[i] == r;
      var j :| 0 <= j < |records| && records[j] == q;
    }
  }

  function Index(records: seq<Record>): Records
    requires UniqueRecords(records)
  {
    UniqueRows(records);
    map r | r in records :: r.id := r
  }

  ghost predicate WellKeyed(records: Records) {
    && (forall id | id in records :: records[id].id == id)
    && (forall a, b | a in records && b in records && records[a].key == records[b].key :: a == b)
  }

  // ---- component summaries as functions of their members ----

  /** The non-empty authority values claimed by the members. */
  ghost function Claims(members: set<Id>, records: Records): set<(Field, Value)> {
    set m, f | m in members && m in records && f in records[m].authority && records[m].authority[f] != ""
      :: (f, records[m].authority[f])
  }

  ghost function MinOf(keys: set<Key>): (m: Key)
    requires keys != {}
    ensures m in keys && forall k | k in keys :: m <= k
  {
    var x :| x in keys;
    if keys == {x} then x
    else
      var rest := keys - {x};
      assert rest != {} by { assert keys == rest + {x}; }
      var m := MinOf(rest);
      assert forall k | k in keys :: k == x || k in rest;
      if x < m then x else m
  }

  ghost function KeysOf(members: set<Id>, records: Records): set<Key> {
    set m | m in members && m in records :: records[m].key
  }

  ghost function ComponentKey(members: set<Id>, records: Records): Key {
    if KeysOf(members, records) == {} then 0 else MinOf(KeysOf(members, records))
  }

  // ---- the admission table ----

  predicate CannotCross(left: set<Id>, right: set<Id>, cannot: set<(Id, Id)>) {
    exists a, b | a in left && b in right :: (a, b) in cannot || (b, a) in cannot
  }

  predicate Conflict(left: set<(Field, Value)>, right: set<(Field, Value)>) {
    exists p, q | p in left && q in right :: p.0 == q.0 && p.1 != q.1
  }

  predicate Shared(left: set<(Field, Value)>, right: set<(Field, Value)>) {
    exists p | p in left :: p in right
  }

  /** The decisions recorded for an unordered pair of distinct records. */
  predicate ForPair(d: PairDecision, a: Id, b: Id) {
    a != b && ((d.left == a && d.right == b) || (d.left == b && d.right == a))
  }

  predicate SingletonAdmits(d: PairDecision, singleton: Id, established: set<Id>, decisions: set<PairDecision>) {
    || d.result.AutomaticIdentity?
    || |d.groups| > 1
    || exists e, m, g | e in decisions && m in established && g in e.groups ::
         ForPair(e, singleton, m) && (e.result.AutomaticStrong? || e.result.Review?) && g !in d.groups
  }

  predicate StrongFor(e: PairDecision, p: (Id, Id)) {
    ForPair(e, p.0, p.1) && e.result.AutomaticStrong?
  }

  /** Some strong decision joins `a` and `b`. */
  ghost predicate StronglyJoined(a: Id, b: Id, decisions: set<PairDecision>) {
    exists e | e in decisions :: StrongFor(e, (a, b))
  }

  /** The canonical cross pairs with at least one strong decision. */
  ghost function Connections(left: set<Id>, right: set<Id>, decisions: set<PairDecision>, records: Records): set<(Id,
      Id)> {
    set a, b | a in left && b in right && a in records && b in records && StronglyJoined(a, b, decisions)
      :: Endpoints(a, b, records)
  }

  ghost function ConnectionGroups(p: (Id, Id), decisions: set<PairDecision>): set<Group> {
    set e, g | e in decisions && g in e.groups && StrongFor(e, p) :: g
  }

  ghost predicate Independent(p: (Id, Id), q: (Id, Id), decisions: set<PairDecision>) {
    p != q && ConnectionGroups(p, decisions) !! ConnectionGroups(q, decisions)
  }

  ghost function EstablishedRejects(left: set<Id>, right: set<Id>, decisions: set<PairDecision>, records: Records)
    : Option<Reason>
  {
    var connections := Connections(left, right, decisions, records);
    if Shared(Claims(left, records), Claims(right, records)) then None
    else if |connections| < 2 then
      if exists p | p in connections :: |ConnectionGroups(p, decisions)| > 1
      then Some(EstablishedReusesPair) else Some(EstablishedNeedsTwo)
    else if exists p, q | p in connections && q in connections :: Independent(p, q, decisions)
    then None
    else Some(EstablishedNotIndependent)
  }

  // ---- the two phases ----

  /** What both phases read and never change. */
  datatype Context = Context(records: Records, cannot: set<(Id, Id)>, decisions: set<PairDecision>, limits: Limits)

  datatype Clustering = Clustering(part: Partition, accepted: seq<Fact>, rejected: seq<Fact>)

  ghost predicate IsPartition(part: Partition) {
    forall x | x in part ::
      && x in part[x]
      && part[x] <= part.Keys
      && forall y | y in part[x] :: part[y] == part[x]
  }

  /** The partition with the classes of `a` and `b` replaced by their union. */
  function Merge(part: Partition, a: Id, b: Id): Partition
    requires a in part && b in part
  {
    map x | x in part :: if x in part[a] || x in part[b] then part[a] + part[b] else part[x]
  }

  function GroupRank(g: Group): seq<int> { [g] }

  function MakeFact(edge: PairKey, left: Key, right: Key, outcome: Outcome, reason: Reason, groups: seq<Group>): Fact {
    Fact(if left <= right then left else right, if left <= right then right else left,
         edge, outcome, reason, Dedup(SortBy(groups, GroupRank)))
  }

  ghost function ManualFact(c: Context, part: Partition, e: ManualEdge): Fact
    requires e.pair.left in part && e.pair.right in part
  {
    MakeFact(e.pair, ComponentKey(part[e.pair.left], c.records), ComponentKey(part[e.pair.right], c.records),
             Accepted, ManualMatched, [])
  }

  ghost function ManualStep(c: Context, s: Clustering, e: ManualEdge): Result<Clustering, Error> {
    if e.pair.left !in s.part || e.pair.right !in s.part then Err(Invalid)
    else
      var left, right := s.part[e.pair.left], s.part[e.pair.right];
      if left == right then Ok(s)
      else if CannotCross(left, right, c.cannot) then Err(Contradiction)
      else Ok(Clustering(Merge(s.part, e.pair.left, e.pair.right), s.accepted + [ManualFact(c, s.part, e)], s.rejected))
  }

  ghost function ManualStepper(c: Context): (Clustering, ManualEdge, nat) -> Result<Clustering, Error> {
    (s: Clustering, e: ManualEdge, n: nat) => ManualStep(c, s, e)
  }

  ghost function ManualPhase(c: Context, s: Clustering, edges: seq<ManualEdge>): Result<Clustering, Error> {
    Fold(ManualStepper(c), s, edges, 0)
  }

  /** Some cannot-link lies inside one class. */
  ghost predicate LinkInside(part: Partition, cannot: set<(Id, Id)>) {
    exists p | p in cannot :: p.0 in part && p.1 in part && part[p.0] == part[p.1]
  }

  /** Why the classes `left` and `right` must not be joined by `d`, if anything forbids it. */
  ghost function Admission(c: Context, left: set<Id>, right: set<Id>, d: PairDecision): Option<Reason> {
    if CannotCross(left, right, c.cannot) then Some(CannotLink)
    else if Conflict(Claims(left, c.records), Claims(right, c.records)) then Some(AuthoritativeConflict)
    else if |left| == 1 && |right| == 1 then None
    else if |left| == 1 then
      if SingletonAdmits(d, d.left, right, c.decisions) then None else Some(SingletonNeedsIndependentGroup)
    else if |right| == 1 then
      if SingletonAdmits(d, d.right, left, c.decisions) then None else Some(SingletonNeedsIndependentGroup)
    else EstablishedRejects(left, right, c.decisions, c.records)
  }

  ghost function Verdict(c: Context, part: Partition, d: PairDecision): Option<Reason>
    requires d.left in part && d.right in part
  {
    Admission(c, part[d.left], part[d.right], d)
  }

  function ReasonFor(result: PairResult): Reason {
    if result.AutomaticIdentity? then Identity else Strong
  }

  /** The record is known to the resolver. */
  ghost predicate Known(c: Context, part: Partition, id: Id) {
    id in part && id in c.records
  }

  ghost function AutomaticFact(c: Context, part: Partition, d: PairDecision): Fact
    requires Known(c, part, d.left) && Known(c, part, d.right)
  {
    var edge := PairKeyOf(d.left, d.right, c.records);
    var left, right := ComponentKey(part[d.left], c.records), ComponentKey(part[d.right], c.records);
    if part[d.left] == part[d.right] then MakeFact(edge, left, right, Accepted, AlreadyConnected, d.groups)
    else match Verdict(c, part, d)
      case Some(reason) => MakeFact(edge, left, right, Rejected, reason, d.groups)
      case None => MakeFact(edge, left, right, Accepted, ReasonFor(d.result), d.groups)
  }

  function Merges(f: Fact): bool { f.outcome.Accepted? && f.reason != AlreadyConnected }

  /** The state after publishing `f` with the classes of `part`. */
  function Emit(s: Clustering, f: Fact, part: Partition): Clustering {
    if f.outcome.Accepted? then Clustering(part, s.accepted + [f], s.rejected)
    else Clustering(part, s.accepted, s.rejected + [f])
  }

  ghost function AutomaticStep(c: Context, s: Clustering, d: PairDecision, checks: nat): Result<Clustering, Error> {
    if checks + 1 > c.limits.maxComponentChecks then
      Err(Limit(MaxComponentChecks, checks + 1, c.limits.maxComponentChecks))
    else if !Known(c, s.part, d.left) || !Known(c, s.part, d.right) then Err(Invalid)
    else
      var fact := AutomaticFact(c, s.part, d);
      var size := |s.part[d.left]| + |s.part[d.right]|;
      if !Merges(fact) then Ok(Emit(s, fact, s.part))
      else if size > c.limits.maxRecordsPerComponent then
        Err(Limit(MaxRecordsPerComponent, size, c.limits.maxRecordsPerComponent))
      else Ok(Emit(s, fact, Merge(s.part, d.left, d.right)))
  }

  ghost function AutomaticStepper(c: Context): (Clustering, PairDecision, nat) -> Result<Clustering, Error> {
    (s: Clustering, d: PairDecision, checks: nat) => AutomaticStep(c, s, d, checks)
  }

  ghost function AutomaticPhase(c: Context, s: Clustering, edges: seq<PairDecision>): Result<Clustering, Error> {
    Fold(AutomaticStepper(c), s, edges, 0)
  }

  lemma ManualKeys(c: Context, s: Clustering, edges: seq<ManualEdge>)
    requires ManualPhase(c, s, edges).Ok?
    ensures ManualPhase(c, s, edges).value.part.Keys == s.part.Keys
  {
    FoldInvariant(ManualStepper(c), s, edges, 0, (e: ManualEdge) => true,
      (t: Clustering) => t.part.Keys == s.part.Keys);
  }

  lemma AutomaticKeys(c: Context, s: Clustering, edges: seq<PairDecision>)
    requires AutomaticPhase(c, s, edges).Ok?
    ensures AutomaticPhase(c, s, edges).value.part.Keys == s.part.Keys
  {
    FoldInvariant(AutomaticStepper(c), s, edges, 0, (e: PairDecision) => true,
      (t: Clustering) => t.part.Keys == s.part.Keys);
  }

  // ---- the whole resolver ----

  function Singletons(records: Records): Partition {
    map id | id in records :: {id}
  }

  function ProhibitedKnown(pairs: seq<PairDecision>, records: Records): bool {
    forall d | d in pairs && d.result.Prohibited? :: d.left in records && d.right in records
  }

  function DecisionsKnown(pairs: seq<PairDecision>, records: Records): bool {
    forall d | d in pairs && d.left != d.right :: d.left in records && d.right in records
  }

  function CannotLinks(cannot: seq<ManualEdge>, pairs: seq<PairDecision>, records: Records): set<(Id, Id)>
    requires ProhibitedKnown(pairs, records)
  {
    (set e | e in cannot :: (e.pair.left, e.pair.right))
    + (set d | d in pairs && d.result.Prohibited? :: Endpoints(d.left, d.right, records))
  }

  function MembershipRank(m: Membership): seq<int> { [m.key] }

  ghost function MembershipOf(id: Id, part: Partition, records: Records): Membership
    requires id in part && id in records
  {
    Membership(id, records[id].key, ComponentKey(part[id], records))
  }

  /** The memberships listed by ascending record id. */
  ghost function Memberships(ids: seq<Id>, part: Partition, records: Records): seq<Membership>
    requires forall id | id in ids :: id in part && id in records
  {
    if ids == [] then [] else [MembershipOf(ids[0], part, records)] + Memberships(ids[1..], part, records)
  }

  ghost predicate Enumerates(ids: seq<Id>, s: set<Id>) {
    && (forall i, j | 0 <= i < j < |ids| :: ids[i] < ids[j])
    && (forall id :: id in ids <==> id in s)
  }

  /** The members of a finite set in ascending order. */
  ghost function Ascending(s: set<Id>): seq<Id> {
    if s == {} then [] else [MinOf(s)] + Ascending(s - {MinOf(s)})
  }

  lemma AscendingEnumerates(s: set<Id>)
    ensures Enumerates(Ascending(s), s)
  {
    if s != {} {
      var m := MinOf(s);
      var rest := Ascending(s - {m});
      AscendingEnumerates(s - {m});
      forall j: nat | j < |rest| ensures m < rest[j] { assert rest[j] in rest; }
    }
  }

  ghost function Finish(s: Clustering, records: Records): Resolution
    requires s.part.Keys == records.Keys
  {
    AscendingEnumerates(records.Keys);
    Resolution(SortBy(Memberships(Ascending(records.Keys), s.part, records), MembershipRank), s.accepted, s.rejected)
  }

  ghost function Start(c: Context): Clustering {
    Clustering(Singletons(c.records), [], [])
  }

  ghost function Clustered(c: Context, manual: seq<ManualEdge>, automatic: seq<PairDecision>, known: bool)
    : (r: Result<Clustering, Error>)
    ensures r.Ok? ==> r.value.part.Keys == c.records.Keys
  {
    match ManualPhase(c, Start(c), manual)
    case Err(e) => Err(e)
    case Ok(s) =>
      if LinkInside(s.part, c.cannot) then Err(Contradiction)
      else if |automatic| > c.limits.maxAutomaticEdges then
        Err(Limit(MaxAutomaticEdges, |automatic|, c.limits.maxAutomaticEdges))
      else if !known then Err(Invalid)
      else
        ManualKeys(c, Start(c), manual);
        match AutomaticPhase(c, s, automatic)
        case Err(e) => Err(e)
        case Ok(t) =>
          AutomaticKeys(c, s, automatic);
          Ok(t)
  }

  function ContextOf(input: Input, cannot: seq<ManualEdge>): Context
    requires UniqueRecords(input.records) && ProhibitedKnown(input.pairs, Index(input.records))
  {
    var records := Index(input.records);
    Context(records, CannotLinks(cannot, input.pairs, records), Elements(input.pairs), input.limits)
  }

  function Automatic(input: Input): seq<PairDecision> {
    SortBy(Filter(input.pairs, IsAutomatic), AutomaticRank)
  }

  lemma CanonicalKnown(edges: seq<DecisionEdge>, records: Records, kind: DecisionKind)
    requires CanonicalManualEdges(edges, records, kind).Ok?
    ensures forall e | e in CanonicalManualEdges(edges, records, kind).value ::
      e.pair.left in records && e.pair.right in records && e.pair.left != e.pair.right
      && e.pair == PairKeyOf(e.pair.left, e.pair.right, records)
  {
    var canonical := Canonical(edges, records, kind);
    SortElements(canonical, ManualRank);
    forall e | e in canonical
      ensures e.pair.left in records && e.pair.right in records && e.pair.left != e.pair.right
      ensures e.pair == PairKeyOf(e.pair.left, e.pair.right, records)
    {
      var i :| 0 <= i < |canonical| && canonical[i] == e;
      assert ValidEdge(edges[i], records, kind);
    }
  }

  datatype Prepared = Prepared(context: Context, manual: seq<ManualEdge>)

  /** Everything checked and indexed before the first merge. */
  function Prepare(input: Input): Result<Prepared, Error> {
    if !input.limits.Valid() then Err(Invalid)
    else if |input.records| > input.limits.maxActiveRecords then
      Err(Limit(MaxActiveRecords, |input.records|, input.limits.maxActiveRecords))
    else if !UniqueRecords(input.records) then Err(Invalid)
    else
      var records := Index(input.records);
      var manual := CanonicalManualEdges(input.manual, records, Match);
      var cannot := CanonicalManualEdges(input.cannot, records, NotMatch);
      if manual.Err? || cannot.Err? || !ProhibitedKnown(input.pairs, records) then Err(Invalid)
      else Ok(Prepared(ContextOf(input, cannot.value), manual.value))
  }

  ghost function Resolve(input: Input): Result<Resolution, Error> {
    match Prepare(input)
    case Err(e) => Err(e)
    case Ok(p) =>
      match Clustered(p.context, p.manual, Automatic(input), DecisionsKnown(input.pairs, p.context.records))
      case Err(e) => Err(e)
      case Ok(s) => Ok(Finish(s, p.context.records))
  }
}
