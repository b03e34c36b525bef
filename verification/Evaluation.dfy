/** One evaluation: resolution, identity, golden selection and reviews, and what counts as a change. */
module Evaluation {
  import opened Prelude
  import opened Types
  import opened ResolverSpec
  import opened ResolverTheorems
  import opened IdentitySpec
  import opened IdentityLedger
  import opened IdentityIncremental
  import opened Incremental
  import GoldenValues
  import Reviews

  datatype Source = Source(name: string, authority: map<Field, Types.Value>)

  datatype GoldenRule = GoldenRule(field: Field, policy: GoldenValues.Policy, sources: Option<seq<string>>)

  datatype Entity = Entity(sources: seq<Source>, golden: seq<GoldenRule>)

  datatype GoldenRow = GoldenRow(
    record: Id, source: string, field: Field, raw: Option<GoldenValues.Json>, changedAt: Option<int>,
    state: GoldenValues.State, normalized: Option<string>, bytes: Option<nat>)

  type Overrides = map<Field, seq<GoldenValues.Override>>

  type Slot = (Id, Field)

  type Selections = map<Slot, GoldenValues.Selection>

  // ---- golden selection ----

  /** The position of a source in the entity; unknown sources come last. */
  function Priority(sources: seq<Source>, name: string): nat {
    if sources == [] then 0 else if sources[0].name == name then 0 else 1 + Priority(sources[1..], name)
  }

  function AuthorityOf(sources: seq<Source>, name: string): map<Field, Types.Value> {
    if sources == [] then map[] else if sources[0].name == name then sources[0].authority
      else AuthorityOf(sources[1..], name)
  }

  /** The first rule for a field decides which sources count. */
  function RuleFor(rules: seq<GoldenRule>, field: Field): Option<GoldenRule> {
    if rules == [] then None else if rules[0].field == field then Some(rules[0]) else RuleFor(rules[1..], field)
  }

  predicate Counts(e: Entity, b: Books, row: GoldenRow) {
    && row.record in b.members && b.members[row.record].active
    && var rule := RuleFor(e.golden, row.field);
       rule.Some? && (rule.value.sources.Some? ==> row.source in rule.value.sources.value)
  }

  function OfferOf(e: Entity, b: Books, row: GoldenRow): GoldenValues.Offer
    requires Counts(e, b, row)
  {
    GoldenValues.Offer(row.record, Priority(e.sources, row.source), row.changedAt,
      row.field in AuthorityOf(e.sources, row.source), b.members[row.record].key, row.raw, row.state, row.normalized,
        row.bytes)
  }

  predicate Lands(e: Entity, b: Books, row: GoldenRow, slot: Slot) {
    Counts(e, b, row) && (b.members[row.record].identity, row.field) == slot
  }

  /** The values offered for one identity's field. */
  function Offers(e: Entity, b: Books, rows: seq<GoldenRow>, slot: Slot): seq<GoldenValues.Offer> {
    if rows == [] then []
    else (if Lands(e, b, rows[0], slot) then [OfferOf(e, b, rows[0])] else []) + Offers(e, b, rows[1..], slot)
  }

  function OverridesFor(overrides: Overrides, field: Field): seq<GoldenValues.Override> {
    if field in overrides then overrides[field] else []
  }

  function Select(e: Entity, b: Books, rows: seq<GoldenRow>, overrides: Overrides, policy: GoldenValues.Policy,
      slot: Slot)
    : Option<GoldenValues.Selection>
  {
    GoldenValues.SelectGolden(policy, Offers(e, b, rows, slot), OverridesFor(overrides, slot.1))
  }

  function ActiveIds(b: Books): set<Id> {
    set x | x in b.registry && b.registry[x].status.Active?
  }

  /** The slots of the first rules. */
  function Slots(b: Books, rules: seq<GoldenRule>): set<Slot> {
    set x, r | x in ActiveIds(b) && r in rules :: (x, r.field)
  }

  /** The last rule for a field decides its policy. */
  function PolicyFor(rules: seq<GoldenRule>, field: Field): GoldenValues.Policy {
    if rules == [] then GoldenValues.OtherPolicy
    else if rules[|rules| - 1].field == field then rules[|rules| - 1].policy
    else PolicyFor(rules[..|rules| - 1], field)
  }

  predicate Supported(rules: seq<GoldenRule>) {
    forall r | r in rules :: !r.policy.OtherPolicy?
  }

  /** A selection for every active identity and every golden field; an unsupported policy fails. */
  ghost function SelectionsOf(e: Entity, b: Books, rows: seq<GoldenRow>, overrides: Overrides): Option<Selections> {
    if ActiveIds(b) != {} && !Supported(e.golden) then None
    else Some(map s | s in Slots(b, e.golden) && Select(e, b, rows, overrides, PolicyFor(e.golden, s.1), s).Some?
               :: Select(e, b, rows, overrides, PolicyFor(e.golden, s.1), s).value)
  }

  // ---- issues ----

  /** How rejected edges and golden issues are written as review candidates; keys are digests of the text. */
  datatype Rendering = Rendering(fact: Fact -> Reviews.Candidate,
      golden: (Slot, GoldenValues.Issue) -> Reviews.Candidate)

  function SlotIssues(r: Rendering, slot: Slot, issues: seq<GoldenValues.Issue>): seq<Reviews.Candidate> {
    if issues == [] then [] else [r.golden(slot, issues[0])] + SlotIssues(r, slot, issues[1..])
  }

  function GoldenIssues(r: Rendering, slots: seq<Slot>, golden: Selections): seq<Reviews.Candidate> {
    if slots == [] then []
    else
      (if slots[0] in golden then SlotIssues(r, slots[0], golden[slots[0]].issues) else [])
      + GoldenIssues(r, slots[1..], golden)
  }

  function IssueCandidates(r: Rendering, rejected: seq<Fact>, slots: seq<Slot>,
      golden: Selections): seq<Reviews.Candidate> {
    Map(rejected, r.fact) + GoldenIssues(r, slots, golden)
  }

  // ---- one evaluation ----

  datatype Record = Record(id: Id, source: string, key: Key)

  /** Everything an evaluation reads besides the earlier results; `order` lists the slots of a map. */
  datatype Request = Request(
    entity: Entity, records: seq<Record>, manual: seq<DecisionEdge>, cannot: seq<DecisionEdge>,
      pairs: seq<PairDecision>,
    limits: Limits, rows: seq<GoldenRow>, overrides: Overrides, rendering: Rendering, order: set<Slot> -> seq<Slot>)

  datatype Saved = Saved(books: Books, reviews: seq<Reviews.Review>, golden: Selections, facts: multiset<FactView>)

  datatype Evaluated = Evaluated(resolution: Resolution, saved: Saved, drawn: nat, changed: bool)

  function ActiveRecords(records: seq<Record>): set<Id> {
    set r | r in records :: r.id
  }

  function WithAuthority(e: Entity): Record -> ResolverSpec.Record {
    (r: Record) => ResolverSpec.Record(r.id, r.key, AuthorityOf(e.sources, r.source))
  }

  function BothActive(ids: set<Id>): DecisionEdge -> bool {
    (d: DecisionEdge) => d.left in ids && d.right in ids
  }

  function PairActive(ids: set<Id>): PairDecision -> bool {
    (d: PairDecision) => d.left in ids && d.right in ids
  }

  /** Decisions about records that are no longer active are set aside. */
  function ResolverInput(q: Request): Input {
    var ids := ActiveRecords(q.records);
    Input(Map(q.records, WithAuthority(q.entity)), Filter(q.manual, BothActive(ids)), Filter(q.cannot, BothActive(ids)),
      Filter(q.pairs, PairActive(ids)), q.limits)
  }

  function Shifted(supply: Supply, n: nat): Supply {
    (i: nat) => supply(n + i)
  }

  // ---- what a reader sees ----

  /** How often each pair is listed, whatever the revisions. */
  type PairCounts = map<(Id, Id), nat>

  datatype IdentityShown = IdentityShown(
    registry: map<Id, Status>, members: map<Id, (Key, Id, bool, Revision, Revision, string)>,
    aliases: PairCounts, splits: PairCounts)

  function IdentityView(b: Books): IdentityShown {
    IdentityShown(
      map x | x in b.registry :: b.registry[x].status,
      map r | r in b.members :: var m := b.members[r]; (m.key, m.identity, m.active, m.first, m.last, m.reason),
      map e | e in AliasEnds(b) :: |set a | a in b.aliases && (a.source, a.target) == e|,
      map e | e in SplitEnds(b) :: |set s | s in b.splits && (s.parent, s.child) == e|)
  }

  function AliasEnds(b: Books): set<(Id, Id)> { set a | a in b.aliases :: (a.source, a.target) }
  function SplitEnds(b: Books): set<(Id, Id)> { set s | s in b.splits :: (s.parent, s.child) }

  function ReviewView(r: Reviews.Review): (nat, int, Reviews.Status, string, string, string, string) {
    (r.key, r.occurrence, r.status, r.severity, r.reason, r.subjects, r.summary)
  }

  /** Canonical bytes and issues are not shown. */
  function GoldenView(s: GoldenValues.Selection): (GoldenValues.Policy, Option<GoldenValues.Json>, Option<string>,
      GoldenValues.SelectionStatus, Option<Id>, GoldenValues.TieBreak, seq<Id>) {
    (s.policy, s.raw, s.normalized, s.status, s.winner, s.tieBreak, s.contributors)
  }

  /** Component keys are not shown. */
  type FactView = (Id, Id, Outcome, Reason, seq<Group>)

  function ViewOf(f: Fact): FactView {
    (f.edge.left, f.edge.right, f.outcome, f.reason, f.groups)
  }

  function FactsOf(r: Resolution): multiset<FactView> {
    multiset(Map(r.accepted, ViewOf)) + multiset(Map(r.rejected, ViewOf))
  }

  ghost predicate Shown(a: Saved, b: Saved) {
    && IdentityView(a.books) == IdentityView(b.books)
    && multiset(Map(a.reviews, ReviewView)) == multiset(Map(b.reviews, ReviewView))
    && a.golden.Keys == b.golden.Keys
      && (forall s | s in a.golden :: GoldenView(a.golden[s]) == GoldenView(b.golden[s]))
    && a.facts == b.facts
  }

  function IssuesOf(q: Request, resolution: Resolution, golden: Selections): seq<Reviews.Candidate> {
    IssueCandidates(q.rendering, resolution.rejected, q.order(golden.Keys), golden)
  }

  /** Reconciles the reviews with the issues found, and compares with what was saved. */
  ghost function Conclude(q: Request, before: Saved, resolution: Resolution, books: Books, golden: Selections,
      drawn: nat, revision: Revision, supply: Supply): Evaluated
  {
    var issues := IssuesOf(q, resolution, golden);
    var rest := Shifted(supply, drawn);
    var saved := Saved(books, Reviews.Reconciled(before.reviews, issues, revision, rest), golden, FactsOf(resolution));
    Evaluated(resolution, saved, drawn + Reviews.Taken(before.reviews, issues, revision, rest).drawn,
      revision == 1 || !Shown(before, saved))
  }

  /** Resolves, reconciles the identities, selects golden values and reconciles the reviews. */
  ghost function Evaluate(q: Request, before: Saved, revision: Revision, supply: Supply): Option<Evaluated>
  {
    var input := ResolverInput(q);
    if Resolve(input).Err? then None
    else
      var books := Step(before.books, Publication(TableOf(input), revision, supply));
      match SelectionsOf(q.entity, books, q.rows, q.overrides)
      case None => None
      case Some(golden) =>
        Some(Conclude(q, before, Resolve(input).value, books, golden, |NewComponents(before.books, TableOf(input))|,
          revision, supply))
  }

  // ---- evaluating again ----

  /** Saved results an earlier evaluation can have left. */
  ghost predicate Consistent(s: Saved, now: Revision) {
    Sound(s.books, now) && Reviews.LedgerValid(s.reviews)
  }

  ghost predicate Evaluable(q: Request, s: Saved, now: Revision, revision: Revision, supply: Supply) {
    Resolve(ResolverInput(q)).Ok? && Publishable(s.books, now, Publication(TableOf(ResolverInput(q)), revision, supply))
  }

  /** An evaluation leaves consistent results behind. */
  lemma EvaluateKeepsConsistent(q: Request, s: Saved, now: Revision, revision: Revision, supply: Supply)
    requires Consistent(s, now) && Evaluable(q, s, now, revision, supply) && Evaluate(q, s, revision, supply).Some?
    ensures Consistent(Evaluate(q, s, revision, supply).value.saved, revision)
    ensures Realises(Evaluate(q, s, revision, supply).value.saved.books, TableOf(ResolverInput(q)))
  {
    var p := Publication(TableOf(ResolverInput(q)), revision, supply);
    NextSound(s.books, now, p);
    NextRealises(s.books, now, p);
    var out := Evaluate(q, s, revision, supply).value;
    Reviews.ReconcileKeepsValid(s.reviews, IssuesOf(q, out.resolution, out.saved.golden), revision,
      Shifted(supply, |NewComponents(s.books, p.rows)|));
  }

  lemma ConcludeAgain(q: Request, s: Saved, resolution: Resolution, books: Books, golden: Selections, drawn: nat,
      revision: Revision, supply: Supply, later: Revision, next: Supply)
    requires Reviews.LedgerValid(s.reviews) && later != 1
    ensures var once := Conclude(q, s, resolution, books, golden, drawn, revision, supply);
      Conclude(q, once.saved, resolution, books, golden, 0, later, next) == Evaluated(resolution, once.saved, 0, false)
  {
    var once := Conclude(q, s, resolution, books, golden, drawn, revision, supply);
    Reviews.ReconcileAgain(s.reviews, IssuesOf(q, resolution, golden), revision, Shifted(supply, drawn), later,
      Shifted(next, 0));
    ShownSelf(once.saved);
  }

  lemma ShownSelf(s: Saved)
    ensures Shown(s, s)
  {
  }

  /** Evaluating the same inputs again at a later revision succeeds, saves exactly the same results,
      draws no id and reports no change, whatever the allocator would have handed out. */
  lemma EvaluateAgain(q: Request, s: Saved, now: Revision, revision: Revision, supply: Supply, later: Revision,
      next: Supply)
    requires Consistent(s, now) && Evaluable(q, s, now, revision, supply) && Evaluate(q, s, revision, supply).Some?
    requires 0 < revision < later
    ensures var once := Evaluate(q, s, revision, supply).value;
      Evaluate(q, once.saved, later, next) == Some(Evaluated(once.resolution, once.saved, 0, false))
  {
    var table, resolution := TableOf(ResolverInput(q)), Resolve(ResolverInput(q)).value;
    var once := Evaluate(q, s, revision, supply).value;
    var books, golden := once.saved.books, once.saved.golden;
    EvaluateKeepsConsistent(q, s, now, revision, supply);
    BooksSettled(books, revision, table, later, next);
    ConcludeAgain(q, s, resolution, books, golden, |NewComponents(s.books, table)|, revision, supply, later, next);
  }

  lemma BooksSettled(b: Books, now: Revision, table: Resolved, later: Revision, next: Supply)
    requires Sound(b, now) && now < later && Realises(b, table)
    ensures Step(b, Publication(table, later, next)) == b && |NewComponents(b, table)| == 0
  {
    QuiescentDraw(b, now, Publication(table, later, next));
    Quiescent(b, now, Publication(table, later, next));
  }
}
