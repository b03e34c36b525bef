/** The policy-case protocol: what each row-locked step does to the case and receipt tables. */
module PolicyCases {
  import opened Prelude
  import opened Types

  const MAX_REVISION: int := 0x7FFF_FFFF_FFFF_FFFF
  const MAX_LEVEL: int := 0x7FFF_FFFF

  type Instant = int
  type Digest = nat

  datatype Status = Open | Resolved
  datatype Action = AssignQueueAction | EscalateAction | SetDueAtAction

  datatype Case = Case(
    review: Id, entity: Id, status: Status, reason: string, permitted: set<Action>,
    queue: Option<string>, due: Option<Instant>, level: int, protected: bool,
    openedAt: Option<Instant>, openedKnown: bool,
    reviewVersion: int, definitionVersion: int, publicationRevision: int, epoch: int, evidence: Digest,
    revision: int, pending: bool)

  /** Everything an action is judged on; a change of any part moves the action revision. */
  datatype ActionTuple = ActionTuple(
    status: Status, reason: string, permitted: set<Action>,
    queue: Option<string>, due: Option<Instant>, level: int, protected: bool, openingAvailable: bool, pending: bool,
    reviewVersion: int, definitionVersion: int, epoch: int, evidence: Digest)

  function TupleOf(c: Case): ActionTuple {
    ActionTuple(c.status, c.reason, c.permitted, c.queue, c.due, c.level, c.protected, c.openedAt.Some?, c.pending,
                c.reviewVersion, c.definitionVersion, c.epoch, c.evidence)
  }

  datatype Arguments =
    | AssignQueue(queue: string)
    | SetDueAt(text: string)
    | Escalate(level: int)

  function ActionOf(a: Arguments): Action {
    match a
    case AssignQueue(_) => AssignQueueAction
    case SetDueAt(_) => SetDueAtAction
    case Escalate(_) => EscalateAction
  }

  /** The body a request digest is taken of; the digest is an injective function of it. */
  datatype Body = Body(
    binding: Id, caseKey: int, arguments: Arguments,
    reviewVersion: int, definitionVersion: int, publicationRevision: int, epoch: int, evidence: Digest,
    revision: int, policyDigest: Digest, policyRevision: string, evaluationRef: string, workRef: string)

  datatype Request = Request(key: Id, body: Body)

  datatype Outcome =
    | AppliedControl | NoChange | BindingReplaced | BindingPaused | PolicyMismatch | PendingStewardship
    | StaleCase | CaseClosed | ActionDenied | ManualProtection | OpenedAtUnknown | LimitExceeded

  datatype Control = Control(queue: Option<string>, due: Option<string>, level: int, protected: bool)

  datatype Receipt = Receipt(body: Body, caseKey: int, action: Action, revision: int, outcome: Outcome,
      control: Control)

  datatype Binding = Binding(
    entity: Id, policyDigest: Digest, actions: set<Action>, queues: set<string>,
    maxDue: Option<int>, maxLevel: int, replaced: bool, active: bool)

  datatype Tables = Tables(cases: map<int, Case>, receipts: map<(Id, Id), Receipt>, bindings: map<Id, Binding>,
      nextKey: int)

  /** What a step sees of the session: the clock, how an instant is shown as text and read from it
      (both depend on the session's time zone), and whether the caller holds the bound role, the
      binding was activated for this server run, and its runtime row names this database and role. */
  datatype Session = Session(now: Instant, show: Instant -> string, read: string -> Instant, authorised: bool,
      activated: bool, attached: bool)

  datatype PolicyError =
    | Malformed | NoBinding | Unauthorized | NotActivated | NoCase
    | WrongScope | Stale | Closed | Exhausted | AlreadyKnown

  datatype Reply = Recorded(receipt: Receipt) | IdempotencyConflict

  // ---- submitting an intent ----

  function ShowDue(s: Session, due: Option<Instant>): Option<string> {
    match due case None => None case Some(i) => Some(s.show(i))
  }

  function CurrentControl(s: Session, c: Case): Control {
    Control(c.queue, ShowDue(s, c.due), c.level, c.protected)
  }

  predicate ReferenceValid(value: string) { 0 < |value| <= 256 }

  predicate ArgumentsValid(a: Arguments) {
    match a
    case AssignQueue(queue) => 0 < |queue| <= 63
    case SetDueAt(text) => 0 < |text|
    case Escalate(level) => 0 < level <= MAX_LEVEL
  }

  predicate WellFormed(b: Body) {
    && 0 < b.caseKey && 0 < b.reviewVersion && 0 < b.definitionVersion && 0 <= b.publicationRevision
    && 0 <= b.epoch && 0 < b.revision
    && ReferenceValid(b.policyRevision) && ReferenceValid(b.evaluationRef) && ReferenceValid(b.workRef)
    && ArgumentsValid(b.arguments)
  }

  predicate Fresh(c: Case, b: Body) {
    && c.reviewVersion == b.reviewVersion && c.definitionVersion == b.definitionVersion
    && c.publicationRevision == b.publicationRevision && c.epoch == b.epoch
    && c.evidence == b.evidence && c.revision == b.revision
  }

  /** Some receipt already applied this escalation level to the case, whichever binding it came from. */
  predicate LevelApplied(receipts: map<(Id, Id), Receipt>, caseKey: int, level: int) {
    exists k | k in receipts :: EscalationTo(receipts[k], caseKey, level)
  }

  predicate EscalationTo(r: Receipt, caseKey: int, level: int) {
    r.caseKey == caseKey && r.action.EscalateAction? && r.outcome.AppliedControl? && r.control.level == level
  }

  function Gate(receipts: map<(Id, Id), Receipt>, caseKey: int, level: int, maximum: int): Option<Outcome> {
    if level > maximum then Some(LimitExceeded)
    else if LevelApplied(receipts, caseKey, level) then Some(ActionDenied)
    else None
  }

  datatype Verdict = Refuse(outcome: Outcome) | Proceed(queue: Option<string>, due: Option<string>,
      instant: Option<Instant>, level: int)

  /** The checks on binding, policy, case and action, in order. */
  function Admit(b: Binding, c: Case, s: Session, q: Request): Option<Outcome> {
    if b.replaced then Some(BindingReplaced)
    else if !b.active || !s.attached then Some(BindingPaused)
    else if b.policyDigest != q.body.policyDigest then Some(PolicyMismatch)
    else if c.pending then Some(PendingStewardship)
    else if !Fresh(c, q.body) then Some(StaleCase)
    else if !c.status.Open? then Some(CaseClosed)
    else if ActionOf(q.body.arguments) !in c.permitted
      || ActionOf(q.body.arguments) !in b.actions then Some(ActionDenied)
    else None
  }

  /** The controls the action asks for, or why it is refused. */
  function Judge(receipts: map<(Id, Id), Receipt>, b: Binding, c: Case, s: Session, q: Request): Verdict {
    var shown := ShowDue(s, c.due);
    match q.body.arguments
    case AssignQueue(queue) =>
      if queue !in b.queues then Refuse(ActionDenied)
      else if c.protected then Refuse(ManualProtection)
      else Proceed(Some(queue), shown, c.due, c.level)
    case SetDueAt(text) =>
      var instant := s.read(text);
      if c.openedAt.None? then Refuse(OpenedAtUnknown)
      else if instant < c.openedAt.value
        || (b.maxDue.Some? && instant > c.openedAt.value + b.maxDue.value) then Refuse(LimitExceeded)
      else Proceed(c.queue, Some(text), Some(instant), c.level)
    case Escalate(level) =>
      if c.due.None? || c.due.value > s.now then Refuse(ActionDenied)
      else if level != c.level + 1 then Refuse(StaleCase)
      else match Gate(receipts, q.body.caseKey, level, b.maxLevel)
        case Some(outcome) => Refuse(outcome)
        case None => Proceed(c.queue, shown, c.due, level)
  }

  function Verdicted(receipts: map<(Id, Id), Receipt>, b: Binding, c: Case, s: Session, q: Request): Verdict {
    match Admit(b, c, s, q)
    case Some(outcome) => Refuse(outcome)
    case None => Judge(receipts, b, c, s, q)
  }

  predicate Changes(c: Case, s: Session, v: Verdict)
    requires v.Proceed?
  {
    v.queue != c.queue || v.due != ShowDue(s, c.due) || v.level != c.level
  }

  function ReceiptKey(q: Request): (Id, Id) { (q.body.binding, q.key) }

  function NewReceipt(q: Request, revision: int, outcome: Outcome, control: Control): Receipt {
    Receipt(q.body, q.body.caseKey, ActionOf(q.body.arguments), revision, outcome, control)
  }

  function Record(t: Tables, q: Request, revision: int, outcome: Outcome, control: Control): (Reply, Tables) {
    var r := NewReceipt(q, revision, outcome, control);
    (Recorded(r), t.(receipts := t.receipts[ReceiptKey(q) := r]))
  }

  /** A request key already used answers from its receipt, or conflicts if the body differs. */
  function Replay(t: Tables, q: Request): Option<Reply> {
    if ReceiptKey(q) !in t.receipts then None
    else if t.receipts[ReceiptKey(q)].body == q.body then Some(Recorded(t.receipts[ReceiptKey(q)]))
    else Some(IdempotencyConflict)
  }

  function Control'(c: Case, v: Verdict): Control
    requires v.Proceed?
  {
    Control(v.queue, v.due, v.level, c.protected)
  }

  /** Carries out a verdict on an existing case. */
  function Conclude(t: Tables, s: Session, q: Request, c: Case, v: Verdict): Result<(Reply, Tables), PolicyError> {
    if v.Refuse? then Ok(Record(t, q, c.revision, v.outcome, CurrentControl(s, c)))
    else if !Changes(c, s, v) then Ok(Record(t, q, c.revision, NoChange, Control'(c, v)))
    else if c.revision >= MAX_REVISION then Err(Exhausted)
    else
      var next := c.(queue := v.queue, due := v.instant, level := v.level, revision := c.revision + 1);
      Ok(Record(t.(cases := t.cases[q.body.caseKey := next]), q, next.revision, AppliedControl, Control'(c, v)))
  }

  function Submit(t: Tables, s: Session, q: Request): Result<(Reply, Tables), PolicyError> {
    if !WellFormed(q.body) then Err(Malformed)
    else if q.body.binding !in t.bindings then Err(NoBinding)
    else if !s.authorised then Err(Unauthorized)
    else match Replay(t, q)
      case Some(reply) => Ok((reply, t))
      case None =>
        if !s.activated then Err(NotActivated)
        else if q.body.caseKey !in t.cases then Err(NoCase)
        else
          var b, c := t.bindings[q.body.binding], t.cases[q.body.caseKey];
          if c.entity != b.entity then Err(WrongScope)
          else Conclude(t, s, q, c, Verdicted(t.receipts, b, c, s, q))
  }

  // ---- the steps of people and of publication ----

  datatype Controls = Controls(queue: Option<string>, due: Option<Instant>, level: int, protected: bool)

  /** A steward sets the controls of a case by hand. */
  function SetControls(t: Tables, key: int, controls: Controls, expected: int,
      authorised: bool): Result<Tables, PolicyError> {
    if key <= 0 || expected <= 0 || controls.level < 0 then Err(Malformed)
    else if key !in t.cases then Err(NoCase)
    else
      var c := t.cases[key];
      if c.status.Resolved? then Err(Closed)
      else if !authorised then Err(Unauthorized)
      else if c.revision != expected then Err(Stale)
      else if controls.queue == Some("") then Err(Malformed)
      else
        var next := c.(queue := controls.queue, due := controls.due, level := controls.level, protected :=
          controls.protected);
        if next == c then Ok(t)
        else if c.revision >= MAX_REVISION then Err(Exhausted)
        else Ok(t.(cases := t.cases[key := next.(revision := c.revision + 1)]))
  }

  /** A decision makes an open case of the entity wait for the next publication. */
  function MarkPending(c: Case, entity: Id): Case {
    if c.entity == entity && c.status.Open? && !c.pending then c.(pending := true, revision := c.revision + 1) else c
  }

  /** What a review row says of its case when it is published. */
  datatype Review = Review(id: Id, status: Status, reason: string, version: int, changed: int,
      openedAt: Option<Instant>)

  datatype Publication = Publication(entity: Id, definitionVersion: int, revision: int, epoch: int, evidence: Digest)

  function PermittedFor(status: Status, timed: bool): set<Action> {
    if status.Resolved? then {}
    else if timed then {AssignQueueAction, EscalateAction, SetDueAtAction}
    else {AssignQueueAction, EscalateAction}
  }

  predicate BasisChanged(c: Case, r: Review, p: Publication) {
    r.changed == p.revision && c.publicationRevision != p.revision
  }

  /** The case after its review is published, before its revision is settled. */
  function Projected(c: Case, r: Review, p: Publication): Case {
    var basis := BasisChanged(c, r, p);
    c.(entity := p.entity, status := r.status, reason := r.reason, permitted :=
      PermittedFor(r.status, c.openedAt.Some?),
       reviewVersion := if basis then r.version else c.reviewVersion,
       definitionVersion := if basis then p.definitionVersion else c.definitionVersion,
       publicationRevision := if basis then p.revision else c.publicationRevision,
       evidence := if basis || c.epoch != p.epoch then p.evidence else c.evidence,
       epoch := p.epoch, pending := false)
  }

  function NextRevision(previous: int, before: ActionTuple, after: ActionTuple): int {
    if before == after then previous else previous + 1
  }

  /** Publication of an existing case. */
  function Project(c: Case, r: Review, p: Publication): Case {
    var next := Projected(c, r, p);
    next.(revision := NextRevision(c.revision, TupleOf(c), TupleOf(next)))
  }

  /** Publication of a review that has no case yet. */
  function OpenCase(r: Review, p: Publication): Case {
    Case(r.id, p.entity, r.status, r.reason, PermittedFor(r.status, r.openedAt.Some?), None, None, 0, false,
      r.openedAt, r.openedAt.Some?,
         r.version, p.definitionVersion, p.revision, p.epoch, p.evidence, 1, false)
  }

  /** Publication ends the waiting of the entity's remaining cases. */
  function ClearPending(c: Case, entity: Id): Case {
    if c.entity == entity && c.pending then c.(pending := false, revision := c.revision + 1) else c
  }

  /** An administrator supplies an opening time that was never known. */
  function Backfill(c: Case, at: Instant): Case {
    c.(openedAt := Some(at), openedKnown := true,
       permitted := if c.status.Open? then {AssignQueueAction, EscalateAction, SetDueAtAction} else {}, revision :=
         c.revision + 1)
  }
}
