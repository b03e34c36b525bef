/** Guarantees of the policy-case protocol over every interleaving of its steps. */
module PolicyProtocol {
  import opened Prelude
  import opened Types
  import opened PolicyCases

  /** One atomic step; a step that fails changes nothing. */
  datatype Step =
    | IntentStep(session: Session, request: Request)
    | ControlStep(key: int, controls: Controls, expected: int, authorised: bool)
    | PendingStep(entity: Id)
    | PublishStep(key: int, review: Review, publication: Publication)
    | OpenStep(review: Review, publication: Publication)
    | ClearStep(entity: Id)
    | BackfillStep(key: int, at: Instant)
    | BindingStep(id: Id, binding: Binding)

  function Submitted(t: Tables, s: Session, q: Request): Tables {
    match Submit(t, s, q)
    case Ok(done) => done.1
    case Err(_) => t
  }

  /** A changed row's revision is still a number the column can hold. */
  predicate Fits(c: Case, next: Case) {
    next == c || next.revision <= MAX_REVISION
  }

  predicate AllFit(cases: map<int, Case>, change: Case -> Case) {
    forall k | k in cases :: Fits(cases[k], change(cases[k]))
  }

  function Changed(cases: map<int, Case>, change: Case -> Case): map<int, Case> {
    map k | k in cases :: change(cases[k])
  }

  function Marking(entity: Id): Case -> Case { (c: Case) => MarkPending(c, entity) }
  function Clearing(entity: Id): Case -> Case { (c: Case) => ClearPending(c, entity) }

  /** A review has at most one case; a second insert fails. */
  predicate HasCase(cases: map<int, Case>, review: Id) {
    exists k | k in cases :: cases[k].review == review
  }

  function Apply(t: Tables, step: Step): Tables {
    match step
    case IntentStep(s, q) => Submitted(t, s, q)
    case ControlStep(key, controls, expected, authorised) =>
      (match SetControls(t, key, controls, expected, authorised) case Ok(n) => n case Err(_) => t)
    case PendingStep(entity) =>
      if AllFit(t.cases, Marking(entity)) then t.(cases := Changed(t.cases, Marking(entity))) else t
    case PublishStep(key, review, publication) =>
      if key in t.cases && Fits(t.cases[key], Project(t.cases[key], review, publication))
      then t.(cases := t.cases[key := Project(t.cases[key], review, publication)]) else t
    case OpenStep(review, publication) =>
      if HasCase(t.cases, review.id) then t
      else t.(cases := t.cases[t.nextKey := OpenCase(review, publication)], nextKey := t.nextKey + 1)
    case ClearStep(entity) =>
      if AllFit(t.cases, Clearing(entity)) then t.(cases := Changed(t.cases, Clearing(entity))) else t
    case BackfillStep(key, at) =>
      if key in t.cases && t.cases[key].openedAt.None? && !t.cases[key].openedKnown
        && t.cases[key].revision < MAX_REVISION
      then t.(cases := t.cases[key := Backfill(t.cases[key], at)]) else t
    case BindingStep(id, binding) => t.(bindings := t.bindings[id := binding])
  }

  function Run(t: Tables, steps: seq<Step>): Tables
    decreases |steps|
  {
    if steps == [] then t else Run(Apply(t, steps[0]), steps[1..])
  }

  /** Whether a step of a publication can be carried out. */
  predicate Enabled(t: Tables, step: Step) {
    match step
    case PublishStep(key, review, publication) =>
      key in t.cases && Fits(t.cases[key], Project(t.cases[key], review, publication))
    case OpenStep(review, _) => !HasCase(t.cases, review.id)
    case ClearStep(entity) => AllFit(t.cases, Clearing(entity))
    case _ => true
  }

  /** The step publishes the review: into its case, or into a new one if it has none. */
  predicate Publishes(t: Tables, step: Step, review: Review, p: Publication) {
    if HasCase(t.cases, review.id) then
      && step.PublishStep? && step.review == review && step.publication == p
      && step.key in t.cases && t.cases[step.key].review == review.id
    else step == OpenStep(review, p)
  }

  /** Case keys come from the sequence; receipts are of known cases. */
  ghost predicate Known(t: Tables) {
    && (forall k | k in t.cases :: k < t.nextKey)
    && (forall r | r in t.receipts :: t.receipts[r].caseKey in t.cases)
  }

  // ---- one case for each review ----

  ghost predicate OneCaseEach(cases: map<int, Case>) {
    forall j, k | j in cases && k in cases && cases[j].review == cases[k].review :: j == k
  }

  lemma StepKeepsReviews(t: Tables, step: Step, key: int)
    requires Known(t) && key in Apply(t, step).cases
    ensures key in t.cases ==> Apply(t, step).cases[key].review == t.cases[key].review
    ensures key !in t.cases ==> step.OpenStep? && key == t.nextKey && !HasCase(t.cases, step.review.id)
    ensures key !in t.cases ==> Apply(t, step).cases[key].review == step.review.id
  {
  }

  /** Over every run a review keeps one case, so a publication meets each case at most once. */
  lemma {:induction false} RunOneCaseEach(t: Tables, steps: seq<Step>)
    requires Known(t) && OneCaseEach(t.cases)
    ensures OneCaseEach(Run(t, steps).cases)
    decreases |steps|
  {
    if steps != [] {
      var n := Apply(t, steps[0]);
      forall j, k | j in n.cases && k in n.cases && n.cases[j].review == n.cases[k].review ensures j == k {
        StepKeepsReviews(t, steps[0], j);
        StepKeepsReviews(t, steps[0], k);
      }
      StepKnown(t, steps[0]);
      RunOneCaseEach(n, steps[1..]);
    }
  }

  // ---- the action revision identifies the action tuple ----

  /** `d` is a later state of the case `c`. */
  predicate Advances(c: Case, d: Case) {
    c.revision < d.revision || (c.revision == d.revision && TupleOf(c) == TupleOf(d))
  }

  lemma SubmitAdvances(t: Tables, s: Session, q: Request, key: int)
    requires key in t.cases
    ensures key in Submitted(t, s, q).cases && Advances(t.cases[key], Submitted(t, s, q).cases[key])
  {
  }

  lemma ProjectAdvances(c: Case, r: Review, p: Publication)
    ensures Advances(c, Project(c, r, p))
  {
    var next := Projected(c, r, p);
    assert TupleOf(Project(c, r, p)) == TupleOf(next);
  }

  lemma StepAdvances(t: Tables, step: Step, key: int)
    requires Known(t) && key in t.cases
    ensures key in Apply(t, step).cases && Advances(t.cases[key], Apply(t, step).cases[key])
  {
    match step
    case IntentStep(s, q) => SubmitAdvances(t, s, q, key);
    case PublishStep(k, review, publication) => ProjectAdvances(t.cases[key], review, publication);
    case _ =>
  }

  lemma SubmitKnown(t: Tables, s: Session, q: Request)
    requires Known(t)
    ensures Known(Submitted(t, s, q))
  {
  }

  lemma StepKnown(t: Tables, step: Step)
    requires Known(t)
    ensures Known(Apply(t, step))
  {
    match step
    case IntentStep(s, q) => SubmitKnown(t, s, q);
    case _ =>
  }

  lemma {:induction false} RunAdvances(t: Tables, steps: seq<Step>, key: int)
    requires Known(t) && key in t.cases
    ensures Known(Run(t, steps)) && key in Run(t, steps).cases && Advances(t.cases[key], Run(t, steps).cases[key])
    decreases |steps|
  {
    if steps != [] {
      StepKnown(t, steps[0]);
      StepAdvances(t, steps[0], key);
      RunAdvances(Apply(t, steps[0]), steps[1..], key);
    }
  }

  /** Two states of a case with the same action revision have the same action tuple, whatever steps
      came between; and the revision never falls. */
  lemma RevisionIdentifiesTuple(t: Tables, steps: seq<Step>, key: int)
    requires Known(t) && key in t.cases
    ensures key in Run(t, steps).cases && t.cases[key].revision <= Run(t, steps).cases[key].revision
    ensures t.cases[key].revision == Run(t, steps).cases[key].revision ==>
      TupleOf(t.cases[key]) == TupleOf(Run(t, steps).cases[key])
  {
    RunAdvances(t, steps, key);
  }

  // ---- an applied intent acted on what its caller read ----

  predicate Applied(reply: Reply) { reply.Recorded? && reply.receipt.outcome.AppliedControl? }

  /** An applied intent came from an active, attached binding of the policy it names, met the case as
      its caller read it, open and not waiting, and kept the limits of its action. */
  lemma AppliedIsFresh(t: Tables, s: Session, q: Request)
    requires ReceiptKey(q) !in t.receipts && Submit(t, s, q).Ok? && Applied(Submit(t, s, q).value.0)
    ensures q.body.caseKey in t.cases && q.body.binding in t.bindings
    ensures var b := t.bindings[q.body.binding];
      b.active && s.attached && !b.replaced && b.policyDigest == q.body.policyDigest
      && ActionOf(q.body.arguments) in b.actions
    ensures var c := t.cases[q.body.caseKey]; var n := Submit(t, s, q).value.1.cases[q.body.caseKey];
      && Fresh(c, q.body) && !c.pending && c.status.Open? && ActionOf(q.body.arguments) in c.permitted
      && n.revision == c.revision + 1 == Submit(t, s, q).value.0.receipt.revision
      && (q.body.arguments.AssignQueue? ==> n == c.(queue := Some(q.body.arguments.queue), revision := n.revision))
      && (q.body.arguments.SetDueAt? ==> n == c.(due := Some(s.read(q.body.arguments.text)), revision := n.revision))
      && (q.body.arguments.Escalate? ==> n == c.(level := c.level + 1, revision := n.revision))
    ensures var c := t.cases[q.body.caseKey]; var b := t.bindings[q.body.binding];
      && (q.body.arguments.AssignQueue? ==> q.body.arguments.queue in b.queues && !c.protected)
      && (q.body.arguments.SetDueAt? ==>
            && c.openedAt.Some? && c.openedAt.value <= s.read(q.body.arguments.text)
            && (b.maxDue.Some? ==> s.read(q.body.arguments.text) <= c.openedAt.value + b.maxDue.value))
      && (q.body.arguments.Escalate? ==>
            && c.due.Some? && c.due.value <= s.now && q.body.arguments.level == c.level + 1 <= b.maxLevel)
  {
  }

  /** Whoever read a case and saw it unchanged in revision decided on the tuple the intent was applied to. */
  lemma IntentActsOnWhatWasRead(read: Tables, steps: seq<Step>, s: Session, q: Request)
    requires Known(read) && q.body.caseKey in read.cases && read.cases[q.body.caseKey].revision == q.body.revision
    requires var t := Run(read, steps);
      ReceiptKey(q) !in t.receipts && Submit(t, s, q).Ok? && Applied(Submit(t, s, q).value.0)
    ensures q.body.caseKey in Run(read, steps).cases
    ensures TupleOf(Run(read, steps).cases[q.body.caseKey]) == TupleOf(read.cases[q.body.caseKey])
  {
    RunAdvances(read, steps, q.body.caseKey);
    AppliedIsFresh(Run(read, steps), s, q);
  }

  // ---- replay ----

  /** A used request key changes no table, and answers from its receipt or reports a conflict. */
  lemma ReplayChangesNothing(t: Tables, s: Session, q: Request)
    requires ReceiptKey(q) in t.receipts
    ensures Submitted(t, s, q) == t
    ensures Submit(t, s, q).Ok? ==>
      Submit(t, s, q).value.0 == (if t.receipts[ReceiptKey(q)].body == q.body then Recorded(t.receipts[ReceiptKey(q)])
        else IdempotencyConflict)
  {
  }

  lemma SubmitKeepsReceipts(t: Tables, s: Session, q: Request, k: (Id, Id))
    requires k in t.receipts
    ensures k in Submitted(t, s, q).receipts && Submitted(t, s, q).receipts[k] == t.receipts[k]
  {
  }

  lemma {:induction false} ReceiptsStand(t: Tables, steps: seq<Step>, k: (Id, Id))
    requires k in t.receipts
    ensures k in Run(t, steps).receipts && Run(t, steps).receipts[k] == t.receipts[k]
    decreases |steps|
  {
    if steps != [] {
      match steps[0] {
        case IntentStep(s, q) => SubmitKeepsReceipts(t, s, q, k);
        case _ =>
      }
      ReceiptsStand(Apply(t, steps[0]), steps[1..], k);
    }
  }

  /** Sending an answered request again, however much later, gives the same receipt and changes nothing. */
  lemma ResubmissionIsIdempotent(t: Tables, s: Session, q: Request, steps: seq<Step>, later: Session)
    requires Submit(t, s, q).Ok? && Submit(t, s, q).value.0.Recorded?
    ensures var n := Run(Submit(t, s, q).value.1, steps);
      && Submitted(n, later, q) == n
      && (Submit(n, later, q).Ok? ==> Submit(n, later, q).value.0 == Submit(t, s, q).value.0)
  {
    var first := Submit(t, s, q).value.1;
    ReceiptsStand(first, steps, ReceiptKey(q));
    ReplayChangesNothing(Run(first, steps), later, q);
  }

  // ---- at most one effect per escalation level ----

  /** No level was applied to a case twice. */
  ghost predicate OnceEach(t: Tables) {
    forall j, k | j in t.receipts && k in t.receipts && t.receipts[j].action.EscalateAction?
      && t.receipts[k].action.EscalateAction?
        && t.receipts[j].outcome.AppliedControl? && t.receipts[k].outcome.AppliedControl?
        && t.receipts[j].caseKey == t.receipts[k].caseKey
          && t.receipts[j].control.level == t.receipts[k].control.level :: j == k
  }

  lemma SubmitOnce(t: Tables, s: Session, q: Request)
    requires OnceEach(t)
    ensures OnceEach(Submitted(t, s, q))
  {
    var n := Submitted(t, s, q);
    var key := ReceiptKey(q);
    if n != t && EscalationTo(n.receipts[key], q.body.caseKey, n.receipts[key].control.level) {
      forall k | k in t.receipts ensures !EscalationTo(t.receipts[k], q.body.caseKey, n.receipts[key].control.level) {}
    }
  }

  lemma {:induction false} RunOnce(t: Tables, steps: seq<Step>)
    requires OnceEach(t)
    ensures OnceEach(Run(t, steps))
    decreases |steps|
  {
    if steps != [] {
      match steps[0] {
        case IntentStep(s, q) => SubmitOnce(t, s, q);
        case _ =>
      }
      RunOnce(Apply(t, steps[0]), steps[1..]);
    }
  }

  const EMPTY := Tables(map[], map[], map[], 1)

  /** Over every run from empty tables each case was escalated to each level at most once, across all
      bindings and after any manual reduction. */
  lemma EscalatedAtMostOnce(steps: seq<Step>, j: (Id, Id), k: (Id, Id), caseKey: int, level: int)
    requires j in Run(EMPTY, steps).receipts && k in Run(EMPTY, steps).receipts
    requires EscalationTo(Run(EMPTY, steps).receipts[j], caseKey, level)
      && EscalationTo(Run(EMPTY, steps).receipts[k], caseKey, level)
    ensures j == k
  {
    RunOnce(EMPTY, steps);
  }

  /** After a level was applied a new request for it is refused, even if the level was reduced by hand since. */
  lemma AppliedLevelStaysApplied(t: Tables, steps: seq<Step>, k: (Id, Id), s: Session, q: Request)
    requires k in t.receipts && q.body.arguments.Escalate?
      && EscalationTo(t.receipts[k], q.body.caseKey, q.body.arguments.level)
    requires ReceiptKey(q) !in Run(t, steps).receipts
    ensures Submit(Run(t, steps), s, q).Ok? ==> !Applied(Submit(Run(t, steps), s, q).value.0)
  {
    ReceiptsStand(t, steps, k);
  }

  // ---- effects are ordered by revision ----

  /** Applied receipts carry distinct revisions of their case, none later than the case itself. */
  ghost predicate Ordered(t: Tables) {
    && Known(t)
    && (forall j | j in t.receipts && t.receipts[j].outcome.AppliedControl? ::
      t.receipts[j].revision <= t.cases[t.receipts[j].caseKey].revision)
    && (forall j, k | j in t.receipts && k in t.receipts && t.receipts[j].outcome.AppliedControl?
      && t.receipts[k].outcome.AppliedControl?
          && t.receipts[j].caseKey == t.receipts[k].caseKey && t.receipts[j].revision == t.receipts[k].revision ::
            j == k)
  }

  /** `n` is `t` with one more receipt, whose effect, if any, is the next revision of its case. */
  predicate AddsReceipt(t: Tables, n: Tables, key: (Id, Id), r: Receipt) {
    && key !in t.receipts && n.receipts == t.receipts[key := r]
    && r.caseKey in t.cases && n.cases.Keys == t.cases.Keys
    && (forall k | k in t.cases && k != r.caseKey :: n.cases[k] == t.cases[k])
    && n.cases[r.caseKey].revision
      == (if r.outcome.AppliedControl? then t.cases[r.caseKey].revision + 1 else t.cases[r.caseKey].revision)
    && r.revision == n.cases[r.caseKey].revision
  }

  lemma SubmitAdds(t: Tables, s: Session, q: Request)
    ensures Submitted(t, s, q) == t || (exists r :: AddsReceipt(t, Submitted(t, s, q), ReceiptKey(q), r))
  {
    var n := Submitted(t, s, q);
    if n != t {
      assert AddsReceipt(t, n, ReceiptKey(q), n.receipts[ReceiptKey(q)]);
    }
  }

  lemma AddedOrdered(t: Tables, n: Tables, key: (Id, Id), r: Receipt)
    requires Ordered(t) && AddsReceipt(t, n, key, r) && Known(n)
    ensures Ordered(n)
  {
  }

  lemma SubmitOrdered(t: Tables, s: Session, q: Request)
    requires Ordered(t)
    ensures Ordered(Submitted(t, s, q))
  {
    SubmitKnown(t, s, q);
    SubmitAdds(t, s, q);
    if Submitted(t, s, q) != t {
      var r :| AddsReceipt(t, Submitted(t, s, q), ReceiptKey(q), r);
      AddedOrdered(t, Submitted(t, s, q), ReceiptKey(q), r);
    }
  }

  lemma StepOrdered(t: Tables, step: Step)
    requires Ordered(t)
    ensures Ordered(Apply(t, step))
  {
    StepKnown(t, step);
    match step
    case IntentStep(s, q) => SubmitOrdered(t, s, q);
    case _ =>
      forall j | j in t.receipts
        ensures t.cases[t.receipts[j].caseKey].revision <= Apply(t, step).cases[t.receipts[j].caseKey].revision {
        StepAdvances(t, step, t.receipts[j].caseKey);
      }
  }

  /** Over every run the control changes applied to a case are strictly ordered by its revision. */
  lemma {:induction false} EffectsAreOrdered(t: Tables, steps: seq<Step>)
    requires Ordered(t)
    ensures Ordered(Run(t, steps))
    decreases |steps|
  {
    if steps != [] {
      StepOrdered(t, steps[0]);
      EffectsAreOrdered(Apply(t, steps[0]), steps[1..]);
    }
  }
}
