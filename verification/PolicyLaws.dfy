/** When a policy step takes effect and what it then changes, in plain words over the tables. */
module PolicyLaws {
  import opened Prelude
  import opened Types
  import opened PolicyCases
  import opened PolicyProtocol

  /** A reason against a request, whether it stands, and the answer given when it does. */
  datatype Objection<A> = Objection(stands: bool, answer: A)

  /** `i` is the first objection that stands. */
  predicate First<A>(objections: seq<Objection<A>>, i: nat) {
    && i < |objections| && objections[i].stands
    && forall j | 0 <= j < i :: !objections[j].stands
  }

  predicate Unopposed<A>(objections: seq<Objection<A>>) {
    forall i | 0 <= i < |objections| :: !objections[i].stands
  }

  // ---- submitting an intent: errors and replay ----

  predicate LineGiven(text: string) { |text| != 0 && |text| < 257 }

  /** The numbers are in range, the references given, and the arguments fit their action. */
  predicate BodySane(b: Body) {
    && b.caseKey >= 1 && b.reviewVersion >= 1 && b.definitionVersion >= 1 && b.revision >= 1
    && b.publicationRevision >= 0 && b.epoch >= 0
    && LineGiven(b.policyRevision) && LineGiven(b.evaluationRef) && LineGiven(b.workRef)
    && (b.arguments.AssignQueue? ==> 1 <= |b.arguments.queue| < 64)
    && (b.arguments.SetDueAt? ==> 1 <= |b.arguments.text|)
    && (b.arguments.Escalate? ==> 1 <= b.arguments.level < 0x8000_0000)
  }

  predicate Elsewhere(t: Tables, q: Request) {
    && q.body.binding in t.bindings && q.body.caseKey in t.cases
    && t.cases[q.body.caseKey].entity != t.bindings[q.body.binding].entity
  }

  /** What is wrong before a used key is looked up. */
  function Refusals(t: Tables, s: Session, q: Request): seq<Objection<PolicyError>> {
    [ Objection(!BodySane(q.body), Malformed),
      Objection(q.body.binding !in t.bindings, NoBinding),
      Objection(!s.authorised, Unauthorized) ]
  }

  /** What is wrong with a request whose key is new. */
  function LateRefusals(t: Tables, s: Session, q: Request): seq<Objection<PolicyError>> {
    [ Objection(!s.activated, NotActivated),
      Objection(q.body.caseKey !in t.cases, NoCase),
      Objection(Elsewhere(t, q), WrongScope) ]
  }

  predicate Used(t: Tables, q: Request) { (q.body.binding, q.key) in t.receipts }

  /** The call fails with the first thing wrong with it; a used key is answered before a late one counts. */
  lemma CallExplained(t: Tables, s: Session, q: Request, i: nat)
    ensures First(Refusals(t, s, q), i) ==> Submit(t, s, q) == Err(Refusals(t, s, q)[i].answer)
    ensures Unopposed(Refusals(t, s, q)) && Used(t, q) ==>
      var r := t.receipts[(q.body.binding, q.key)];
      Submit(t, s, q) == Ok((if r.body == q.body then Recorded(r) else IdempotencyConflict, t))
    ensures Unopposed(Refusals(t, s, q)) && !Used(t, q) && First(LateRefusals(t, s, q), i) ==>
      Submit(t, s, q) == Err(LateRefusals(t, s, q)[i].answer)
  {
    var early, late := Refusals(t, s, q), LateRefusals(t, s, q);
    assert Unopposed(early) ==> !early[0].stands && !early[1].stands && !early[2].stands;
    assert First(early, i) ==> (i > 0 ==> !early[0].stands) && (i > 1 ==> !early[1].stands);
    assert First(late, i) ==> (i > 0 ==> !late[0].stands) && (i > 1 ==> !late[1].stands);
  }

  // ---- submitting an intent: outcomes ----

  /** Nothing is wrong with the call, and its key is new. */
  predicate Heard(t: Tables, s: Session, q: Request) {
    Unopposed(Refusals(t, s, q)) && Unopposed(LateRefusals(t, s, q)) && !Used(t, q)
  }

  predicate ReadAsIs(c: Case, b: Body) {
    && b.reviewVersion == c.reviewVersion && b.definitionVersion == c.definitionVersion
    && b.publicationRevision == c.publicationRevision
    && b.epoch == c.epoch && b.evidence == c.evidence && b.revision == c.revision
  }

  predicate ActionAllowed(a: Arguments, allowed: set<Action>) {
    || (a.AssignQueue? && AssignQueueAction in allowed)
    || (a.SetDueAt? && SetDueAtAction in allowed)
    || (a.Escalate? && EscalateAction in allowed)
  }

  /** An escalation of the case to the level was applied before. */
  ghost predicate ReachedBefore(t: Tables, caseKey: int, level: int) {
    exists k | k in t.receipts ::
      var r := t.receipts[k];
      r.caseKey == caseKey && r.action == EscalateAction && r.outcome == AppliedControl && r.control.level == level
  }

  /** From the opening on, and within the binding's interval if it has one. */
  predicate DueInBounds(b: Binding, start: Instant, due: Instant) {
    start <= due && match b.maxDue case None => true case Some(m) => due - start <= m
  }

  /** What speaks against any action, in the order it is looked at. */
  function GeneralObjections(b: Binding, c: Case, s: Session, q: Request): seq<Objection<Outcome>> {
    [ Objection(b.replaced, BindingReplaced),
      Objection(!(b.active && s.attached), BindingPaused),
      Objection(b.policyDigest != q.body.policyDigest, PolicyMismatch),
      Objection(c.pending, PendingStewardship),
      Objection(!ReadAsIs(c, q.body), StaleCase),
      Objection(c.status == Resolved, CaseClosed),
      Objection(!(ActionAllowed(q.body.arguments, c.permitted) && ActionAllowed(q.body.arguments, b.actions)),
        ActionDenied) ]
  }

  /** What speaks against this action, in the order it is looked at. An escalation is due once the
      clock has reached the due time, and goes up one level at a time. */
  ghost function ActionObjections(t: Tables, b: Binding, c: Case, s: Session, q: Request): seq<Objection<Outcome>> {
    match q.body.arguments
    case AssignQueue(queue) =>
      [ Objection(queue !in b.queues, ActionDenied),
        Objection(c.protected, ManualProtection),
        Objection(c.queue == Some(queue), NoChange) ]
    case SetDueAt(text) =>
      [ Objection(c.openedAt.None?, OpenedAtUnknown),
        Objection(c.openedAt.Some? && !DueInBounds(b, c.openedAt.value, s.read(text)), LimitExceeded),
        Objection(c.due.Some? && s.show(c.due.value) == text, NoChange) ]
    case Escalate(level) =>
      [ Objection(c.due.None? || s.now < c.due.value, ActionDenied),
        Objection(level - 1 != c.level, StaleCase),
        Objection(b.maxLevel < level, LimitExceeded),
        Objection(ReachedBefore(t, q.body.caseKey, level), ActionDenied) ]
  }

  ghost function Objections(t: Tables, s: Session, q: Request): seq<Objection<Outcome>>
    requires q.body.binding in t.bindings && q.body.caseKey in t.cases
  {
    var (b, c) := (t.bindings[q.body.binding], t.cases[q.body.caseKey]);
    GeneralObjections(b, c, s, q) + ActionObjections(t, b, c, s, q)
  }

  /** The one thing an action changes besides the revision. */
  predicate Effect(c: Case, n: Case, s: Session, a: Arguments) {
    match a
    case AssignQueue(queue) => n == c.(queue := Some(queue), revision := c.revision + 1)
    case SetDueAt(text) => n == c.(due := Some(s.read(text)), revision := c.revision + 1)
    case Escalate(level) => n == c.(level := level, revision := c.revision + 1)
  }

  /** The controls as a receipt shows them: a due time just set in the caller's words, others as shown. */
  predicate Shown(control: Control, c: Case, s: Session, a: Option<Arguments>) {
    && control.protected == c.protected && control.level == c.level && control.queue == c.queue
    && control.due ==
      if a.Some? && a.value.SetDueAt? then Some(a.value.text)
      else if c.due.Some? then Some(s.show(c.due.value))
      else None
  }

  lemma HeardMeans(t: Tables, s: Session, q: Request)
    requires Heard(t, s, q)
    ensures q.body.binding in t.bindings && q.body.caseKey in t.cases && ReceiptKey(q) !in t.receipts
    ensures var (b, c) := (t.bindings[q.body.binding], t.cases[q.body.caseKey]);
      Submit(t, s, q) == Conclude(t, s, q, c, Verdicted(t.receipts, b, c, s, q))
  {
    var early, late := Refusals(t, s, q), LateRefusals(t, s, q);
    assert !early[0].stands && !early[1].stands && !early[2].stands;
    assert !late[0].stands && !late[1].stands && !late[2].stands;
  }

  lemma ReachedBeforeMeans(t: Tables, caseKey: int, level: int)
    ensures ReachedBefore(t, caseKey, level) <==> LevelApplied(t.receipts, caseKey, level)
  {
    if LevelApplied(t.receipts, caseKey, level) {
      var k :| k in t.receipts && EscalationTo(t.receipts[k], caseKey, level);
      assert t.receipts[k].control.level == level;
    }
    if ReachedBefore(t, caseKey, level) {
      var k :| k in t.receipts && t.receipts[k].caseKey == caseKey && t.receipts[k].action == EscalateAction
        && t.receipts[k].outcome == AppliedControl && t.receipts[k].control.level == level;
      assert EscalationTo(t.receipts[k], caseKey, level);
    }
  }

  lemma FirstOfTwo<A>(a: seq<Objection<A>>, b: seq<Objection<A>>, i: nat)
    ensures First(a + b, i) <==> if i < |a| then First(a, i) else Unopposed(a) && First(b, i - |a|)
    ensures Unopposed(a + b) <==> Unopposed(a) && Unopposed(b)
  {
    var all := a + b;
    assert forall j | 0 <= j < |a| :: all[j] == a[j];
    assert forall j | 0 <= j < |b| :: all[|a| + j] == b[j];
    if First(all, i) && i >= |a| {
      forall j | 0 <= j < i - |a| ensures !b[j].stands {
        assert !all[|a| + j].stands;
      }
    }
    if Unopposed(all) {
      forall j | 0 <= j < |b| ensures !b[j].stands {
        assert !all[|a| + j].stands;
      }
    }
  }

  lemma AdmitMeans(b: Binding, c: Case, s: Session, q: Request, i: nat)
    ensures First(GeneralObjections(b, c, s, q), i) ==>
      Admit(b, c, s, q) == Some(GeneralObjections(b, c, s, q)[i].answer)
    ensures Unopposed(GeneralObjections(b, c, s, q)) <==> Admit(b, c, s, q).None?
  {
    var list := GeneralObjections(b, c, s, q);
    if First(list, i) {
      assert i > 0 ==> !list[0].stands;
      assert i > 1 ==> !list[1].stands;
      assert i > 2 ==> !list[2].stands;
      assert i > 3 ==> !list[3].stands;
      assert i > 4 ==> !list[4].stands;
      assert i > 5 ==> !list[5].stands;
    }
    assert Unopposed(list) ==> !list[0].stands && !list[1].stands && !list[2].stands && !list[3].stands;
    assert Unopposed(list) ==> !list[4].stands && !list[5].stands && !list[6].stands;
  }

  /** The answer of `Judge` and `Conclude` together: a refusal, no change, or an effect. */
  function Ending(c: Case, s: Session, v: Verdict): Option<Outcome> {
    if v.Refuse? then Some(v.outcome) else if !Changes(c, s, v) then Some(NoChange) else None
  }

  lemma JudgeMeans(t: Tables, b: Binding, c: Case, s: Session, q: Request, i: nat)
    ensures First(ActionObjections(t, b, c, s, q), i) ==>
      Ending(c, s, Judge(t.receipts, b, c, s, q)) == Some(ActionObjections(t, b, c, s, q)[i].answer)
    ensures Unopposed(ActionObjections(t, b, c, s, q)) <==> Ending(c, s, Judge(t.receipts, b, c, s, q)).None?
  {
    var list := ActionObjections(t, b, c, s, q);
    if q.body.arguments.Escalate? {
      ReachedBeforeMeans(t, q.body.caseKey, q.body.arguments.level);
      assert Unopposed(list) ==> !list[3].stands;
      assert First(list, i) ==> (i > 2 ==> !list[2].stands);
    }
    assert Unopposed(list) ==> !list[0].stands && !list[1].stands && !list[2].stands;
    assert First(list, i) ==> (i > 0 ==> !list[0].stands) && (i > 1 ==> !list[1].stands);
  }

  /** A request heard for the first time gets the answer of the first objection to it, and only its
      receipt is added; with no objection it takes effect, unless the revision is exhausted. */
  ghost predicate Answered(t: Tables, s: Session, q: Request, done: (Reply, Tables), outcome: Outcome, acts: bool)
    requires q.body.caseKey in t.cases
  {
    var (c, n) := (t.cases[q.body.caseKey], done.1);
    && done.0.Recorded?
    && n.receipts == t.receipts[(q.body.binding, q.key) := done.0.receipt]
    && n.bindings == t.bindings && n.nextKey == t.nextKey
    && n.cases.Keys == t.cases.Keys
    && (forall k | k in t.cases && k != q.body.caseKey :: n.cases[k] == t.cases[k])
    && var r := done.0.receipt; var after := n.cases[q.body.caseKey];
       && r.body == q.body && r.caseKey == q.body.caseKey && r.outcome == outcome && r.revision == after.revision
       && ActionAllowed(q.body.arguments, {r.action})
       && (if acts then Effect(c, after, s, q.body.arguments) else after == c)
       && Shown(r.control, after, s, if acts then Some(q.body.arguments) else None)
  }

  lemma ConcludeMeans(t: Tables, s: Session, q: Request, c: Case, v: Verdict)
    requires q.body.caseKey in t.cases && t.cases[q.body.caseKey] == c
    requires v.Proceed? ==> exists b :: Judge(t.receipts, b, c, s, q) == v
    ensures Ending(c, s, v).Some? ==>
      && Conclude(t, s, q, c, v).Ok?
      && Answered(t, s, q, Conclude(t, s, q, c, v).value, Ending(c, s, v).value, false)
    ensures Ending(c, s, v).None? && c.revision >= MAX_REVISION ==> Conclude(t, s, q, c, v) == Err(Exhausted)
    ensures Ending(c, s, v).None? && c.revision < MAX_REVISION ==>
      && Conclude(t, s, q, c, v).Ok?
      && Answered(t, s, q, Conclude(t, s, q, c, v).value, AppliedControl, true)
  {
  }

  /** A request heard for the first time gets the answer of the first objection to it and changes only the
      receipts; with no objection it takes its effect, or fails if the revision is exhausted. */
  lemma IntentExplained(t: Tables, s: Session, q: Request, i: nat)
    requires Heard(t, s, q)
    ensures q.body.binding in t.bindings && q.body.caseKey in t.cases
    ensures First(Objections(t, s, q), i) ==>
      && Submit(t, s, q).Ok?
      && Answered(t, s, q, Submit(t, s, q).value, Objections(t, s, q)[i].answer, false)
    ensures Unopposed(Objections(t, s, q)) && t.cases[q.body.caseKey].revision >= 0x7FFF_FFFF_FFFF_FFFF ==>
      Submit(t, s, q) == Err(Exhausted)
    ensures Unopposed(Objections(t, s, q)) && t.cases[q.body.caseKey].revision < 0x7FFF_FFFF_FFFF_FFFF ==>
      && Submit(t, s, q).Ok?
      && Answered(t, s, q, Submit(t, s, q).value, AppliedControl, true)
  {
    HeardMeans(t, s, q);
    var b, c := t.bindings[q.body.binding], t.cases[q.body.caseKey];
    var general, particular := GeneralObjections(b, c, s, q), ActionObjections(t, b, c, s, q);
    FirstOfTwo(general, particular, i);
    AdmitMeans(b, c, s, q, i);
    if i >= |general| {
      JudgeMeans(t, b, c, s, q, i - |general|);
    } else {
      JudgeMeans(t, b, c, s, q, 0);
    }
    var v := Verdicted(t.receipts, b, c, s, q);
    ConcludeMeans(t, s, q, c, v);
  }

  // ---- the steps of people ----

  predicate ControlsAre(c: Case, controls: Controls) {
    && c.queue == controls.queue && c.due == controls.due
    && c.level == controls.level && c.protected == controls.protected
  }

  /** What speaks against a steward's change, in the order it is looked at. */
  function StewardObjections(t: Tables, key: int, controls: Controls, expected: int, authorised: bool):
      seq<Objection<PolicyError>>
  {
    var c := if key in t.cases then Some(t.cases[key]) else None;
    [ Objection(!(key >= 1 && expected >= 1 && controls.level >= 0), Malformed),
      Objection(c.None?, NoCase),
      Objection(c.Some? && c.value.status == Resolved, Closed),
      Objection(!authorised, Unauthorized),
      Objection(c.Some? && c.value.revision != expected, Stale),
      Objection(controls.queue.Some? && |controls.queue.value| == 0, Malformed),
      Objection(c.Some? && !ControlsAre(c.value, controls) && c.value.revision >= 0x7FFF_FFFF_FFFF_FFFF, Exhausted) ]
  }

  /** A steward's change fails with the first objection to it; otherwise the case has the controls
      given, and the next revision if they are new to it. */
  lemma StewardExplained(t: Tables, key: int, controls: Controls, expected: int, authorised: bool, i: nat)
    ensures var list := StewardObjections(t, key, controls, expected, authorised);
      && (First(list, i) ==>
            && SetControls(t, key, controls, expected, authorised) == Err(list[i].answer)
            && Apply(t, ControlStep(key, controls, expected, authorised)) == t)
      && (Unopposed(list) ==>
            && key in t.cases
            && var c := t.cases[key];
               var n := c.(queue := controls.queue, due := controls.due, level := controls.level,
                           protected := controls.protected,
                           revision := if ControlsAre(c, controls) then c.revision else c.revision + 1);
               && SetControls(t, key, controls, expected, authorised).Ok?
               && Apply(t, ControlStep(key, controls, expected, authorised)) == t.(cases := t.cases[key := n]))
  {
    var list := StewardObjections(t, key, controls, expected, authorised);
    if First(list, i) {
      assert i > 0 ==> !list[0].stands;
      assert i > 1 ==> !list[1].stands;
      assert i > 2 ==> !list[2].stands;
      assert i > 3 ==> !list[3].stands;
      assert i > 4 ==> !list[4].stands;
      assert i > 5 ==> !list[5].stands;
    }
    if Unopposed(list) {
      assert !list[0].stands && !list[1].stands && !list[2].stands && !list[3].stands;
      assert !list[4].stands && !list[5].stands && !list[6].stands;
      var c := t.cases[key];
      assert ControlsAre(c, controls) ==> t.cases[key := c] == t.cases;
    }
  }

  /** An opening time is supplied where none was ever known; that opens the case to every action. */
  lemma BackfillExplained(t: Tables, key: int, at: Instant)
    ensures var n := Apply(t, BackfillStep(key, at));
      if key in t.cases && t.cases[key].openedAt == None && !t.cases[key].openedKnown
        && t.cases[key].revision < 0x7FFF_FFFF_FFFF_FFFF
      then
        && n == t.(cases := n.cases) && n.cases.Keys == t.cases.Keys
        && (forall k | k in t.cases && k != key :: n.cases[k] == t.cases[k])
        && var (c, d) := (t.cases[key], n.cases[key]);
           && d == c.(openedAt := Some(at), openedKnown := true, permitted := d.permitted, revision := c.revision + 1)
           && forall a :: a in d.permitted <==> c.status == Open
      else n == t
  {
    if key in t.cases {
      var c := t.cases[key];
      forall a: Action ensures a in Backfill(c, at).permitted <==> c.status == Open {
        assert a == AssignQueueAction || a == EscalateAction || a == SetDueAtAction;
      }
    }
  }

  // ---- the steps of publication ----

  /** A case that a decision about the entity makes wait. */
  predicate MustWait(c: Case, entity: Id) { c.entity == entity && c.status == Open && c.pending == false }

  /** A case that the entity's publication releases. */
  predicate MustEnd(c: Case, entity: Id) { c.entity == entity && c.pending == true }

  /** Every case of `moved` has `pending` set as said and the next revision; the others stand. */
  ghost predicate PendingSet(t: Tables, n: Tables, moved: Case -> bool, pending: bool) {
    && n == t.(cases := n.cases) && n.cases.Keys == t.cases.Keys
    && forall k | k in t.cases ::
         n.cases[k] ==
           if moved(t.cases[k]) then t.cases[k].(pending := pending, revision := t.cases[k].revision + 1)
             else t.cases[k]
  }

  ghost predicate NoRoom(t: Tables, moved: Case -> bool) {
    exists k | k in t.cases :: moved(t.cases[k]) && t.cases[k].revision >= 0x7FFF_FFFF_FFFF_FFFF
  }

  /** Waiting begins and ends for exactly the cases concerned, or for none if a revision has no room. */
  lemma WaitingExplained(t: Tables, entity: Id)
    ensures var moved := (c: Case) => MustWait(c, entity);
      if NoRoom(t, moved) then Apply(t, PendingStep(entity)) == t
      else PendingSet(t, Apply(t, PendingStep(entity)), moved, true)
    ensures var moved := (c: Case) => MustEnd(c, entity);
      if NoRoom(t, moved) then Apply(t, ClearStep(entity)) == t
      else PendingSet(t, Apply(t, ClearStep(entity)), moved, false)
  {
    var waits, ends := (c: Case) => MustWait(c, entity), (c: Case) => MustEnd(c, entity);
    forall k | k in t.cases
      ensures Fits(t.cases[k], MarkPending(t.cases[k], entity)) <==>
        !(waits(t.cases[k]) && t.cases[k].revision >= 0x7FFF_FFFF_FFFF_FFFF)
      ensures Fits(t.cases[k], ClearPending(t.cases[k], entity)) <==>
        !(ends(t.cases[k]) && t.cases[k].revision >= 0x7FFF_FFFF_FFFF_FFFF)
    {
    }
    assert AllFit(t.cases, Marking(entity)) <==> !NoRoom(t, waits);
    assert AllFit(t.cases, Clearing(entity)) <==> !NoRoom(t, ends);
  }

  /** Only an open case permits anything, and a due time only where the opening is known. */
  ghost predicate PermitsRightly(c: Case) {
    forall a :: a in c.permitted <==> c.status == Open && (a == SetDueAtAction ==> c.openedAt.Some?)
  }

  /** `d` is the case `c` once its review is published. Its controls stand. The review's version and
      the publication it stems from move when the review changed in this very publication and the case
      was not yet drawn from it; the evidence moves then, and whenever the epoch does. */
  ghost predicate DrawnFrom(c: Case, d: Case, r: Review, p: Publication) {
    && d.review == c.review && d.queue == c.queue && d.due == c.due && d.level == c.level
    && d.protected == c.protected && d.openedAt == c.openedAt && d.openedKnown == c.openedKnown
    && d.entity == p.entity && d.status == r.status && d.reason == r.reason && d.epoch == p.epoch && !d.pending
    && PermitsRightly(d)
    && (if r.changed == p.revision && c.publicationRevision != p.revision then
          && d.reviewVersion == r.version && d.definitionVersion == p.definitionVersion
          && d.publicationRevision == p.revision && d.evidence == p.evidence
        else
          && d.reviewVersion == c.reviewVersion && d.definitionVersion == c.definitionVersion
          && d.publicationRevision == c.publicationRevision
          && d.evidence == if c.epoch == p.epoch then c.evidence else p.evidence)
    && d.revision == if SameForActions(c, d) then c.revision else c.revision + 1
  }

  /** Nothing an action is judged on differs. */
  predicate SameForActions(c: Case, d: Case) {
    && c.status == d.status && c.reason == d.reason && c.permitted == d.permitted
    && c.queue == d.queue && c.due == d.due && c.level == d.level && c.protected == d.protected
    && c.openedAt.Some? == d.openedAt.Some? && c.pending == d.pending
    && c.reviewVersion == d.reviewVersion && c.definitionVersion == d.definitionVersion
    && c.epoch == d.epoch && c.evidence == d.evidence
  }

  /** Publishing a review redraws its case, unless the revision has no room. */
  lemma PublishExplained(t: Tables, key: int, r: Review, p: Publication) returns (d: Case)
    requires key in t.cases
    ensures DrawnFrom(t.cases[key], d, r, p)
    ensures Apply(t, PublishStep(key, r, p)) ==
      if d.revision > 0x7FFF_FFFF_FFFF_FFFF && d != t.cases[key] then t else t.(cases := t.cases[key := d])
  {
    d := Project(t.cases[key], r, p);
  }

  /** A review without a case gets one of the next key, with no controls set. */
  lemma OpenExplained(t: Tables, r: Review, p: Publication)
    requires forall k | k in t.cases :: t.cases[k].review != r.id
    ensures var n := Apply(t, OpenStep(r, p));
      && n == t.(cases := n.cases, nextKey := t.nextKey + 1)
      && n.cases.Keys == t.cases.Keys + {t.nextKey}
      && (forall k | k in t.cases && k != t.nextKey :: n.cases[k] == t.cases[k])
      && var d := n.cases[t.nextKey];
         && d.review == r.id && d.entity == p.entity && d.status == r.status && d.reason == r.reason
         && PermitsRightly(d) && d.queue == None && d.due == None && d.level == 0 && !d.protected
         && d.openedAt == r.openedAt && (d.openedKnown <==> r.openedAt != None)
         && d.reviewVersion == r.version && d.definitionVersion == p.definitionVersion
         && d.publicationRevision == p.revision && d.epoch == p.epoch && d.evidence == p.evidence
         && d.revision == 1 && !d.pending
  {
  }
}
