/** The policy tables as they are updated in place; every method is a run of protocol steps. */
module PolicyDesk {
  import opened Prelude
  import opened Types
  import opened Sorting
  import opened PolicyCases
  import opened PolicyProtocol

  lemma SomeKey(s: set<int>)
    requires s != {}
    ensures exists k :: k in s
  {
    var k := LeastByRank(s, (k: int) => [k]);
  }

  method ChangeAll(cases: map<int, Case>, change: Case -> Case) returns (next: map<int, Case>)
    ensures next == Changed(cases, change)
  {
    next := cases;
    var todo := cases.Keys;
    while todo != {}
      invariant todo <= cases.Keys == next.Keys
      invariant forall k | k in cases :: next[k] == if k in todo then cases[k] else change(cases[k])
    {
      SomeKey(todo);
      var k :| k in todo;
      next := next[k := change(cases[k])];
      todo := todo - {k};
    }
    var goal := Changed(cases, change);
    assert next.Keys == goal.Keys;
    assert forall k | k in next :: next[k] == goal[k];
  }

  lemma RunAppend(t: Tables, steps: seq<Step>, step: Step)
    ensures Run(t, steps + [step]) == Apply(Run(t, steps), step)
    decreases |steps|
  {
    if steps == [] {
      assert Run(Apply(t, step), []) == Apply(t, step);
      assert [step][1..] == [];
    } else {
      assert (steps + [step])[1..] == steps[1..] + [step];
      RunAppend(Apply(t, steps[0]), steps[1..], step);
    }
  }

  /** Step `i` publishes review `i` in the state it meets; the step after the last ends the waiting. */
  ghost predicate Proceeds(t: Tables, steps: seq<Step>, i: int, reviews: seq<Review>, p: Publication)
    requires 0 <= i < |steps|
  {
    if i < |reviews| then Publishes(Run(t, steps[..i]), steps[i], reviews[i], p) else steps[i] == ClearStep(p.entity)
  }

  lemma ExtendSteps(t: Tables, steps: seq<Step>, step: Step, reviews: seq<Review>, p: Publication)
    requires forall j | 0 <= j < |steps| :: Proceeds(t, steps, j, reviews, p)
    requires forall j | 0 <= j < |steps| :: Enabled(Run(t, steps[..j]), steps[j])
    ensures Run(t, steps + [step]) == Apply(Run(t, steps), step) && (steps + [step])[..|steps|] == steps
    ensures forall j | 0 <= j < |steps| :: Proceeds(t, steps + [step], j, reviews, p)
    ensures forall j | 0 <= j < |steps| :: Enabled(Run(t, (steps + [step])[..j]), (steps + [step])[j])
  {
    RunAppend(t, steps, step);
    forall j | 0 <= j < |steps|
      ensures Proceeds(t, steps + [step], j, reviews, p) && Enabled(Run(t, (steps + [step])[..j]), (steps + [step])[j])
    {
      assert (steps + [step])[..j] == steps[..j] && (steps + [step])[j] == steps[j];
      assert Proceeds(t, steps, j, reviews, p);
    }
  }

  class PolicyTables {
    var cases: map<int, Case>
    var receipts: map<(Id, Id), Receipt>
    var bindings: map<Id, Binding>
    var nextKey: int

    ghost function State(): Tables
      reads this
    {
      Tables(cases, receipts, bindings, nextKey)
    }

    constructor ()
      ensures State() == EMPTY
    {
      cases, receipts, bindings, nextKey := map[], map[], map[], 1;
    }

    /** Looks up a used request key. */
    method ReplayReceipt(q: Request) returns (reply: Option<Reply>)
      ensures reply == Replay(State(), q)
    {
      if ReceiptKey(q) !in receipts { return None; }
      var receipt := receipts[ReceiptKey(q)];
      reply := Some(if receipt.body == q.body then Recorded(receipt) else IdempotencyConflict);
    }

    /** Inserts the receipt that ends a request. */
    method Terminal(q: Request, revision: int, outcome: Outcome, control: Control) returns (reply: Reply)
      requires ReceiptKey(q) !in receipts
      modifies this
      ensures (reply, State()) == Record(old(State()), q, revision, outcome, control)
    {
      var receipt := NewReceipt(q, revision, outcome, control);
      receipts := receipts[ReceiptKey(q) := receipt];
      reply := Recorded(receipt);
    }

    /** Whether the level was ever applied to the case, by whichever binding. */
    method GateLevel(caseKey: int, level: int, maximum: int) returns (denied: Option<Outcome>)
      ensures denied == Gate(receipts, caseKey, level, maximum)
    {
      if level > maximum { return Some(LimitExceeded); }
      var applied := false;
      var todo := receipts.Keys;
      while todo != {}
        invariant todo <= receipts.Keys
        invariant applied <==> exists k | k in receipts.Keys - todo :: EscalationTo(receipts[k], caseKey, level)
      {
        var k :| k in todo;
        if EscalationTo(receipts[k], caseKey, level) {
          applied := true;
        }
        todo := todo - {k};
      }
      assert receipts.Keys - todo == receipts.Keys;
      denied := if applied then Some(ActionDenied) else None;
    }

    /** The controls an admitted action asks for, or its refusal. */
    method JudgeAction(b: Binding, c: Case, s: Session, q: Request) returns (v: Verdict)
      ensures v == Judge(receipts, b, c, s, q)
    {
      var shown := ShowDue(s, c.due);
      match q.body.arguments {
        case AssignQueue(queue) =>
          if queue !in b.queues { return Refuse(ActionDenied); }
          if c.protected { return Refuse(ManualProtection); }
          v := Proceed(Some(queue), shown, c.due, c.level);
        case SetDueAt(text) =>
          var instant := s.read(text);
          if c.openedAt.None? { return Refuse(OpenedAtUnknown); }
          if instant < c.openedAt.value || (b.maxDue.Some? && instant > c.openedAt.value + b.maxDue.value) {
            return Refuse(LimitExceeded);
          }
          v := Proceed(c.queue, Some(text), Some(instant), c.level);
        case Escalate(level) =>
          if c.due.None? { return Refuse(ActionDenied); }
          if c.due.value > s.now { return Refuse(ActionDenied); }
          if level != c.level + 1 { return Refuse(StaleCase); }
          var denied := GateLevel(q.body.caseKey, level, b.maxLevel);
          if denied.Some? { return Refuse(denied.value); }
          v := Proceed(c.queue, shown, c.due, level);
      }
    }

    /** Submits one automated intent: replay, freshness, policy, effect and receipt in one step. */
    method SubmitIntent(s: Session, q: Request) returns (r: Result<Reply, PolicyError>)
      modifies this
      ensures State() == Submitted(old(State()), s, q)
      ensures r == match Submit(old(State()), s, q) case Ok(done) => Ok(done.0) case Err(e) => Err(e)
    {
      if !WellFormed(q.body) { return Err(Malformed); }
      if q.body.binding !in bindings { return Err(NoBinding); }
      if !s.authorised { return Err(Unauthorized); }
      var replayed := ReplayReceipt(q);
      if replayed.Some? { return Ok(replayed.value); }
      if !s.activated { return Err(NotActivated); }
      if q.body.caseKey !in cases { return Err(NoCase); }
      var b, c := bindings[q.body.binding], cases[q.body.caseKey];
      if c.entity != b.entity { return Err(WrongScope); }
      var refused := Admit(b, c, s, q);
      if refused.Some? {
        var reply := Terminal(q, c.revision, refused.value, CurrentControl(s, c));
        return Ok(reply);
      }
      var v := JudgeAction(b, c, s, q);
      if v.Refuse? {
        var reply := Terminal(q, c.revision, v.outcome, CurrentControl(s, c));
        return Ok(reply);
      }
      r := Carry(s, q, c, v);
    }

    /** Carries out an admitted action. */
    method Carry(s: Session, q: Request, c: Case, v: Verdict) returns (r: Result<Reply, PolicyError>)
      requires v.Proceed? && q.body.caseKey in cases && cases[q.body.caseKey] == c && ReceiptKey(q) !in receipts
      modifies this
      ensures State() == match Conclude(old(State()), s, q, c, v) case Ok(done) => done.1 case Err(_) => old(State())
      ensures r == match Conclude(old(State()), s, q, c, v) case Ok(done) => Ok(done.0) case Err(e) => Err(e)
    {
      var changed := Changes(c, s, v);
      if changed && c.revision >= MAX_REVISION { return Err(Exhausted); }
      var revision := if changed then c.revision + 1 else c.revision;
      if changed {
        cases := cases[q.body.caseKey :=
          c.(queue := v.queue, due := v.instant, level := v.level, revision := revision)];
      }
      var reply := Terminal(q, revision, if changed then AppliedControl else NoChange, Control'(c, v));
      r := Ok(reply);
    }

    /** A steward sets the controls by hand, at the revision they read. */
    method SetCaseControls(key: int, controls: Controls, expected: int, authorised: bool)
      returns (r: Result<int, PolicyError>)
      modifies this
      ensures State() == Apply(old(State()), ControlStep(key, controls, expected, authorised))
      ensures r.Ok? <==> SetControls(old(State()), key, controls, expected, authorised).Ok?
      ensures r.Ok? ==> key in cases && r.value == cases[key].revision
      ensures r.Err? ==> SetControls(old(State()), key, controls, expected, authorised) == Err(r.error)
    {
      if key <= 0 || expected <= 0 || controls.level < 0 { return Err(Malformed); }
      if key !in cases { return Err(NoCase); }
      var c := cases[key];
      if c.status.Resolved? { return Err(Closed); }
      if !authorised { return Err(Unauthorized); }
      if c.revision != expected { return Err(Stale); }
      if controls.queue == Some("") { return Err(Malformed); }
      var changed := c.queue != controls.queue || c.due != controls.due || c.level != controls.level
        || c.protected != controls.protected;
      if changed && c.revision >= MAX_REVISION { return Err(Exhausted); }
      if changed {
        cases := cases[key := c.(queue := controls.queue, due := controls.due, level := controls.level,
                                 protected := controls.protected, revision := c.revision + 1)];
      }
      r := Ok(cases[key].revision);
    }

    /** Applies one row change to every case, or none if a changed row's revision is exhausted. */
    method UpdateCases(change: Case -> Case) returns (ok: bool)
      modifies this`cases
      ensures ok <==> AllFit(old(cases), change)
      ensures State() == if ok then old(State()).(cases := Changed(old(cases), change)) else old(State())
    {
      ok := AllFit(cases, change);
      if ok {
        cases := ChangeAll(cases, change);
      }
    }

    method MarkPendingCases(entity: Id) returns (ok: bool)
      modifies this
      ensures ok <==> AllFit(old(cases), Marking(entity))
      ensures State() == Apply(old(State()), PendingStep(entity))
    {
      ok := UpdateCases(Marking(entity));
    }

    /** The case opened for a review. */
    method CaseOf(review: Id) returns (key: Option<int>)
      ensures key.None? ==> !HasCase(cases, review)
      ensures key.Some? ==> key.value in cases && cases[key.value].review == review
    {
      var todo := cases.Keys;
      while todo != {}
        invariant todo <= cases.Keys
        invariant forall k | k in cases && k !in todo :: cases[k].review != review
      {
        SomeKey(todo);
        var k :| k in todo;
        if cases[k].review == review { return Some(k); }
        todo := todo - {k};
      }
      key := None;
    }

    /** Publishes one review into its case. */
    method ProjectReview(review: Review, p: Publication) returns (ok: bool, ghost step: Step)
      modifies this`cases, this`nextKey
      ensures Publishes(old(State()), step, review, p)
      ensures ok <==> Enabled(old(State()), step)
      ensures State() == Apply(old(State()), step)
    {
      var key := CaseOf(review.id);
      if key.Some? {
        step := PublishStep(key.value, review, p);
        var next := Project(cases[key.value], review, p);
        if !Fits(cases[key.value], next) { return false, step; }
        cases := cases[key.value := next];
      } else {
        step := OpenStep(review, p);
        cases, nextKey := cases[nextKey := OpenCase(review, p)], nextKey + 1;
      }
      ok := true;
    }

    /** Publishes all reviews, then ends the waiting of the entity's other cases; all or nothing. It
        fails at the first step, the last of `steps`, that cannot be carried out. */
    method ProjectPolicyCases(reviews: seq<Review>, p: Publication) returns (ok: bool, ghost steps: seq<Step>)
      modifies this`cases, this`nextKey
      ensures State() == if ok then Run(old(State()), steps) else old(State())
      ensures 0 < |steps| <= |reviews| + 1 && (ok ==> |steps| == |reviews| + 1)
      ensures forall i | 0 <= i < |steps| :: Proceeds(old(State()), steps, i, reviews, p)
      ensures forall i | 0 <= i < |steps| - 1 :: Enabled(Run(old(State()), steps[..i]), steps[i])
      ensures ok <==> Enabled(Run(old(State()), steps[..|steps| - 1]), steps[|steps| - 1])
    {
      var savedCases, savedKey := cases, nextKey;
      ghost var start := State();
      steps := [];
      for i := 0 to |reviews|
        invariant State() == Run(start, steps) && |steps| == i
        invariant start == old(State()) && savedCases == old(cases) && savedKey == old(nextKey)
        invariant receipts == start.receipts && bindings == start.bindings
        invariant forall j | 0 <= j < i :: Proceeds(start, steps, j, reviews, p)
        invariant forall j | 0 <= j < i :: Enabled(Run(start, steps[..j]), steps[j])
      {
        var done;
        ghost var step;
        done, step := ProjectReview(reviews[i], p);
        ExtendSteps(start, steps, step, reviews, p);
        steps := steps + [step];
        if !done {
          cases, nextKey := savedCases, savedKey;
          return false, steps;
        }
      }
      ExtendSteps(start, steps, ClearStep(p.entity), reviews, p);
      steps := steps + [ClearStep(p.entity)];
      ok := UpdateCases(Clearing(p.entity));
      if !ok {
        cases, nextKey := savedCases, savedKey;
      }
    }

    /** An administrator supplies a missing opening time no later than `latest`. */
    method BackfillOpenedAt(key: int, at: Instant, latest: Instant, reason: string, authorised: bool)
      returns (r: Result<int, PolicyError>)
      modifies this
      ensures r.Ok? <==>
        && key > 0 && reason != "" && key in old(cases) && authorised && at <= latest
        && old(cases)[key].openedAt.None? && !old(cases)[key].openedKnown && old(cases)[key].revision < MAX_REVISION
      ensures r.Ok? ==> State() == Apply(old(State()), BackfillStep(key, at))
      ensures r.Ok? ==> key in cases && r.value == cases[key].revision
      ensures r.Err? ==> State() == old(State())
    {
      if key <= 0 || reason == "" { return Err(Malformed); }
      if key !in cases { return Err(NoCase); }
      var c := cases[key];
      if c.openedAt.Some? || c.openedKnown { return Err(AlreadyKnown); }
      if !authorised { return Err(Unauthorized); }
      if at > latest { return Err(Malformed); }
      if c.revision >= MAX_REVISION { return Err(Exhausted); }
      cases := cases[key := Backfill(c, at)];
      r := Ok(c.revision + 1);
    }
  }
}
