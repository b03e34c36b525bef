/** What an evaluation hands to its parts, and when it reports a change, over the rows alone. */
module EvaluationLaws {
  import opened Prelude
  import opened Types
  import opened ResolverSpec
  import opened IdentitySpec
  import opened IdentityLedger
  import opened Evaluation
  import GoldenValues
  import Reviews

  // ---- what the resolver is given ----

  predicate Listed(records: seq<Evaluation.Record>, id: Id) {
    exists i :: 0 <= i < |records| && records[i].id == id
  }

  /** The source of this name that comes first is at `i`; with none, `i` is past the end. */
  predicate FirstNamed(sources: seq<Source>, name: string, i: nat) {
    && i <= |sources| && (i < |sources| ==> sources[i].name == name)
    && forall j | 0 <= j < i :: sources[j].name != name
  }

  /** The values a record claims with authority are those of its source, or none. */
  ghost predicate Claims(e: Entity, name: string, authority: map<Field, Types.Value>) {
    exists i: nat :: FirstNamed(e.sources, name, i)
      && authority == if i < |e.sources| then e.sources[i].authority else map[]
  }

  ghost predicate RecordGiven(e: Entity, r: Evaluation.Record, given: ResolverSpec.Record) {
    given.id == r.id && given.key == r.key && Claims(e, r.source, given.authority)
  }

  /** Decisions and pairs are passed on, each as often as given, exactly when both ends are records. */
  ghost predicate PassedOn(q: Request, input: Input) {
    && (forall d :: multiset(input.manual)[d] ==
         if Listed(q.records, d.left) && Listed(q.records, d.right) then multiset(q.manual)[d] else 0)
    && (forall d :: multiset(input.cannot)[d] ==
         if Listed(q.records, d.left) && Listed(q.records, d.right) then multiset(q.cannot)[d] else 0)
    && (forall d :: multiset(input.pairs)[d] ==
         if Listed(q.records, d.left) && Listed(q.records, d.right) then multiset(q.pairs)[d] else 0)
  }

  lemma {:induction false} SourceIs(sources: seq<Source>, name: string)
    ensures FirstNamed(sources, name, Priority(sources, name))
    ensures var i := Priority(sources, name);
      AuthorityOf(sources, name) == if i < |sources| then sources[i].authority else map[]
  {
    if sources != [] && sources[0].name != name {
      SourceIs(sources[1..], name);
      var i := Priority(sources[1..], name);
      forall j | 0 <= j < i + 1 ensures sources[j].name != name {
        if j > 0 { assert sources[j] == sources[1..][j - 1]; }
      }
    }
  }

  lemma ListedMeans(records: seq<Evaluation.Record>, id: Id)
    ensures Listed(records, id) <==> id in ActiveRecords(records)
  {
    if r :| r in records && r.id == id {
      var i :| 0 <= i < |records| && records[i] == r;
    }
  }

  /** The resolver is given the records under their sources' authority, and what is decided between records. */
  lemma InputExplained(q: Request)
    ensures var input := ResolverInput(q);
      && |input.records| == |q.records|
      && (forall i | 0 <= i < |q.records| :: RecordGiven(q.entity, q.records[i], input.records[i]))
      && PassedOn(q, input) && input.limits == q.limits
  {
    var ids := ActiveRecords(q.records);
    forall i | 0 <= i < |q.records| ensures RecordGiven(q.entity, q.records[i], ResolverInput(q).records[i]) {
      SourceIs(q.entity.sources, q.records[i].source);
    }
    forall id ensures Listed(q.records, id) <==> id in ids { ListedMeans(q.records, id); }
    forall d { FilterMultiset(q.manual, BothActive(ids), d); }
    forall d { FilterMultiset(q.cannot, BothActive(ids), d); }
    forall d { FilterMultiset(q.pairs, PairActive(ids), d); }
  }

  // ---- what each golden selection is made from ----

  /** The first rule of the field is at `i`. */
  predicate FirstRule(rules: seq<GoldenRule>, field: Field, i: int) {
    0 <= i < |rules| && rules[i].field == field && forall j | 0 <= j < i :: rules[j].field != field
  }

  predicate LastRule(rules: seq<GoldenRule>, field: Field, i: int) {
    0 <= i < |rules| && rules[i].field == field && forall j | i < j < |rules| :: rules[j].field != field
  }

  /** A row counts for an identity's field when its record is an active member and the first rule of
      the field takes its source. */
  ghost predicate Taken(e: Entity, b: Books, row: GoldenRow, slot: Slot) {
    && row.record in b.members && b.members[row.record].active && b.members[row.record].identity == slot.0
    && row.field == slot.1
    && exists i :: FirstRule(e.golden, row.field, i)
         && (e.golden[i].sources == None || row.source in e.golden[i].sources.value)
  }

  /** What a row offers: its source's place in the entity, and whether that source is an authority. */
  ghost predicate Tells(e: Entity, b: Books, row: GoldenRow, o: GoldenValues.Offer) {
    && o.record == row.record && o.changedAt == row.changedAt && o.raw == row.raw && o.state == row.state
    && o.normalized == row.normalized && o.bytes == row.bytes
    && row.record in b.members && o.sortKey == b.members[row.record].key
    && FirstNamed(e.sources, row.source, o.priority)
    && (o.authoritative <==> o.priority < |e.sources| && row.field in e.sources[o.priority].authority)
  }

  /** The offers are what the rows that count tell, in the order of the rows. */
  ghost predicate DrawnFrom(e: Entity, b: Books, rows: seq<GoldenRow>, slot: Slot, offers: seq<GoldenValues.Offer>) {
    exists at :: Ascend(at) && Marks(e, b, rows, slot, at) && Telling(e, b, rows, at, offers)
  }

  ghost predicate Telling(e: Entity, b: Books, rows: seq<GoldenRow>, at: seq<int>, offers: seq<GoldenValues.Offer>) {
    |at| == |offers| && forall k | 0 <= k < |at| :: 0 <= at[k] < |rows| && Tells(e, b, rows[at[k]], offers[k])
  }

  predicate Ascend(at: seq<int>) {
    forall j, k | 0 <= j < k < |at| :: at[j] < at[k]
  }

  ghost predicate Marks(e: Entity, b: Books, rows: seq<GoldenRow>, slot: Slot, at: seq<int>) {
    forall i :: i in at <==> 0 <= i < |rows| && Taken(e, b, rows[i], slot)
  }

  lemma {:induction false} RuleIs(rules: seq<GoldenRule>, field: Field)
    ensures match RuleFor(rules, field)
      case Some(rule) => exists i :: FirstRule(rules, field, i) && rules[i] == rule
      case None => forall i :: !FirstRule(rules, field, i)
  {
    if rules != [] && rules[0].field != field {
      RuleIs(rules[1..], field);
      if i :| FirstRule(rules[1..], field, i) {
        forall j | 0 <= j < i + 1 ensures rules[j].field != field {
          if j > 0 { assert rules[j] == rules[1..][j - 1]; }
        }
        assert FirstRule(rules, field, i + 1);
      }
      if i :| FirstRule(rules, field, i) {
        assert i > 0 && rules[1..][i - 1] == rules[i];
        forall j | 0 <= j < i - 1 ensures rules[1..][j].field != field {
          assert rules[1..][j] == rules[j + 1];
        }
        assert FirstRule(rules[1..], field, i - 1);
      }
    } else if rules != [] {
      assert FirstRule(rules, field, 0);
    }
  }

  lemma TakenMeans(e: Entity, b: Books, row: GoldenRow, slot: Slot)
    ensures Taken(e, b, row, slot) <==> Lands(e, b, row, slot)
  {
    RuleIs(e.golden, row.field);
    forall i, j | FirstRule(e.golden, row.field, i) && FirstRule(e.golden, row.field, j) ensures i == j {
    }
  }

  lemma TellsOffer(e: Entity, b: Books, row: GoldenRow)
    requires Counts(e, b, row)
    ensures Tells(e, b, row, OfferOf(e, b, row))
  {
    SourceIs(e.sources, row.source);
  }

  lemma {:induction false} OffersDrawn(e: Entity, b: Books, rows: seq<GoldenRow>, slot: Slot)
    ensures DrawnFrom(e, b, rows, slot, Offers(e, b, rows, slot))
  {
    if rows == [] {
      assert Ascend([]) && Marks(e, b, rows, slot, []) && Telling(e, b, rows, [], []);
    } else {
      OffersDrawn(e, b, rows[1..], slot);
      DrawnNext(e, b, rows, slot, Offers(e, b, rows[1..], slot));
    }
  }

  lemma DrawnNext(e: Entity, b: Books, rows: seq<GoldenRow>, slot: Slot, rest: seq<GoldenValues.Offer>)
    requires rows != [] && DrawnFrom(e, b, rows[1..], slot, rest)
    ensures DrawnFrom(e, b, rows, slot, (if Lands(e, b, rows[0], slot) then [OfferOf(e, b, rows[0])] else []) + rest)
  {
    var at :| Ascend(at) && Marks(e, b, rows[1..], slot, at) && Telling(e, b, rows[1..], at, rest);
    TakenMeans(e, b, rows[0], slot);
    var tail := Map(at, (i: int) => i + 1);
    ShiftedTelling(e, b, rows, at, tail, rest);
    if Lands(e, b, rows[0], slot) {
      ShiftedMarks(e, b, rows, slot, at, tail, [0]);
      TellsOffer(e, b, rows[0]);
      TellingFirst(e, b, rows, tail, OfferOf(e, b, rows[0]), rest);
    } else {
      ShiftedMarks(e, b, rows, slot, at, tail, []);
      assert [] + tail == tail && [] + rest == rest;
    }
  }

  lemma ShiftedTelling(e: Entity, b: Books, rows: seq<GoldenRow>, at: seq<int>, tail: seq<int>,
      rest: seq<GoldenValues.Offer>)
    requires rows != [] && Telling(e, b, rows[1..], at, rest) && |tail| == |at|
    requires forall k | 0 <= k < |at| :: tail[k] == at[k] + 1
    ensures Telling(e, b, rows, tail, rest)
  {
    forall k | 0 <= k < |tail| ensures 0 <= tail[k] < |rows| && Tells(e, b, rows[tail[k]], rest[k]) {
      assert rows[1..][at[k]] == rows[tail[k]];
    }
  }

  lemma TellingFirst(e: Entity, b: Books, rows: seq<GoldenRow>, tail: seq<int>, o: GoldenValues.Offer,
      rest: seq<GoldenValues.Offer>)
    requires rows != [] && Tells(e, b, rows[0], o) && Telling(e, b, rows, tail, rest)
    ensures Telling(e, b, rows, [0] + tail, [o] + rest)
  {
  }

  lemma ShiftedMarks(e: Entity, b: Books, rows: seq<GoldenRow>, slot: Slot, at: seq<int>, tail: seq<int>,
      head: seq<int>)
    requires rows != [] && Ascend(at) && Marks(e, b, rows[1..], slot, at) && |tail| == |at|
    requires forall k | 0 <= k < |at| :: tail[k] == at[k] + 1
    requires head == if Taken(e, b, rows[0], slot) then [0] else []
    ensures Ascend(head + tail) && Marks(e, b, rows, slot, head + tail)
  {
    forall k | 0 <= k < |tail| ensures 0 < tail[k] < |rows| {
      assert at[k] in at;
    }
    forall i ensures i in tail <==> 0 < i < |rows| && Taken(e, b, rows[i], slot) {
      if i in tail {
        var k :| 0 <= k < |tail| && tail[k] == i;
        assert at[k] in at && rows[1..][at[k]] == rows[i];
      }
      if 0 < i < |rows| && Taken(e, b, rows[i], slot) {
        assert rows[1..][i - 1] == rows[i];
        assert i - 1 in at;
        var k :| 0 <= k < |at| && at[k] == i - 1;
        assert tail[k] == i;
      }
    }
  }

  lemma {:induction false} PolicyIs(rules: seq<GoldenRule>, field: Field, i: int)
    requires LastRule(rules, field, i)
    ensures PolicyFor(rules, field) == rules[i].policy
    decreases |rules|
  {
    var n := |rules| - 1;
    if rules[n].field != field {
      assert rules[..n][i] == rules[i];
      PolicyIs(rules[..n], field, i);
    }
  }

  lemma LastRuleExists(rules: seq<GoldenRule>, field: Field, k: nat) returns (i: int)
    requires k < |rules| && rules[k].field == field
    ensures LastRule(rules, field, i)
    decreases |rules| - k
  {
    if j :| k < j < |rules| && rules[j].field == field {
      i := LastRuleExists(rules, field, j);
    } else {
      i := k;
    }
  }

  /** The selection of a slot: by the policy of the field's last rule, from the offers drawn from the
      rows, and under the field's overrides. */
  ghost predicate SelectedBy(e: Entity, b: Books, rows: seq<GoldenRow>, overrides: Overrides, slot: Slot,
      s: GoldenValues.Selection)
  {
    exists i, offers :: LastRule(e.golden, slot.1, i) && DrawnFrom(e, b, rows, slot, offers)
      && GoldenValues.SelectGolden(e.golden[i].policy, offers, if slot.1 in overrides then overrides[slot.1] else [])
           == Some(s)
  }

  /** Active identities alone have values, one for every field with a rule; only a rule of no known
      policy can stop the selection. */
  lemma SelectionsExplained(e: Entity, b: Books, rows: seq<GoldenRow>, overrides: Overrides)
    ensures var all := SelectionsOf(e, b, rows, overrides);
      && (all == None <==>
            && (exists x :: x in b.registry && b.registry[x].status == Active)
            && (exists i :: 0 <= i < |e.golden| && e.golden[i].policy == GoldenValues.OtherPolicy))
      && (all.Some? ==> forall slot: Slot ::
            && (slot in all.value <==>
                  && slot.0 in b.registry && b.registry[slot.0].status == Active
                  && exists i :: 0 <= i < |e.golden| && e.golden[i].field == slot.1)
            && (slot in all.value ==> SelectedBy(e, b, rows, overrides, slot, all.value[slot])))
  {
    var all := SelectionsOf(e, b, rows, overrides);
    NoneExplained(e, b, rows, overrides);
    if all.Some? {
      forall slot: Slot
        ensures slot in all.value <==>
          && slot.0 in b.registry && b.registry[slot.0].status == Active
          && exists i :: 0 <= i < |e.golden| && e.golden[i].field == slot.1
        ensures slot in all.value ==> SelectedBy(e, b, rows, overrides, slot, all.value[slot])
      {
        SlotExplained(e, b, rows, overrides, slot);
      }
    }
  }

  lemma NoneExplained(e: Entity, b: Books, rows: seq<GoldenRow>, overrides: Overrides)
    ensures SelectionsOf(e, b, rows, overrides) == None <==>
      && (exists x :: x in b.registry && b.registry[x].status == Active)
      && (exists i :: 0 <= i < |e.golden| && e.golden[i].policy == GoldenValues.OtherPolicy)
  {
    if x: Id :| x in b.registry && b.registry[x].status == Active { assert x in ActiveIds(b); }
    if ActiveIds(b) != {} {
      var x :| x in ActiveIds(b);
      assert b.registry[x].status == Active;
    }
    if !Supported(e.golden) {
      var r :| r in e.golden && r.policy.OtherPolicy?;
      var i :| 0 <= i < |e.golden| && e.golden[i] == r;
    }
  }

  lemma SlotExplained(e: Entity, b: Books, rows: seq<GoldenRow>, overrides: Overrides, slot: Slot)
    requires SelectionsOf(e, b, rows, overrides).Some?
    ensures var all := SelectionsOf(e, b, rows, overrides).value;
      && (slot in all <==>
            && slot.0 in b.registry && b.registry[slot.0].status == Active
            && exists i :: 0 <= i < |e.golden| && e.golden[i].field == slot.1)
      && (slot in all ==> SelectedBy(e, b, rows, overrides, slot, all[slot]))
  {
    var all := SelectionsOf(e, b, rows, overrides).value;
    if k :| 0 <= k < |e.golden| && e.golden[k].field == slot.1 {
      assert e.golden[k] in e.golden;
      var i := LastRuleExists(e.golden, slot.1, k);
      assert e.golden[i] in e.golden;
      PolicyIs(e.golden, slot.1, i);
      OffersDrawn(e, b, rows, slot);
      assert slot in Slots(b, e.golden) <==> slot.0 in ActiveIds(b) by {
        assert slot == (slot.0, e.golden[k].field);
      }
      if slot.0 in ActiveIds(b) {
        assert Select(e, b, rows, overrides, e.golden[i].policy, slot).Some?;
        assert SelectedBy(e, b, rows, overrides, slot, all[slot]);
      }
    } else {
      assert forall r | r in e.golden :: r.field != slot.1;
    }
  }

  // ---- what becomes an issue ----

  /** The issues are the rejected edges and the issues of the golden values, as they are rendered. */
  lemma IssuesExplained(q: Request, resolution: Resolution, golden: Selections, c: Reviews.Candidate)
    ensures c in IssuesOf(q, resolution, golden) <==>
      || (exists f :: f in resolution.rejected && q.rendering.fact(f) == c)
      || (exists slot, issue :: slot in q.order(golden.Keys) && slot in golden && issue in golden[slot].issues
            && q.rendering.golden(slot, issue) == c)
  {
    FactsRendered(resolution.rejected, q.rendering.fact, c);
    GoldenRendered(q.rendering, q.order(golden.Keys), golden, c);
  }

  lemma FactsRendered(facts: seq<Fact>, render: Fact -> Reviews.Candidate, c: Reviews.Candidate)
    ensures c in Map(facts, render) <==> exists f :: f in facts && render(f) == c
  {
    var all := Map(facts, render);
    if c in all {
      var i :| 0 <= i < |all| && all[i] == c;
      assert facts[i] in facts;
    }
    if f :| f in facts && render(f) == c {
      var i :| 0 <= i < |facts| && facts[i] == f;
      assert all[i] == c;
    }
  }

  lemma {:induction false} SlotRendered(r: Rendering, slot: Slot, issues: seq<GoldenValues.Issue>,
      c: Reviews.Candidate)
    ensures c in SlotIssues(r, slot, issues) <==> exists issue :: issue in issues && r.golden(slot, issue) == c
  {
    if issues != [] {
      SlotRendered(r, slot, issues[1..], c);
      assert issues == [issues[0]] + issues[1..];
    }
  }

  lemma {:induction false} GoldenRendered(r: Rendering, slots: seq<Slot>, golden: Selections, c: Reviews.Candidate)
    ensures c in GoldenIssues(r, slots, golden) <==>
      exists slot, issue ::
        slot in slots && slot in golden && issue in golden[slot].issues && r.golden(slot, issue) == c
  {
    if slots != [] {
      GoldenRendered(r, slots[1..], golden, c);
      assert slots == [slots[0]] + slots[1..];
      if slots[0] in golden { SlotRendered(r, slots[0], golden[slots[0]].issues, c); }
    }
  }

  // ---- when a change is reported ----

  predicate SameMember(m: Member, w: Member) {
    && m.key == w.key && m.identity == w.identity && m.active == w.active
    && m.first == w.first && m.last == w.last && m.reason == w.reason
  }

  /** The identity tables read alike: statuses, memberships, and how often each pair is an alias or a split. */
  ghost predicate SameIdentities(b: Books, n: Books) {
    && (forall x :: x in b.registry <==> x in n.registry)
    && (forall x | x in b.registry && x in n.registry :: b.registry[x].status == n.registry[x].status)
    && (forall r :: r in b.members <==> r in n.members)
    && (forall r | r in b.members && r in n.members :: SameMember(b.members[r], n.members[r]))
    && (forall s, t :: AliasCount(b, s, t) == AliasCount(n, s, t))
    && (forall s, t :: SplitCount(b, s, t) == SplitCount(n, s, t))
  }

  function AliasCount(b: Books, s: Id, t: Id): nat {
    |set a | a in b.aliases && a.source == s && a.target == t|
  }

  function SplitCount(b: Books, s: Id, t: Id): nat {
    |set e | e in b.splits && e.parent == s && e.child == t|
  }

  predicate SameText(r: Reviews.Review, w: Reviews.Review) {
    && r.key == w.key && r.occurrence == w.occurrence && r.status == w.status && r.severity == w.severity
    && r.reason == w.reason && r.subjects == w.subjects && r.summary == w.summary
  }

  /** How many rows read like `r`. */
  function Alike(rows: seq<Reviews.Review>, r: Reviews.Review): nat {
    |Places(rows, (x: Reviews.Review) => SameText(x, r))|
  }

  ghost predicate SameReviews(a: seq<Reviews.Review>, b: seq<Reviews.Review>) {
    forall r :: Alike(a, r) == Alike(b, r)
  }

  predicate SameValue(s: GoldenValues.Selection, t: GoldenValues.Selection) {
    && s.policy == t.policy && s.raw == t.raw && s.normalized == t.normalized && s.status == t.status
    && s.winner == t.winner && s.tieBreak == t.tieBreak && s.contributors == t.contributors
  }

  ghost predicate SameGolden(g: Selections, h: Selections) {
    && (forall s: Slot :: s in g <==> s in h)
    && (forall s: Slot | s in g && s in h :: SameValue(g[s], h[s]))
  }

  predicate Tale(f: Fact, v: FactView) {
    && f.edge.left == v.0 && f.edge.right == v.1 && f.outcome == v.2 && f.reason == v.3 && f.groups == v.4
  }

  /** How many facts read like `v`. */
  function Told(facts: seq<Fact>, v: FactView): nat {
    |Places(facts, (f: Fact) => Tale(f, v))|
  }

  ghost predicate SameFacts(facts: multiset<FactView>, resolution: Resolution) {
    forall v :: facts[v] == Told(resolution.accepted, v) + Told(resolution.rejected, v)
  }

  /** Nothing a reader is shown differs. */
  ghost predicate ReadsAlike(before: Saved, done: Evaluated) {
    && SameIdentities(before.books, done.saved.books)
    && SameReviews(before.reviews, done.saved.reviews)
    && SameGolden(before.golden, done.saved.golden)
    && SameFacts(before.facts, done.resolution)
  }

  lemma AlikeIs(rows: seq<Reviews.Review>, r: Reviews.Review)
    ensures Alike(rows, r) == multiset(Map(rows, ReviewView))[ReviewView(r)]
  {
    CountMapped(rows, ReviewView, ReviewView(r), (x: Reviews.Review) => SameText(x, r));
  }

  lemma ReviewsMean(a: seq<Reviews.Review>, b: seq<Reviews.Review>)
    ensures multiset(Map(a, ReviewView)) == multiset(Map(b, ReviewView)) <==> SameReviews(a, b)
  {
    if SameReviews(a, b) {
      forall v ensures multiset(Map(a, ReviewView))[v] == multiset(Map(b, ReviewView))[v] {
        var r := Reviews.Review.Review(0, v.0, v.1, v.2, v.3, v.4, v.5, v.6, 0, None, 0, 0);
        assert ReviewView(r) == v && Alike(a, r) == Alike(b, r);
        AlikeIs(a, r);
        AlikeIs(b, r);
      }
    } else {
      var r :| Alike(a, r) != Alike(b, r);
      AlikeIs(a, r);
      AlikeIs(b, r);
    }
  }

  lemma ToldIs(facts: seq<Fact>, v: FactView)
    ensures Told(facts, v) == multiset(Map(facts, ViewOf))[v]
  {
    CountMapped(facts, ViewOf, v, (f: Fact) => Tale(f, v));
  }

  lemma FactsMean(facts: multiset<FactView>, resolution: Resolution)
    ensures facts == FactsOf(resolution) <==> SameFacts(facts, resolution)
  {
    forall v ensures FactsOf(resolution)[v] == Told(resolution.accepted, v) + Told(resolution.rejected, v) {
      ToldIs(resolution.accepted, v);
      ToldIs(resolution.rejected, v);
    }
  }

  lemma AliasCountIs(b: Books, s: Id, t: Id)
    ensures AliasCount(b, s, t) ==
      (if (s, t) in IdentityView(b).aliases then IdentityView(b).aliases[(s, t)] else 0)
    ensures (s, t) in IdentityView(b).aliases <==> AliasCount(b, s, t) > 0
  {
    var mine := set a | a in b.aliases && a.source == s && a.target == t;
    assert mine == set a | a in b.aliases && (a.source, a.target) == (s, t);
    if (s, t) in AliasEnds(b) {
      var a :| a in b.aliases && (a.source, a.target) == (s, t);
      assert a in mine;
    }
    if mine != {} {
      var a :| a in mine;
      assert (a.source, a.target) in AliasEnds(b);
    }
  }

  lemma SplitCountIs(b: Books, s: Id, t: Id)
    ensures SplitCount(b, s, t) ==
      (if (s, t) in IdentityView(b).splits then IdentityView(b).splits[(s, t)] else 0)
    ensures (s, t) in IdentityView(b).splits <==> SplitCount(b, s, t) > 0
  {
    var mine := set e | e in b.splits && e.parent == s && e.child == t;
    assert mine == set e | e in b.splits && (e.parent, e.child) == (s, t);
    if (s, t) in SplitEnds(b) {
      var e :| e in b.splits && (e.parent, e.child) == (s, t);
      assert e in mine;
    }
    if mine != {} {
      var e :| e in mine;
      assert (e.parent, e.child) in SplitEnds(b);
    }
  }

  lemma CountsMean(b: Books, n: Books)
    ensures IdentityView(b).aliases == IdentityView(n).aliases <==>
      forall s, t :: AliasCount(b, s, t) == AliasCount(n, s, t)
    ensures IdentityView(b).splits == IdentityView(n).splits <==>
      forall s, t :: SplitCount(b, s, t) == SplitCount(n, s, t)
  {
    forall s: Id, t: Id { AliasCountIs(b, s, t); }
    forall s: Id, t: Id { AliasCountIs(n, s, t); }
    forall s: Id, t: Id { SplitCountIs(b, s, t); }
    forall s: Id, t: Id { SplitCountIs(n, s, t); }
    if forall s, t :: AliasCount(b, s, t) == AliasCount(n, s, t) {
      SameCounts(IdentityView(b).aliases, IdentityView(n).aliases);
    }
    if forall s, t :: SplitCount(b, s, t) == SplitCount(n, s, t) {
      SameCounts(IdentityView(b).splits, IdentityView(n).splits);
    }
  }

  lemma SameCounts(a: PairCounts, b: PairCounts)
    requires forall s, t :: (s, t) in a <==> (s, t) in b
    requires forall s, t | (s, t) in a && (s, t) in b :: a[(s, t)] == b[(s, t)]
    ensures a == b
  {
    forall e: (Id, Id) ensures e in a <==> e in b { assert e == (e.0, e.1); }
    forall e: (Id, Id) | e in a && e in b ensures a[e] == b[e] { assert e == (e.0, e.1); }
    assert a.Keys == b.Keys;
  }

  lemma StatusesMean(b: Books, n: Books)
    ensures IdentityView(b).registry == IdentityView(n).registry <==>
      && (forall x :: x in b.registry <==> x in n.registry)
      && (forall x | x in b.registry && x in n.registry :: b.registry[x].status == n.registry[x].status)
  {
    var x, y := IdentityView(b).registry, IdentityView(n).registry;
    assert x.Keys == b.registry.Keys && y.Keys == n.registry.Keys;
  }

  lemma MembersMean(b: Books, n: Books)
    ensures IdentityView(b).members == IdentityView(n).members <==>
      && (forall r :: r in b.members <==> r in n.members)
      && (forall r | r in b.members && r in n.members :: SameMember(b.members[r], n.members[r]))
  {
    var x, y := IdentityView(b).members, IdentityView(n).members;
    assert x.Keys == b.members.Keys && y.Keys == n.members.Keys;
    assert x == y ==> forall r | r in x :: x[r] == y[r];
  }

  lemma IdentitiesMean(b: Books, n: Books)
    ensures IdentityView(b) == IdentityView(n) <==> SameIdentities(b, n)
  {
    StatusesMean(b, n);
    MembersMean(b, n);
    CountsMean(b, n);
  }

  lemma GoldenMeans(g: Selections, h: Selections)
    ensures (g.Keys == h.Keys && forall s | s in g :: GoldenView(g[s]) == GoldenView(h[s])) <==> SameGolden(g, h)
  {
    if SameGolden(g, h) { assert g.Keys == h.Keys; }
  }

  /** An evaluation reports a change exactly when it is the first, or something a reader is shown differs. */
  lemma ChangeExplained(q: Request, before: Saved, revision: Revision, supply: Supply)
    requires Evaluate(q, before, revision, supply).Some?
    ensures var done := Evaluate(q, before, revision, supply).value;
      done.changed <==> revision == 1 || !ReadsAlike(before, done)
  {
    var done := Evaluate(q, before, revision, supply).value;
    IdentitiesMean(before.books, done.saved.books);
    ReviewsMean(before.reviews, done.saved.reviews);
    GoldenMeans(before.golden, done.saved.golden);
    FactsMean(before.facts, done.resolution);
  }
}
