/** Golden selection over the whole ledger as it runs, and its independence of row order. */
module GoldenSelection {
  import opened Prelude
  import opened Types
  import opened IdentitySpec
  import opened Evaluation
  import GoldenValues

  type Offer = GoldenValues.Offer
  type Candidates = map<Slot, seq<Offer>>

  function Entry(candidates: Candidates, slot: Slot): seq<Offer> {
    if slot in candidates then candidates[slot] else []
  }

  // ---- gathering ----

  lemma OffersConcat(e: Entity, b: Books, x: seq<GoldenRow>, y: seq<GoldenRow>, slot: Slot)
    ensures Offers(e, b, x + y, slot) == Offers(e, b, x, slot) + Offers(e, b, y, slot)
  {
    if x == [] {
      assert x + y == y;
    } else {
      assert (x + y)[1..] == x[1..] + y;
      OffersConcat(e, b, x[1..], y, slot);
    }
  }

  function OneRow(e: Entity, b: Books, row: GoldenRow, slot: Slot): seq<Offer> {
    if Lands(e, b, row, slot) then [OfferOf(e, b, row)] else []
  }

  lemma OffersAppend(e: Entity, b: Books, rows: seq<GoldenRow>, row: GoldenRow, slot: Slot)
    ensures Offers(e, b, rows + [row], slot) == Offers(e, b, rows, slot) + OneRow(e, b, row, slot)
  {
    OffersConcat(e, b, rows, [row], slot);
    assert [row][1..] == [];
  }

  ghost predicate Gathers(e: Entity, b: Books, rows: seq<GoldenRow>, candidates: Candidates) {
    forall slot {:trigger Entry(candidates, slot)} :: Entry(candidates, slot) == Offers(e, b, rows, slot)
  }

  lemma GathersMore(e: Entity, b: Books, rows: seq<GoldenRow>, row: GoldenRow, before: Candidates, after: Candidates)
    requires Gathers(e, b, rows, before)
    requires forall slot {:trigger Entry(after, slot)} ::
      Entry(after, slot) == Entry(before, slot) + OneRow(e, b, row, slot)
    ensures Gathers(e, b, rows + [row], after)
  {
    forall slot {:trigger Entry(after, slot)} ensures Entry(after, slot) == Offers(e, b, rows + [row], slot) {
      OffersAppend(e, b, rows, row, slot);
    }
  }

  /** Sorts the rows that count into the slots of their identities. */
  method Gather(e: Entity, b: Books, rows: seq<GoldenRow>) returns (candidates: Candidates)
    ensures Gathers(e, b, rows, candidates)
  {
    candidates := map[];
    for i := 0 to |rows|
      invariant Gathers(e, b, rows[..i], candidates)
    {
      var row := rows[i];
      assert rows[..i + 1] == rows[..i] + [row];
      ghost var before := candidates;
      if Counts(e, b, row) {
        var slot := (b.members[row.record].identity, row.field);
        candidates := candidates[slot := Entry(candidates, slot) + [OfferOf(e, b, row)]];
      }
      GathersMore(e, b, rows[..i], row, before, candidates);
    }
    assert rows[..|rows|] == rows;
  }

  // ---- selecting ----

  /** Every slot of the first rules has the selection of its field's last rule among them. */
  ghost predicate Covers(e: Entity, b: Books, rows: seq<GoldenRow>, overrides: Overrides, rules: seq<GoldenRule>,
      result: Selections) {
    && result.Keys == Slots(b, rules)
    && (forall s | s in result :: Select(e, b, rows, overrides, PolicyFor(rules, s.1), s) == Some(result[s]))
  }

  /** The same while the last rule has reached only the identities in `done`. */
  ghost predicate CoversPart(e: Entity, b: Books, rows: seq<GoldenRow>, overrides: Overrides, rules: seq<GoldenRule>,
      rule: GoldenRule, done: set<Id>, result: Selections)
  {
    && (forall s :: s in result <==> s in Slots(b, rules) || (s.0 in done && s.1 == rule.field))
    && (forall s | s in result :: Select(e, b, rows, overrides,
          if s.0 in done && s.1 == rule.field then rule.policy else PolicyFor(rules, s.1), s) == Some(result[s]))
  }

  lemma CoversStart(e: Entity, b: Books, rows: seq<GoldenRow>, overrides: Overrides, rules: seq<GoldenRule>,
      rule: GoldenRule, result: Selections)
    requires Covers(e, b, rows, overrides, rules, result)
    ensures CoversPart(e, b, rows, overrides, rules, rule, {}, result)
  {
  }

  lemma CoversNext(e: Entity, b: Books, rows: seq<GoldenRow>, overrides: Overrides, rules: seq<GoldenRule>,
      rule: GoldenRule, done: set<Id>, result: Selections, x: Id, value: GoldenValues.Selection)
    requires CoversPart(e, b, rows, overrides, rules, rule, done, result)
    requires Select(e, b, rows, overrides, rule.policy, (x, rule.field)) == Some(value)
    ensures CoversPart(e, b, rows, overrides, rules, rule, done + {x}, result[(x, rule.field) := value])
  {
  }

  lemma SlotsMore(b: Books, rules: seq<GoldenRule>, rule: GoldenRule, s: Slot)
    ensures s in Slots(b, rules + [rule]) <==> s in Slots(b, rules) || (s.0 in ActiveIds(b) && s.1 == rule.field)
  {
    assert forall r :: r in rules + [rule] <==> r in rules || r == rule;
  }

  lemma CoversDone(e: Entity, b: Books, rows: seq<GoldenRow>, overrides: Overrides, rules: seq<GoldenRule>,
      rule: GoldenRule, result: Selections)
    requires CoversPart(e, b, rows, overrides, rules, rule, ActiveIds(b), result)
    ensures Covers(e, b, rows, overrides, rules + [rule], result)
  {
    forall s ensures s in result <==> s in Slots(b, rules + [rule]) {
      SlotsMore(b, rules, rule, s);
    }
    assert (rules + [rule])[..|rules + [rule]| - 1] == rules;
    forall s | s in result ensures Select(e, b, rows, overrides, PolicyFor(rules + [rule], s.1), s) == Some(result[s]) {
      SlotsMore(b, rules, rule, s);
      if s.1 == rule.field { assert s.0 in ActiveIds(b); }
    }
  }

  /** Applies one rule to every active identity. */
  method ApplyRule(e: Entity, b: Books, ghost rows: seq<GoldenRow>, overrides: Overrides, candidates: Candidates,
      ghost rules: seq<GoldenRule>, rule: GoldenRule, before: Selections) returns (r: Option<Selections>)
    requires Gathers(e, b, rows, candidates) && Covers(e, b, rows, overrides, rules, before)
    ensures r.None? <==> ActiveIds(b) != {} && rule.policy.OtherPolicy?
    ensures r.Some? ==> Covers(e, b, rows, overrides, rules + [rule], r.value)
  {
    var result, todo := before, ActiveIds(b);
    ghost var done: set<Id> := {};
    CoversStart(e, b, rows, overrides, rules, rule, result);
    while todo != {}
      invariant todo + done == ActiveIds(b) && (done != {} ==> !rule.policy.OtherPolicy?)
      invariant CoversPart(e, b, rows, overrides, rules, rule, done, result)
    {
      var x :| x in todo;
      var selection :=
        GoldenValues.SelectGolden(rule.policy, Entry(candidates, (x, rule.field)), OverridesFor(overrides, rule.field));
      if selection.None? {
        return None;
      }
      CoversNext(e, b, rows, overrides, rules, rule, done, result, x, selection.value);
      result := result[(x, rule.field) := selection.value];
      todo, done := todo - {x}, done + {x};
    }
    assert done == ActiveIds(b);
    CoversDone(e, b, rows, overrides, rules, rule, result);
    r := Some(result);
  }

  lemma CoversSlot(e: Entity, b: Books, rows: seq<GoldenRow>, overrides: Overrides, result: Selections, s: Slot)
    requires Covers(e, b, rows, overrides, e.golden, result)
    requires ActiveIds(b) == {} || Supported(e.golden)
    ensures var all := SelectionsOf(e, b, rows, overrides).value;
      (s in all <==> s in result) && (s in result ==> all[s] == result[s])
  {
    assert s in result <==> s in Slots(b, e.golden);
    if s in result {
      assert Select(e, b, rows, overrides, PolicyFor(e.golden, s.1), s) == Some(result[s]);
    }
  }

  lemma CoversAll(e: Entity, b: Books, rows: seq<GoldenRow>, overrides: Overrides, result: Selections)
    requires Covers(e, b, rows, overrides, e.golden, result)
    requires ActiveIds(b) == {} || Supported(e.golden)
    ensures SelectionsOf(e, b, rows, overrides) == Some(result)
  {
    var all := SelectionsOf(e, b, rows, overrides).value;
    forall s ensures s in all <==> s in result { CoversSlot(e, b, rows, overrides, result, s); }
    forall s | s in all ensures all[s] == result[s] { CoversSlot(e, b, rows, overrides, result, s); }
    SameEntries(all, result);
  }

  /** Selects a value for every active identity and golden field. */
  method SelectAll(e: Entity, b: Books, rows: seq<GoldenRow>, overrides: Overrides) returns (r: Option<Selections>)
    ensures r == SelectionsOf(e, b, rows, overrides)
  {
    var candidates := Gather(e, b, rows);
    var result: Selections := map[];
    for i := 0 to |e.golden|
      invariant Covers(e, b, rows, overrides, e.golden[..i], result)
      invariant ActiveIds(b) == {} || Supported(e.golden[..i])
    {
      assert e.golden[..i + 1] == e.golden[..i] + [e.golden[i]];
      var next := ApplyRule(e, b, rows, overrides, candidates, e.golden[..i], e.golden[i], result);
      if next.None? {
        assert e.golden[i] in e.golden;
        return None;
      }
      result := next.value;
    }
    assert e.golden[..|e.golden|] == e.golden;
    CoversAll(e, b, rows, overrides, result);
    r := Some(result);
  }

  // ---- row order ----

  /** A record has one value per field. */
  ghost predicate OneValuePerField(rows: seq<GoldenRow>) {
    forall x, y | x in rows && y in rows && x.record == y.record && x.field == y.field :: x == y
  }

  lemma {:induction false} OffersPermuted(e: Entity, b: Books, x: seq<GoldenRow>, y: seq<GoldenRow>, slot: Slot)
    requires multiset(x) == multiset(y)
    ensures multiset(Offers(e, b, x, slot)) == multiset(Offers(e, b, y, slot))
    decreases |x|
  {
    if x == [] {
      assert |y| == |multiset(y)| == 0;
    } else {
      var k := WithoutHead(x, y);
      var rest := y[..k] + y[k + 1..];
      OffersPermuted(e, b, x[1..], rest, slot);
      OffersConcat(e, b, y[..k], y[k + 1..], slot);
      OffersConcat(e, b, y[..k] + [x[0]], y[k + 1..], slot);
      OffersAppend(e, b, y[..k], x[0], slot);
      assert Offers(e, b, x, slot) == OneRow(e, b, x[0], slot) + Offers(e, b, x[1..], slot);
    }
  }

  lemma OfferFromRow(e: Entity, b: Books, rows: seq<GoldenRow>, slot: Slot, o: Offer) returns (row: GoldenRow)
    requires o in Offers(e, b, rows, slot)
    ensures row in rows && Lands(e, b, row, slot) && o == OfferOf(e, b, row)
  {
    if o in OneRow(e, b, rows[0], slot) {
      row := rows[0];
    } else {
      row := OfferFromRow(e, b, rows[1..], slot, o);
    }
  }

  lemma OffersDistinct(e: Entity, b: Books, rows: seq<GoldenRow>, slot: Slot)
    requires OneValuePerField(rows)
    ensures GoldenValues.OneOffer(Offers(e, b, rows, slot))
  {
    var offers := Offers(e, b, rows, slot);
    forall x, y | x in offers && y in offers && x.record == y.record ensures x == y {
      var v := OfferFromRow(e, b, rows, slot, x);
      var w := OfferFromRow(e, b, rows, slot, y);
    }
  }

  lemma SelectPermuted(e: Entity, b: Books, x: seq<GoldenRow>, y: seq<GoldenRow>, overrides: Overrides,
      policy: GoldenValues.Policy, s: Slot)
    requires OneValuePerField(x) && multiset(x) == multiset(y)
    requires GoldenValues.OneDirective(OverridesFor(overrides, s.1))
    ensures Select(e, b, x, overrides, policy, s) == Select(e, b, y, overrides, policy, s)
  {
    OffersPermuted(e, b, x, y, s);
    OffersDistinct(e, b, x, s);
    var directives := OverridesFor(overrides, s.1);
    GoldenValues.SelectionIgnoresOrder(policy, Offers(e, b, x, s), Offers(e, b, y, s), directives, directives);
  }

  /** The order of the golden rows changes no selection. */
  lemma SelectionsIgnoreRowOrder(e: Entity, b: Books, x: seq<GoldenRow>, y: seq<GoldenRow>, overrides: Overrides)
    requires OneValuePerField(x) && multiset(x) == multiset(y)
    requires forall f | f in overrides :: GoldenValues.OneDirective(overrides[f])
    ensures SelectionsOf(e, b, x, overrides) == SelectionsOf(e, b, y, overrides)
  {
    var p, q := SelectionsOf(e, b, x, overrides), SelectionsOf(e, b, y, overrides);
    if p.Some? {
      forall s ensures s in p.value <==> s in q.value {
        SelectPermuted(e, b, x, y, overrides, PolicyFor(e.golden, s.1), s);
      }
      forall s | s in p.value ensures p.value[s] == q.value[s] {
        SelectPermuted(e, b, x, y, overrides, PolicyFor(e.golden, s.1), s);
      }
      SameEntries(p.value, q.value);
    }
  }

  lemma SameEntries(p: Selections, q: Selections)
    requires forall s :: s in p <==> s in q
    requires forall s | s in p :: p[s] == q[s]
    ensures p == q
  {
    assert p.Keys == q.Keys;
  }
}
