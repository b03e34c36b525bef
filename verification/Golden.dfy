/** Selection of one golden value per entity and field. */
module GoldenValues {
  import opened Prelude
  import opened Sorting
  import opened Types

  datatype State = Present | Missing | Invalid

  datatype Json = Null | Json(text: string)

  /** One member's value of the field; canonical bytes are kept as a number, since only their order is used. */
  datatype Offer = Offer(
    record: Id, priority: nat, changedAt: Option<int>, authoritative: bool, sortKey: Key,
    raw: Option<Json>, state: State, normalized: Option<string>, bytes: Option<nat>)

  datatype Override = Override(anchor: Id, directive: Id, createdAt: int, raw: Json, normalized: Option<string>,
      bytes: Option<nat>)

  datatype Policy = PreferSource | Latest | FirstNonNull | MostCommon | OtherPolicy

  datatype SelectionStatus = Selected | Overridden | OverrideConflict | NoValue

  datatype Issue = Tie | InvalidAuthoritativeValue | ConflictingOverrides | OverrideAnchorInactive

  datatype TieBreak = ByPolicy | ByOverrideValue | ByDirective

  datatype Selection = Selection(
    policy: Policy, raw: Option<Json>, normalized: Option<string>, bytes: Option<nat>, status: SelectionStatus,
    winner: Option<Id>, tieBreak: TieBreak, contributors: seq<Id>, issues: seq<Issue>)

  // ---- what takes part, and in which order ----

  predicate Usable(o: Offer) {
    o.state.Present? && o.raw.Some? && !o.raw.value.Null? && o.normalized.Some? && o.bytes.Some?
  }

  predicate Dated(o: Offer) { Usable(o) && o.changedAt.Some? }

  function Newest(t: Option<int>): seq<int> {
    match t case Some(v) => [0, -v] case None => [1, 0]
  }

  function SourceRank(o: Offer): seq<int> { [o.priority, o.sortKey, o.record] }
  function PreferRank(o: Offer): seq<int> { [o.priority] + Newest(o.changedAt) + [o.sortKey, o.record] }
  function LatestRank(o: Offer): seq<int> { Newest(o.changedAt) + [o.priority, o.sortKey, o.record] }
  function ProvenanceRank(o: Offer): seq<int> { [o.sortKey, o.record] }

  function SameBytes(bytes: Option<nat>): Offer -> bool {
    (o: Offer) => o.bytes == bytes
  }

  function Backing(valid: seq<Offer>, bytes: Option<nat>): seq<Offer> {
    Filter(valid, SameBytes(bytes))
  }

  predicate IsAuthoritative(o: Offer) { o.authoritative }

  function First<T>(s: seq<T>, rank: T -> seq<int>): (r: Option<T>)
    ensures r.None? <==> s == []
  {
    if s == [] then None else
      SortMultiset(s, rank);
      Some(SortBy(s, rank)[0])
  }

  /** More offers, then more authoritative ones, then the better best source, then the smaller bytes. */
  function GroupRank(group: seq<Offer>, bytes: Option<nat>): seq<int> {
    var first := First(group, SourceRank);
    [-|group|, -|Filter(group, IsAuthoritative)|,
     if first.Some? then first.value.priority else 0, if bytes.Some? then bytes.value else -1]
  }

  function ValueRank(valid: seq<Offer>, bytes: Option<nat>): seq<int> {
    GroupRank(Backing(valid, bytes), bytes)
  }

  function PopularRank(valid: seq<Offer>): Offer -> seq<int> {
    (o: Offer) => ValueRank(valid, o.bytes)
  }

  // ---- selection ----

  function NoSelection(policy: Policy, issues: seq<Issue>): Selection {
    Selection(policy, None, None, None, NoValue, None, ByPolicy, [], issues)
  }

  function RecordOf(o: Offer): Id { o.record }

  function SelectedFrom(policy: Policy, winner: Offer, group: seq<Offer>, issues: seq<Issue>): Selection {
    Selection(policy, winner.raw, winner.normalized, winner.bytes, Selected, Some(winner.record), ByPolicy,
      Map(SortBy(group, ProvenanceRank), RecordOf), issues)
  }

  predicate InvalidAuthority(o: Offer) { o.authoritative && o.state.Invalid? }

  function AuthorityIssues(offers: seq<Offer>): seq<Issue> {
    if Filter(offers, InvalidAuthority) == [] then [] else [InvalidAuthoritativeValue]
  }

  /** The first by rank wins; the offers of the same value contribute. */
  function SelectFirst(policy: Policy, valid: seq<Offer>, rank: Offer -> seq<int>, issues: seq<Issue>): Selection {
    match First(valid, rank)
    case None => NoSelection(policy, issues)
    case Some(winner) => SelectedFrom(policy, winner, Backing(valid, winner.bytes), issues)
  }

  /** Some other value is offered just as often. */
  predicate Tied(valid: seq<Offer>, bytes: Option<nat>) {
    exists o :: o in valid && o.bytes != bytes && |Backing(valid, o.bytes)| == |Backing(valid, bytes)|
  }

  function SelectMostCommon(valid: seq<Offer>, issues: seq<Issue>): Selection {
    match First(valid, PopularRank(valid))
    case None => NoSelection(MostCommon, issues)
    case Some(popular) =>
      var group := Backing(valid, popular.bytes);
      var all := if Tied(valid, popular.bytes) then issues + [Tie] else issues;
      match First(group, SourceRank)
      case None => NoSelection(MostCommon, all)
      case Some(winner) => SelectedFrom(MostCommon, winner, group, all)
  }

  function BuiltIn(policy: Policy, offers: seq<Offer>): Option<Selection> {
    var issues := AuthorityIssues(offers);
    match policy
    case PreferSource => Some(SelectFirst(policy, Filter(offers, Usable), PreferRank, issues))
    case Latest => Some(SelectFirst(policy, Filter(offers, Dated), LatestRank, issues))
    case FirstNonNull => Some(SelectFirst(policy, Filter(offers, Usable), SourceRank, issues))
    case MostCommon => Some(SelectMostCommon(Filter(offers, Usable), issues))
    case OtherPolicy => None
  }

  // ---- overrides ----

  function Anchored(offers: seq<Offer>): Override -> bool {
    (d: Override) => exists o :: o in offers && o.record == d.anchor
  }

  function Unanchored(offers: seq<Offer>): Override -> bool {
    (d: Override) => !exists o :: o in offers && o.record == d.anchor
  }

  function DirectiveRank(d: Override): seq<int> { [d.createdAt, d.directive] }
  function IdRank(id: Id): seq<int> { [id] }
  function AnchorOf(d: Override): Id { d.anchor }

  predicate OneValue(active: seq<Override>) {
    forall d, e | d in active && e in active :: d.raw == e.raw
  }

  function Anchors(active: seq<Override>): seq<Id> {
    SortBy(Map(active, AnchorOf), IdRank)
  }

  function WithOverrides(s: Selection, active: seq<Override>): Selection {
    match First(active, DirectiveRank)
    case None => s
    case Some(chosen) =>
      if OneValue(active) then
        Selection(s.policy, Some(chosen.raw), chosen.normalized, chosen.bytes, Overridden, Some(chosen.anchor),
          ByDirective,
          Anchors(active), s.issues)
      else
        Selection(s.policy, None, None, None, OverrideConflict, None, ByOverrideValue, Anchors(active),
          s.issues + [ConflictingOverrides])
  }

  function SelectGolden(policy: Policy, offers: seq<Offer>, overrides: seq<Override>): Option<Selection> {
    match BuiltIn(policy, offers)
    case None => None
    case Some(s) =>
      var noted := if Filter(overrides, Unanchored(offers)) == [] then s
        else s.(issues := s.issues + [OverrideAnchorInactive]);
      Some(WithOverrides(noted, Filter(overrides, Anchored(offers))))
  }

  // ---- grouping as it runs ----

  /** The groups of the first offers, by value. */
  ghost predicate Grouped(valid: seq<Offer>, groups: map<nat, seq<Offer>>) {
    && (forall b | b in groups :: groups[b] == Backing(valid, Some(b)) && groups[b] != [])
    && (forall o | o in valid :: o.bytes.Some? && o.bytes.value in groups)
  }

  lemma GroupedMore(valid: seq<Offer>, groups: map<nat, seq<Offer>>, o: Offer)
    requires Grouped(valid, groups) && o.bytes.Some?
    ensures var b := o.bytes.value;
      Grouped(valid + [o], groups[b := (if b in groups then groups[b] else []) + [o]])
  {
    var b := o.bytes.value;
    var after := groups[b := (if b in groups then groups[b] else []) + [o]];
    forall c | c in after ensures after[c] == Backing(valid + [o], Some(c)) && after[c] != [] {
      FilterAppend(valid, o, SameBytes(Some(c)));
      if c !in groups { NoBacking(valid, groups, c); }
    }
    forall p | p in valid + [o] ensures p.bytes.Some? && p.bytes.value in after {
      if p != o { assert p in valid; }
    }
  }

  lemma NoBacking(valid: seq<Offer>, groups: map<nat, seq<Offer>>, b: nat)
    requires Grouped(valid, groups) && b !in groups
    ensures Backing(valid, Some(b)) == []
  {
    FilterNone(valid, SameBytes(Some(b)));
  }

  lemma GroupBacked(valid: seq<Offer>, groups: map<nat, seq<Offer>>, b: nat) returns (o: Offer)
    requires Grouped(valid, groups) && b in groups
    ensures o in valid && o.bytes == Some(b)
  {
    o := groups[b][0];
    assert o in Backing(valid, Some(b));
  }

  lemma ValueRankSeparates(valid: seq<Offer>, b: nat, c: nat)
    requires ValueRank(valid, Some(b)) == ValueRank(valid, Some(c))
    ensures b == c
  {
    assert ValueRank(valid, Some(b))[3] == ValueRank(valid, Some(c))[3];
  }

  /** No group but those still to be looked at ranks before `best`. */
  ghost predicate Leads(valid: seq<Offer>, groups: map<nat, seq<Offer>>, todo: set<nat>, best: nat) {
    best in groups && forall b | b in groups && b !in todo ::
      LexLe(ValueRank(valid, Some(best)), ValueRank(valid, Some(b)))
  }

  lemma LeadsOn(valid: seq<Offer>, groups: map<nat, seq<Offer>>, todo: set<nat>, best: nat, b: nat, left: set<nat>)
    requires Leads(valid, groups, todo, best) && b in groups && left == todo - {b}
    ensures Leads(valid, groups, left,
      if LexLe(ValueRank(valid, Some(best)), ValueRank(valid, Some(b))) then best else b)
  {
    var x, y := ValueRank(valid, Some(best)), ValueRank(valid, Some(b));
    LexTotal(x, y);
    LexTotal(y, y);
    if !LexLe(x, y) {
      forall c | c in groups && c !in left ensures LexLe(y, ValueRank(valid, Some(c))) {
        if c != b { LexTransitive(y, x, ValueRank(valid, Some(c))); }
      }
    }
  }

  lemma LeadsAtFirst(valid: seq<Offer>, groups: map<nat, seq<Offer>>, best: nat)
    requires best in groups
    ensures Leads(valid, groups, groups.Keys - {best}, best)
  {
    LexTotal(ValueRank(valid, Some(best)), ValueRank(valid, Some(best)));
  }

  /** The best-ranked of the group keys. */
  method BestKey(ghost valid: seq<Offer>, groups: map<nat, seq<Offer>>) returns (best: nat)
    requires Grouped(valid, groups) && groups != map[]
    ensures best in groups && forall b | b in groups :: LexLe(ValueRank(valid, Some(best)), ValueRank(valid, Some(b)))
  {
    assert exists b :: b in groups;
    best :| best in groups;
    var todo := groups.Keys - {best};
    LeadsAtFirst(valid, groups, best);
    while todo != {}
      invariant todo <= groups.Keys && Leads(valid, groups, todo, best)
    {
      var b :| b in todo;
      LeadsOn(valid, groups, todo, best, b, todo - {b});
      best := if LexLe(GroupRank(groups[best], Some(best)), GroupRank(groups[b], Some(b))) then best else b;
      todo := todo - {b};
    }
  }

  /** Groups the offers by value and takes the best group. */
  method MostCommonValue(valid: seq<Offer>, issues: seq<Issue>) returns (s: Selection)
    requires forall o | o in valid :: o.bytes.Some?
    ensures s == SelectMostCommon(valid, issues)
  {
    var groups: map<nat, seq<Offer>> := map[];
    for i := 0 to |valid|
      invariant Grouped(valid[..i], groups)
    {
      var o := valid[i];
      assert o in valid && valid[..i + 1] == valid[..i] + [o];
      GroupedMore(valid[..i], groups, o);
      var b := o.bytes.value;
      groups := groups[b := (if b in groups then groups[b] else []) + [o]];
    }
    assert valid[..|valid|] == valid;
    assert valid != [] ==> valid[0] in valid && valid[0].bytes.value in groups;
    if groups == map[] {
      return NoSelection(MostCommon, issues);
    }
    var best := BestKey(valid, groups);
    BestIsPopular(valid, groups, best);
    var tied := exists b :: b in groups && b != best && |groups[b]| == |groups[best]|;
    TiedIs(valid, groups, best);
    var winner := First(groups[best], SourceRank);
    s := SelectedFrom(MostCommon, winner.value, groups[best], if tied then issues + [Tie] else issues);
  }

  lemma BestIsPopular(valid: seq<Offer>, groups: map<nat, seq<Offer>>, best: nat)
    requires Grouped(valid, groups) && best in groups
    requires forall b | b in groups :: LexLe(ValueRank(valid, Some(best)), ValueRank(valid, Some(b)))
    ensures valid != [] && First(valid, PopularRank(valid)).value.bytes == Some(best)
  {
    var o := GroupBacked(valid, groups, best);
    var first := First(valid, PopularRank(valid)).value;
    FirstIsLeast(valid, PopularRank(valid), o);
    LexAntisymmetric(ValueRank(valid, Some(best)), ValueRank(valid, first.bytes));
    ValueRankSeparates(valid, best, first.bytes.value);
  }

  lemma TiedIs(valid: seq<Offer>, groups: map<nat, seq<Offer>>, best: nat)
    requires Grouped(valid, groups) && best in groups
    ensures Tied(valid, Some(best)) <==> exists b :: b in groups && b != best && |groups[b]| == |groups[best]|
  {
    if b :| b in groups && b != best && |groups[b]| == |groups[best]| {
      var o := GroupBacked(valid, groups, b);
    }
    if Tied(valid, Some(best)) {
      var o :| o in valid && o.bytes != Some(best) && |Backing(valid, o.bytes)| == |Backing(valid, Some(best))|;
      assert o.bytes == Some(o.bytes.value);
    }
  }

  /** The first by rank is an element, and no element ranks before it. */
  lemma FirstIsLeast<T>(s: seq<T>, rank: T -> seq<int>, x: T)
    requires x in s
    ensures First(s, rank).Some? && First(s, rank).value in s && LexLe(rank(First(s, rank).value), rank(x))
  {
    SortSorted(s, rank);
    SortElements(s, rank);
    SortMultiset(s, rank);
    var sorted := SortBy(s, rank);
    var i :| 0 <= i < |sorted| && sorted[i] == x;
    LexTotal(rank(x), rank(x));
    assert sorted[0] in sorted;
  }

  // ---- the order of the inputs does not matter ----

  /** Each record offers once. */
  ghost predicate OneOffer(offers: seq<Offer>) {
    forall x, y | x in offers && y in offers && x.record == y.record :: x == y
  }

  ghost predicate OneDirective(overrides: seq<Override>) {
    forall x, y | x in overrides && y in overrides && x.directive == y.directive :: x == y
  }

  lemma RanksEndInRecord(x: Offer, y: Offer)
    ensures SourceRank(x) == SourceRank(y) ==> x.record == y.record
    ensures ProvenanceRank(x) == ProvenanceRank(y) ==> x.record == y.record
    ensures PreferRank(x) == PreferRank(y) ==> x.record == y.record
    ensures LatestRank(x) == LatestRank(y) ==> x.record == y.record
  {
    assert SourceRank(x)[2] == x.record && SourceRank(y)[2] == y.record;
    assert ProvenanceRank(x)[1] == x.record && ProvenanceRank(y)[1] == y.record;
    assert PreferRank(x)[4] == x.record && PreferRank(y)[4] == y.record;
    assert LatestRank(x)[4] == x.record && LatestRank(y)[4] == y.record;
  }

  /** A rank under which one record's offers alone can be equal. */
  ghost predicate Separates(rank: Offer -> seq<int>) {
    forall x, y | rank(x) == rank(y) :: x.record == y.record
  }

  lemma RanksSeparate()
    ensures Separates(SourceRank) && Separates(ProvenanceRank) && Separates(PreferRank) && Separates(LatestRank)
  {
    forall x, y ensures SourceRank(x) == SourceRank(y) ==> x.record == y.record { RanksEndInRecord(x, y); }
    forall x, y ensures ProvenanceRank(x) == ProvenanceRank(y) ==> x.record == y.record { RanksEndInRecord(x, y); }
    forall x, y ensures PreferRank(x) == PreferRank(y) ==> x.record == y.record { RanksEndInRecord(x, y); }
    forall x, y ensures LatestRank(x) == LatestRank(y) ==> x.record == y.record { RanksEndInRecord(x, y); }
  }

  lemma SortPermuted(a: seq<Offer>, b: seq<Offer>, rank: Offer -> seq<int>)
    requires OneOffer(a) && multiset(a) == multiset(b) && Separates(rank)
    ensures SortBy(a, rank) == SortBy(b, rank) && First(a, rank) == First(b, rank) && OneOffer(b)
  {
    SameMultisetSameElements(a, b);
    SortPermutation(a, b, rank);
  }

  lemma SelectedPermuted(policy: Policy, winner: Offer, a: seq<Offer>, b: seq<Offer>, issues: seq<Issue>)
    requires OneOffer(a) && multiset(a) == multiset(b)
    ensures SelectedFrom(policy, winner, a, issues) == SelectedFrom(policy, winner, b, issues)
  {
    RanksSeparate();
    SortPermuted(a, b, ProvenanceRank);
  }

  lemma SelectFirstPermuted(policy: Policy, a: seq<Offer>, b: seq<Offer>, rank: Offer -> seq<int>, issues: seq<Issue>)
    requires OneOffer(a) && multiset(a) == multiset(b) && Separates(rank)
    ensures SelectFirst(policy, a, rank, issues) == SelectFirst(policy, b, rank, issues)
  {
    SortPermuted(a, b, rank);
    if a != [] {
      var winner := First(a, rank).value;
      FilterPermuted(a, b, SameBytes(winner.bytes));
      SelectedPermuted(policy, winner, Backing(a, winner.bytes), Backing(b, winner.bytes), issues);
    }
  }

  lemma ValueRankPermuted(a: seq<Offer>, b: seq<Offer>, bytes: Option<nat>)
    requires OneOffer(a) && multiset(a) == multiset(b)
    ensures ValueRank(a, bytes) == ValueRank(b, bytes) && |Backing(a, bytes)| == |Backing(b, bytes)|
  {
    FilterPermuted(a, b, SameBytes(bytes));
    OneOfferKept(a, SameBytes(bytes));
    BackingPermuted(Backing(a, bytes), Backing(b, bytes), bytes);
  }

  lemma OneOfferKept(a: seq<Offer>, keep: Offer -> bool)
    requires OneOffer(a)
    ensures OneOffer(Filter(a, keep))
  {
  }

  lemma BackingPermuted(x: seq<Offer>, y: seq<Offer>, bytes: Option<nat>)
    requires OneOffer(x) && multiset(x) == multiset(y)
    ensures |x| == |y| && GroupRank(x, bytes) == GroupRank(y, bytes)
  {
    SameMultisetSameElements(x, y);
    FilterPermuted(x, y, IsAuthoritative);
    FirstSourcePermuted(x, y);
  }

  lemma FirstSourcePermuted(a: seq<Offer>, b: seq<Offer>)
    requires OneOffer(a) && multiset(a) == multiset(b)
    ensures First(a, SourceRank) == First(b, SourceRank)
  {
    RanksSeparate();
    SortPermuted(a, b, SourceRank);
  }

  lemma PopularPermuted(a: seq<Offer>, b: seq<Offer>)
    requires OneOffer(a) && multiset(a) == multiset(b) && a != [] && forall o | o in a :: o.bytes.Some?
    ensures b != [] && First(a, PopularRank(a)).value.bytes == First(b, PopularRank(b)).value.bytes
  {
    SameMultisetSameElements(a, b);
    assert a[0] in a;
    FirstIsLeast(a, PopularRank(a), a[0]);
    assert a[0] in b;
    FirstIsLeast(b, PopularRank(b), a[0]);
    var x, y := First(a, PopularRank(a)).value, First(b, PopularRank(b)).value;
    FirstIsLeast(a, PopularRank(a), y);
    FirstIsLeast(b, PopularRank(b), x);
    ValueRankPermuted(a, b, x.bytes);
    ValueRankPermuted(a, b, y.bytes);
    LexAntisymmetric(ValueRank(a, x.bytes), ValueRank(a, y.bytes));
    ValueRankSeparates(a, x.bytes.value, y.bytes.value);
  }

  lemma TiedPermuted(a: seq<Offer>, b: seq<Offer>, bytes: Option<nat>)
    requires OneOffer(a) && multiset(a) == multiset(b)
    ensures Tied(a, bytes) ==> Tied(b, bytes)
  {
    SameMultisetSameElements(a, b);
    if o :| o in a && o.bytes != bytes && |Backing(a, o.bytes)| == |Backing(a, bytes)| {
      ValueRankPermuted(a, b, o.bytes);
      ValueRankPermuted(a, b, bytes);
      assert o in b;
    }
  }

  lemma SelectMostCommonPermuted(a: seq<Offer>, b: seq<Offer>, issues: seq<Issue>)
    requires OneOffer(a) && multiset(a) == multiset(b) && forall o | o in a :: o.bytes.Some?
    ensures SelectMostCommon(a, issues) == SelectMostCommon(b, issues)
  {
    SameMultisetSameElements(a, b);
    if a != [] {
      PopularPermuted(a, b);
      var bytes := First(a, PopularRank(a)).value.bytes;
      TiedPermuted(a, b, bytes);
      TiedPermuted(b, a, bytes);
      FilterPermuted(a, b, SameBytes(bytes));
      FirstSourcePermuted(Backing(a, bytes), Backing(b, bytes));
      var all := if Tied(a, bytes) then issues + [Tie] else issues;
      var winner := First(Backing(a, bytes), SourceRank);
      if winner.Some? { SelectedPermuted(MostCommon, winner.value, Backing(a, bytes), Backing(b, bytes), all); }
    }
  }

  lemma BuiltInPermuted(policy: Policy, a: seq<Offer>, b: seq<Offer>)
    requires OneOffer(a) && multiset(a) == multiset(b)
    ensures BuiltIn(policy, a) == BuiltIn(policy, b)
  {
    FilterPermuted(a, b, InvalidAuthority);
    RanksSeparate();
    var keep := if policy.Latest? then Dated else Usable;
    var x, y, issues := Filter(a, keep), Filter(b, keep), AuthorityIssues(a);
    FilterPermuted(a, b, keep);
    OneOfferKept(a, keep);
    match policy
    case PreferSource => SelectFirstPermuted(policy, x, y, PreferRank, issues);
    case Latest => SelectFirstPermuted(policy, x, y, LatestRank, issues);
    case FirstNonNull => SelectFirstPermuted(policy, x, y, SourceRank, issues);
    case MostCommon => SelectMostCommonPermuted(x, y, issues);
    case OtherPolicy =>
  }

  lemma AnchorsPermuted(a: seq<Override>, b: seq<Override>)
    requires multiset(a) == multiset(b)
    ensures Anchors(a) == Anchors(b)
  {
    MapPermuted(a, b);
    var x, y := Map(a, AnchorOf), Map(b, AnchorOf);
    forall i, j | i in x && j in x && IdRank(i) == IdRank(j) ensures i == j {
      assert IdRank(i)[0] == IdRank(j)[0];
    }
    SortPermutation(x, y, IdRank);
  }

  lemma {:induction false} MapPermuted(a: seq<Override>, b: seq<Override>)
    requires multiset(a) == multiset(b)
    ensures multiset(Map(a, AnchorOf)) == multiset(Map(b, AnchorOf))
    decreases |a|
  {
    if a == [] {
      assert |b| == |multiset(b)| == 0;
    } else {
      var k := WithoutHead(a, b);
      var rest := b[..k] + b[k + 1..];
      MapPermuted(a[1..], rest);
      MapConcat(b[..k], b[k + 1..]);
      MapConcat(b[..k] + [a[0]], b[k + 1..]);
      MapConcat(b[..k], [a[0]]);
      assert [a[0]][1..] == [];
      assert Map([a[0]], AnchorOf) == [a[0].anchor];
    }
  }

  lemma MapConcat(a: seq<Override>, b: seq<Override>)
    ensures Map(a + b, AnchorOf) == Map(a, AnchorOf) + Map(b, AnchorOf)
  {
  }

  lemma WithOverridesPermuted(s: Selection, a: seq<Override>, b: seq<Override>)
    requires OneDirective(a) && multiset(a) == multiset(b)
    ensures WithOverrides(s, a) == WithOverrides(s, b)
  {
    SameMultisetSameElements(a, b);
    AnchorsPermuted(a, b);
    forall d, e | d in a && e in a && DirectiveRank(d) == DirectiveRank(e) ensures d == e {
      assert DirectiveRank(d)[1] == DirectiveRank(e)[1];
    }
    SortPermutation(a, b, DirectiveRank);
  }

  /** Neither the order of the members' values nor that of the overrides changes a selection. */
  lemma SelectionIgnoresOrder(policy: Policy, a: seq<Offer>, b: seq<Offer>, x: seq<Override>, y: seq<Override>)
    requires OneOffer(a) && multiset(a) == multiset(b) && OneDirective(x) && multiset(x) == multiset(y)
    ensures SelectGolden(policy, a, x) == SelectGolden(policy, b, y)
  {
    BuiltInPermuted(policy, a, b);
    SameMultisetSameElements(a, b);
    FilterCongruent(y, Unanchored(a), Unanchored(b));
    FilterCongruent(y, Anchored(a), Anchored(b));
    FilterPermuted(x, y, Unanchored(a));
    FilterPermuted(x, y, Anchored(a));
    var s := BuiltIn(policy, a);
    if s.Some? {
      var noted := if Filter(x, Unanchored(a)) == [] then s.value
        else s.value.(issues := s.value.issues + [OverrideAnchorInactive]);
      WithOverridesPermuted(noted, Filter(x, Anchored(a)), Filter(y, Anchored(a)));
    }
  }

  // ---- what the most common value is ----

  lemma LeadingTwo(a: seq<int>, b: seq<int>)
    requires |a| >= 2 && |b| >= 2 && LexLe(a, b)
    ensures a[0] < b[0] || (a[0] == b[0] && a[1] <= b[1])
  {
  }

  /** The most common value is backed by most offers; among those by most authoritative ones. */
  lemma MostCommonIsMostBacked(valid: seq<Offer>, issues: seq<Issue>, o: Offer)
    requires (forall p | p in valid :: p.bytes.Some?) && o in valid
    ensures var s := SelectMostCommon(valid, issues);
      && s.status.Selected?
      && |Backing(valid, o.bytes)| <= |Backing(valid, s.bytes)|
      && (|Backing(valid, o.bytes)| == |Backing(valid, s.bytes)| ==>
           |Filter(Backing(valid, o.bytes), IsAuthoritative)| <= |Filter(Backing(valid, s.bytes), IsAuthoritative)|)
  {
    FirstIsLeast(valid, PopularRank(valid), o);
    var popular := First(valid, PopularRank(valid)).value;
    LeadingTwo(ValueRank(valid, popular.bytes), ValueRank(valid, o.bytes));
    var group := Backing(valid, popular.bytes);
    FirstIsLeast(group, SourceRank, popular);
  }

  /** Overrides that agree win over every policy; overrides that differ leave no value. */
  lemma OverridesDecide(policy: Policy, offers: seq<Offer>, overrides: seq<Override>, d: Override)
    requires !policy.OtherPolicy? && d in overrides && Anchored(offers)(d)
    ensures var s := SelectGolden(policy, offers, overrides).value;
      if OneValue(Filter(overrides, Anchored(offers))) then s.status.Overridden? && s.raw == Some(d.raw)
      else s.status.OverrideConflict? && s.raw.None? && ConflictingOverrides in s.issues
  {
    var active := Filter(overrides, Anchored(offers));
    FirstIsLeast(active, DirectiveRank, d);
  }
}
