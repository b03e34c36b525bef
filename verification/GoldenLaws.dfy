/** Which value each golden policy selects, said of the offers and overrides alone. */
module GoldenLaws {
  import opened Prelude
  import opened Sorting
  import opened Types
  import opened GoldenValues

  /** A value that can be selected: present, not null, and normalized. */
  predicate Offered(o: Offer) {
    o.state == Present && o.raw.Some? && o.raw.value != Null && o.normalized.Some? && o.bytes.Some?
  }

  /** The latest policy looks at dated values alone. */
  predicate Eligible(policy: Policy, o: Offer) {
    Offered(o) && (policy.Latest? ==> o.changedAt.Some?)
  }

  /** Changed later; a value without a date is older than every dated one. */
  predicate Later(x: Offer, y: Offer) {
    x.changedAt.Some? && (y.changedAt.None? || x.changedAt.value > y.changedAt.value)
  }

  /** `x` has the lesser sort key, or the same and no greater record. */
  predicate Front(x: Offer, y: Offer) {
    x.sortKey < y.sortKey || (x.sortKey == y.sortKey && x.record <= y.record)
  }

  /** A source that comes earlier is of the lesser priority number. */
  predicate BySource(x: Offer, y: Offer) {
    x.priority < y.priority || (x.priority == y.priority && Front(x, y))
  }

  /** Under the policy `y` is not preferred to `x`. */
  predicate Prefers(policy: Policy, x: Offer, y: Offer) {
    match policy
    case PreferSource =>
      || x.priority < y.priority
      || (x.priority == y.priority && (Later(x, y) || (x.changedAt == y.changedAt && Front(x, y))))
    case Latest =>
      || Later(x, y)
      || (x.changedAt == y.changedAt && BySource(x, y))
    case FirstNonNull => BySource(x, y)
    case MostCommon => BySource(x, y)
    case OtherPolicy => true
  }

  // ---- the ranks, field by field ----

  lemma NewestMeans(x: Offer, y: Offer, a: seq<int>, b: seq<int>)
    ensures LexLe(Newest(x.changedAt) + a, Newest(y.changedAt) + b)
       <==> Later(x, y) || (x.changedAt == y.changedAt && LexLe(a, b))
  {
    var n, m := Newest(x.changedAt), Newest(y.changedAt);
    LexPair(n[1], m[1], a, b);
    LexPair(n[0], m[0], [n[1]] + a, [m[1]] + b);
    assert n + a == [n[0]] + ([n[1]] + a) && m + b == [m[0]] + ([m[1]] + b);
  }

  lemma RankMeans(policy: Policy, x: Offer, y: Offer)
    ensures LexLe(SourceRank(x), SourceRank(y)) <==> BySource(x, y)
    ensures LexLe(ProvenanceRank(x), ProvenanceRank(y)) <==> Front(x, y)
    ensures LexLe(PreferRank(x), PreferRank(y)) <==> Prefers(PreferSource, x, y)
    ensures LexLe(LatestRank(x), LatestRank(y)) <==> Prefers(Latest, x, y)
  {
    var a, b := [x.sortKey, x.record], [y.sortKey, y.record];
    LexPair(x.record, y.record, [], []);
    LexPair(x.sortKey, y.sortKey, [x.record], [y.record]);
    assert a == [x.sortKey] + [x.record] && b == [y.sortKey] + [y.record];
    assert [x.record] == [x.record] + [] && [y.record] == [y.record] + [];
    LexPair(x.priority, y.priority, a, b);
    assert SourceRank(x) == [x.priority] + a && SourceRank(y) == [y.priority] + b;
    NewestMeans(x, y, a, b);
    LexPair(x.priority, y.priority, Newest(x.changedAt) + a, Newest(y.changedAt) + b);
    assert PreferRank(x) == [x.priority] + (Newest(x.changedAt) + a);
    assert PreferRank(y) == [y.priority] + (Newest(y.changedAt) + b);
    NewestMeans(x, y, SourceRank(x), SourceRank(y));
    assert LatestRank(x) == Newest(x.changedAt) + SourceRank(x) && LatestRank(y) == Newest(y.changedAt) + SourceRank(y);
  }

  // ---- what a selection says of its winner ----

  /** The records of exactly the eligible offers of the value, by sort key and record. */
  ghost predicate Backers(policy: Policy, offers: seq<Offer>, bytes: Option<nat>, contributors: seq<Id>) {
    exists group :: InFront(group) && AllOf(policy, offers, bytes, group) && Named(group, contributors)
  }

  ghost predicate InFront(group: seq<Offer>) {
    forall i, j | 0 <= i < j < |group| :: Front(group[i], group[j])
  }

  ghost predicate AllOf(policy: Policy, offers: seq<Offer>, bytes: Option<nat>, group: seq<Offer>) {
    forall o :: multiset(group)[o] == if Eligible(policy, o) && o.bytes == bytes then multiset(offers)[o] else 0
  }

  ghost predicate Named(group: seq<Offer>, records: seq<Id>) {
    |records| == |group| && forall i | 0 <= i < |group| :: records[i] == group[i].record
  }

  /** The selection shows the value of `w`, and names those who offer the same. */
  ghost predicate Shows(policy: Policy, offers: seq<Offer>, s: Selection, w: Offer) {
    && w in offers && Eligible(policy, w)
    && s.policy == policy && s.raw == w.raw && s.normalized == w.normalized && s.bytes == w.bytes
    && s.status == Selected && s.winner == Some(w.record) && s.tieBreak == ByPolicy
    && Backers(policy, offers, w.bytes, s.contributors)
  }

  predicate ShowsNothing(policy: Policy, s: Selection) {
    && s.policy == policy && s.raw == None && s.normalized == None && s.bytes == None && s.status == NoValue
    && s.winner == None && s.tieBreak == ByPolicy && s.contributors == []
  }

  /** An authoritative source offered a value that could not be read. */
  predicate AuthorityFailed(offers: seq<Offer>) {
    exists o :: o in offers && o.authoritative && o.state == Invalid
  }

  predicate AuthorityNoted(offers: seq<Offer>, issues: seq<Issue>) {
    issues == if AuthorityFailed(offers) then [InvalidAuthoritativeValue] else []
  }

  /** The filter each policy starts from. */
  function Kept(policy: Policy, offers: seq<Offer>): seq<Offer> {
    Filter(offers, if policy.Latest? then Dated else Usable)
  }

  lemma KeptMeans(policy: Policy, offers: seq<Offer>, o: Offer)
    ensures multiset(Kept(policy, offers))[o] == if Eligible(policy, o) then multiset(offers)[o] else 0
    ensures o in Kept(policy, offers) <==> o in offers && Eligible(policy, o)
  {
    FilterMultiset(offers, if policy.Latest? then Dated else Usable, o);
  }

  lemma SelectedShows(policy: Policy, offers: seq<Offer>, w: Offer, issues: seq<Issue>)
    requires w in Kept(policy, offers)
    ensures Shows(policy, offers, SelectedFrom(policy, w, Backing(Kept(policy, offers), w.bytes), issues), w)
  {
    KeptMeans(policy, offers, w);
    var kept := Kept(policy, offers);
    var backing := Backing(kept, w.bytes);
    var group := SortBy(backing, ProvenanceRank);
    SortSorted(backing, ProvenanceRank);
    SortMultiset(backing, ProvenanceRank);
    forall i, j | 0 <= i < j < |group| ensures Front(group[i], group[j]) {
      RankMeans(policy, group[i], group[j]);
    }
    forall o
      ensures multiset(group)[o] == if Eligible(policy, o) && o.bytes == w.bytes then multiset(offers)[o] else 0
    {
      FilterMultiset(kept, SameBytes(w.bytes), o);
      KeptMeans(policy, offers, o);
    }
    assert AllOf(policy, offers, w.bytes, group) && InFront(group);
    assert Named(group, Map(group, RecordOf));
  }

  lemma AuthorityNotedIs(offers: seq<Offer>)
    ensures AuthorityNoted(offers, AuthorityIssues(offers))
  {
    var failed := Filter(offers, InvalidAuthority);
    if failed != [] { assert failed[0] in offers && InvalidAuthority(failed[0]); }
    if o :| o in offers && o.authoritative && o.state == Invalid { assert o in failed; }
  }

  /** Latest, preferred source and first value alike show an eligible offer that no other eligible
      one is preferred to, and nothing only where none is eligible. */
  lemma FirstExplained(policy: Policy, offers: seq<Offer>)
    requires policy.PreferSource? || policy.Latest? || policy.FirstNonNull?
    ensures SelectGolden(policy, offers, []).Some?
    ensures var s := SelectGolden(policy, offers, []).value;
      && AuthorityNoted(offers, s.issues)
      && if exists o :: o in offers && Eligible(policy, o) then
           exists w :: Shows(policy, offers, s, w)
             && forall o | o in offers && Eligible(policy, o) :: Prefers(policy, w, o)
         else ShowsNothing(policy, s)
  {
    var kept := Kept(policy, offers);
    AuthorityNotedIs(offers);
    forall o ensures o in kept <==> o in offers && Eligible(policy, o) { KeptMeans(policy, offers, o); }
    var rank := if policy.PreferSource? then PreferRank else if policy.Latest? then LatestRank else SourceRank;
    if kept != [] {
      var w := First(kept, rank).value;
      FirstIsLeast(kept, rank, kept[0]);
      SelectedShows(policy, offers, w, AuthorityIssues(offers));
      forall o | o in offers && Eligible(policy, o) ensures Prefers(policy, w, o) {
        FirstIsLeast(kept, rank, o);
        RankMeans(policy, w, o);
      }
      assert kept[0] in kept;
    }
  }

  // ---- the most common value ----

  function Voting(value: nat): Offer -> bool {
    (o: Offer) => Offered(o) && o.bytes == Some(value)
  }

  function VotingWithAuthority(value: nat): Offer -> bool {
    (o: Offer) => Offered(o) && o.bytes == Some(value) && o.authoritative
  }

  /** How many offers of the value there are. */
  function Votes(offers: seq<Offer>, value: nat): nat { |Places(offers, Voting(value))| }

  function AuthoritativeVotes(offers: seq<Offer>, value: nat): nat { |Places(offers, VotingWithAuthority(value))| }

  /** The best source that offers the value has this priority. */
  ghost predicate BestSource(offers: seq<Offer>, value: nat, priority: nat) {
    && (exists o :: o in offers && Voting(value)(o) && o.priority == priority)
    && (forall o | o in offers && Voting(value)(o) :: priority <= o.priority)
  }

  /** More offers; of as many, more authoritative ones; then the better best source; then the lesser value. */
  ghost predicate MoreCommon(offers: seq<Offer>, v: nat, w: nat) {
    || Votes(offers, v) > Votes(offers, w)
    || (Votes(offers, v) == Votes(offers, w)
        && (|| AuthoritativeVotes(offers, v) > AuthoritativeVotes(offers, w)
            || (AuthoritativeVotes(offers, v) == AuthoritativeVotes(offers, w) && BetterSource(offers, v, w))))
  }

  ghost predicate BetterSource(offers: seq<Offer>, v: nat, w: nat) {
    exists p, q :: BestSource(offers, v, p) && BestSource(offers, w, q) && (p < q || (p == q && v <= w))
  }

  lemma VotesAre(offers: seq<Offer>, v: nat)
    ensures |Backing(Filter(offers, Usable), Some(v))| == Votes(offers, v)
    ensures |Filter(Backing(Filter(offers, Usable), Some(v)), IsAuthoritative)| == AuthoritativeVotes(offers, v)
  {
    FilterBoth(offers, Usable, SameBytes(Some(v)), Voting(v));
    FilterBoth(offers, Voting(v), IsAuthoritative, VotingWithAuthority(v));
    FilterSize(offers, Voting(v));
    FilterSize(offers, VotingWithAuthority(v));
  }

  function Score(votes: int, authoritative: int, priority: int, value: int): seq<int> {
    [-votes, -authoritative, priority, value]
  }

  lemma ScoreMeans(a: int, b: int, p: int, v: int, c: int, d: int, q: int, w: int)
    ensures LexLe(Score(a, b, p, v), Score(c, d, q, w)) <==>
      a > c || (a == c && (b > d || (b == d && (p < q || (p == q && v <= w)))))
  {
    LexTriple(-b, p, v, -d, q, w);
    LexPair(-a, -c, [-b, p, v], [-d, q, w]);
    assert Score(a, b, p, v) == [-a] + [-b, p, v] && Score(c, d, q, w) == [-c] + [-d, q, w];
  }

  lemma BestSourceIs(offers: seq<Offer>, v: nat, group: seq<Offer>)
    requires group != [] && AreVoters(offers, v, group)
    ensures BestSource(offers, v, First(group, SourceRank).value.priority)
  {
    FirstIsLeast(group, SourceRank, group[0]);
    var w := First(group, SourceRank).value;
    forall x | x in offers && Voting(v)(x) ensures w.priority <= x.priority {
      FirstIsLeast(group, SourceRank, x);
      RankMeans(MostCommon, w, x);
    }
  }

  ghost predicate AreVoters(offers: seq<Offer>, v: nat, group: seq<Offer>) {
    forall o :: o in group <==> o in offers && Voting(v)(o)
  }

  lemma VotersAre(offers: seq<Offer>, v: nat)
    ensures AreVoters(offers, v, Backing(Filter(offers, Usable), Some(v)))
  {
  }

  lemma GroupRankIs(group: seq<Offer>, v: nat)
    requires group != []
    ensures GroupRank(group, Some(v)) ==
      Score(|group|, |Filter(group, IsAuthoritative)|, First(group, SourceRank).value.priority, v)
  {
  }

  lemma ValueRankIs(offers: seq<Offer>, v: nat, o: Offer) returns (p: nat)
    requires o in offers && Voting(v)(o)
    ensures BestSource(offers, v, p)
    ensures ValueRank(Filter(offers, Usable), Some(v)) == Score(Votes(offers, v), AuthoritativeVotes(offers, v), p, v)
  {
    var group := Backing(Filter(offers, Usable), Some(v));
    VotersAre(offers, v);
    assert o in group;
    p := First(group, SourceRank).value.priority;
    BestSourceIs(offers, v, group);
    GroupRankIs(group, v);
    VotesAre(offers, v);
  }

  lemma RankedMoreCommon(offers: seq<Offer>, v: nat, w: nat, x: Offer, y: Offer)
    requires x in offers && Voting(v)(x) && y in offers && Voting(w)(y)
    requires LexLe(ValueRank(Filter(offers, Usable), Some(v)), ValueRank(Filter(offers, Usable), Some(w)))
    ensures MoreCommon(offers, v, w)
  {
    var p := ValueRankIs(offers, v, x);
    var q := ValueRankIs(offers, w, y);
    ScoreMeans(Votes(offers, v), AuthoritativeVotes(offers, v), p, v,
      Votes(offers, w), AuthoritativeVotes(offers, w), q, w);
  }

  /** Another value has as many offers. */
  ghost predicate Rivalled(offers: seq<Offer>, v: nat) {
    exists o :: o in offers && Offered(o) && o.bytes.value != v && Votes(offers, o.bytes.value) == Votes(offers, v)
  }

  lemma RivalledIs(offers: seq<Offer>, v: nat)
    ensures Tied(Filter(offers, Usable), Some(v)) <==> Rivalled(offers, v)
  {
    VotesAre(offers, v);
    forall o | o in offers && Offered(o)
      ensures |Backing(Filter(offers, Usable), o.bytes)| == Votes(offers, o.bytes.value)
    {
      VotesAre(offers, o.bytes.value);
    }
  }

  /** `w` is the foremost offer of a value that no other is more common than. */
  ghost predicate Commonest(offers: seq<Offer>, w: Offer) {
    && w in offers && Offered(w)
    && (forall o | o in offers && Offered(o) :: MoreCommon(offers, w.bytes.value, o.bytes.value))
    && (forall o | o in offers && Offered(o) && o.bytes == w.bytes :: BySource(w, o))
  }

  predicate TieNoted(offers: seq<Offer>, tie: bool, issues: seq<Issue>) {
    exists noted :: noted in {[], [InvalidAuthoritativeValue]} && AuthorityNoted(offers, noted)
      && issues == if tie then noted + [Tie] else noted
  }

  lemma CommonestIs(offers: seq<Offer>, o: Offer) returns (w: Offer)
    requires o in offers && Offered(o)
    ensures Commonest(offers, w)
    ensures var kept := Filter(offers, Usable);
      && w in kept && First(kept, PopularRank(kept)).Some? && First(kept, PopularRank(kept)).value.bytes == w.bytes
      && First(Backing(kept, w.bytes), SourceRank) == Some(w)
  {
    var kept := Filter(offers, Usable);
    assert o in kept;
    FirstIsLeast(kept, PopularRank(kept), o);
    var popular := First(kept, PopularRank(kept)).value;
    var group := Backing(kept, popular.bytes);
    FirstIsLeast(group, SourceRank, popular);
    w := First(group, SourceRank).value;
    forall x | x in offers && Offered(x) ensures MoreCommon(offers, popular.bytes.value, x.bytes.value) {
      FirstIsLeast(kept, PopularRank(kept), x);
      RankedMoreCommon(offers, popular.bytes.value, x.bytes.value, popular, x);
    }
    forall x | x in offers && Offered(x) && x.bytes == popular.bytes ensures BySource(w, x) {
      FirstIsLeast(group, SourceRank, x);
      RankMeans(MostCommon, w, x);
    }
  }

  lemma WithoutOverrides(policy: Policy, offers: seq<Offer>)
    ensures SelectGolden(policy, offers, []) == BuiltIn(policy, offers)
  {
  }

  lemma NothingCommon(offers: seq<Offer>)
    requires !exists o :: o in offers && Offered(o)
    ensures var s := SelectMostCommon(Filter(offers, Usable), AuthorityIssues(offers));
      ShowsNothing(MostCommon, s) && AuthorityNoted(offers, s.issues)
  {
    AuthorityNotedIs(offers);
    FilterNone(offers, Usable);
  }

  lemma CommonestShown(offers: seq<Offer>, w: Offer)
    requires var kept := Filter(offers, Usable);
      && w in kept && First(kept, PopularRank(kept)).Some? && First(kept, PopularRank(kept)).value.bytes == w.bytes
      && First(Backing(kept, w.bytes), SourceRank) == Some(w)
    ensures var s := SelectMostCommon(Filter(offers, Usable), AuthorityIssues(offers));
      Shows(MostCommon, offers, s, w) && TieNoted(offers, Rivalled(offers, w.bytes.value), s.issues)
  {
    var kept := Filter(offers, Usable);
    var noted := AuthorityIssues(offers);
    AuthorityNotedIs(offers);
    RivalledIs(offers, w.bytes.value);
    SelectedShows(MostCommon, offers, w, if Tied(kept, w.bytes) then noted + [Tie] else noted);
  }

  ghost predicate ShowsCommonest(offers: seq<Offer>, s: Selection) {
    exists w :: Commonest(offers, w) && Shows(MostCommon, offers, s, w)
      && TieNoted(offers, Rivalled(offers, w.bytes.value), s.issues)
  }

  lemma CommonestSelected(offers: seq<Offer>, o: Offer)
    requires o in offers && Offered(o)
    ensures ShowsCommonest(offers, SelectMostCommon(Filter(offers, Usable), AuthorityIssues(offers)))
  {
    var w := CommonestIs(offers, o);
    CommonestShown(offers, w);
  }

  /** The most common value is shown by its foremost offer, and a tie is noted exactly where another
      value has as many. */
  lemma MostCommonExplained(offers: seq<Offer>)
    ensures SelectGolden(MostCommon, offers, []).Some?
    ensures var s := SelectGolden(MostCommon, offers, []).value;
      if exists o :: o in offers && Offered(o) then ShowsCommonest(offers, s)
      else ShowsNothing(MostCommon, s) && AuthorityNoted(offers, s.issues)
  {
    WithoutOverrides(MostCommon, offers);
    if o :| o in offers && Offered(o) {
      CommonestSelected(offers, o);
    } else {
      NothingCommon(offers);
    }
  }

  // ---- overrides ----

  /** The record an override speaks for offers a value, usable or not. */
  predicate Attached(offers: seq<Offer>, d: Override) {
    exists i :: 0 <= i < |offers| && offers[i].record == d.anchor
  }

  /** Made earlier; of those made at once, the lesser directive. */
  predicate Earlier(d: Override, e: Override) {
    d.createdAt < e.createdAt || (d.createdAt == e.createdAt && d.directive <= e.directive)
  }

  /** The anchors of the attached overrides, each as often as it occurs, in ascending order. */
  ghost predicate AnchorsOf(offers: seq<Offer>, overrides: seq<Override>, anchors: seq<Id>) {
    && (forall i, j | 0 <= i < j < |anchors| :: anchors[i] <= anchors[j])
    && exists active :: AllAttached(offers, overrides, active)
         && multiset(anchors) == multiset(Map(active, (d: Override) => d.anchor))
  }

  ghost predicate AllAttached(offers: seq<Offer>, overrides: seq<Override>, active: seq<Override>) {
    forall d :: multiset(active)[d] == if Attached(offers, d) then multiset(overrides)[d] else 0
  }

  predicate Parted(offers: seq<Offer>, overrides: seq<Override>) {
    exists d, e | d in overrides && e in overrides :: Attached(offers, d) && Attached(offers, e) && d.raw != e.raw
  }

  /** Some override speaks for a record that offers nothing. */
  predicate Loose(offers: seq<Offer>, overrides: seq<Override>) {
    exists d :: d in overrides && !Attached(offers, d)
  }

  /** Without attached overrides the policy's choice stands; attached ones that agree replace it by
      the earliest of them; ones that differ leave no value. Loose ones are noted first. */
  ghost predicate Overrule(offers: seq<Offer>, overrides: seq<Override>, before: Selection, s: Selection) {
    var noted := if Loose(offers, overrides) then before.issues + [OverrideAnchorInactive] else before.issues;
    if !exists d :: d in overrides && Attached(offers, d) then s == before.(issues := noted)
    else if Parted(offers, overrides) then
      && s == Selection(before.policy, None, None, None, OverrideConflict, None, ByOverrideValue, s.contributors,
                        noted + [ConflictingOverrides])
      && AnchorsOf(offers, overrides, s.contributors)
    else
      && AnchorsOf(offers, overrides, s.contributors)
      && exists d :: d in overrides && Attached(offers, d)
           && (forall e | e in overrides && Attached(offers, e) :: Earlier(d, e))
           && s == Selection(before.policy, Some(d.raw), d.normalized, d.bytes, Overridden, Some(d.anchor), ByDirective,
                             s.contributors, noted)
  }

  lemma AttachedMeans(offers: seq<Offer>, d: Override)
    ensures Anchored(offers)(d) <==> Attached(offers, d)
    ensures Unanchored(offers)(d) <==> !Attached(offers, d)
  {
    if o :| o in offers && o.record == d.anchor {
      var i :| 0 <= i < |offers| && offers[i] == o;
    }
  }

  lemma DirectiveRankMeans(d: Override, e: Override)
    ensures LexLe(DirectiveRank(d), DirectiveRank(e)) <==> Earlier(d, e)
  {
    LexPair(d.directive, e.directive, [], []);
    LexPair(d.createdAt, e.createdAt, [d.directive], [e.directive]);
    assert [d.directive] == [d.directive] + [] && [e.directive] == [e.directive] + [];
    assert DirectiveRank(d) == [d.createdAt] + [d.directive] && DirectiveRank(e) == [e.createdAt] + [e.directive];
  }

  lemma AnchorsAre(offers: seq<Offer>, overrides: seq<Override>)
    ensures AnchorsOf(offers, overrides, Anchors(Filter(overrides, Anchored(offers))))
  {
    var active := Filter(overrides, Anchored(offers));
    forall d ensures multiset(active)[d] == if Attached(offers, d) then multiset(overrides)[d] else 0 {
      FilterMultiset(overrides, Anchored(offers), d);
      AttachedMeans(offers, d);
    }
    assert AllAttached(offers, overrides, active);
    var anchors := Anchors(active);
    SortSorted(Map(active, AnchorOf), IdRank);
    SortMultiset(Map(active, AnchorOf), IdRank);
    assert Map(active, AnchorOf) == Map(active, (d: Override) => d.anchor);
    forall i, j | 0 <= i < j < |anchors| ensures anchors[i] <= anchors[j] {
      assert LexLe(IdRank(anchors[i]), IdRank(anchors[j]));
    }
  }

  /** Overrides act on the policy's own choice as `Overrule` says. */
  lemma OverridesExplained(policy: Policy, offers: seq<Offer>, overrides: seq<Override>)
    requires !policy.OtherPolicy?
    ensures SelectGolden(policy, offers, []).Some? && SelectGolden(policy, offers, overrides).Some?
    ensures Overrule(offers, overrides, SelectGolden(policy, offers, []).value,
                     SelectGolden(policy, offers, overrides).value)
  {
    var active, loose := Filter(overrides, Anchored(offers)), Filter(overrides, Unanchored(offers));
    forall d ensures d in active <==> d in overrides && Attached(offers, d) { AttachedMeans(offers, d); }
    forall d ensures d in loose <==> d in overrides && !Attached(offers, d) { AttachedMeans(offers, d); }
    assert loose != [] ==> loose[0] in loose;
    assert active != [] ==> active[0] in active;
    AnchorsAre(offers, overrides);
    assert OneValue(active) <==> !Parted(offers, overrides);
    if active != [] {
      var d := First(active, DirectiveRank).value;
      FirstIsLeast(active, DirectiveRank, active[0]);
      forall e | e in overrides && Attached(offers, e) ensures Earlier(d, e) {
        FirstIsLeast(active, DirectiveRank, e);
        DirectiveRankMeans(d, e);
      }
    }
  }
}
