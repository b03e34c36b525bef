/** What the channels compare, letter by letter, and with it what candidate generation accepts and lists. */
module CandidateLaws {
  import opened Prelude
  import opened Sorting
  import opened Types
  import opened Candidates
  import opened Blocking
  import opened Generation

  // ---- words ----

  /** `t` stands at `i` in `s` as a whole word: free of white space, and with white space or an end
      of the text on either side. */
  predicate WordAt(s: string, i: nat, t: string, space: Spaces) {
    && i + |t| <= |s|
    && (forall k | 0 <= k < |t| :: s[i + k] == t[k] && !space(t[k]))
    && (i == 0 || space(s[i - 1]))
    && (i + |t| == |s| || space(s[i + |t|]))
  }

  ghost predicate Occurs(s: string, t: string, space: Spaces) {
    t != "" && exists i :: WordAt(s, i, t, space)
  }

  lemma {:induction false} TakeWordIs(s: string, space: Spaces)
    ensures var n := TakeWord(s, space);
      && (forall k | 0 <= k < n :: !space(s[k]))
      && (n < |s| ==> space(s[n]))
  {
    if s != [] && !space(s[0]) {
      TakeWordIs(s[1..], space);
      var n := TakeWord(s[1..], space);
      forall k | 0 <= k < n + 1 ensures !space(s[k]) {
        if k > 0 { assert s[k] == s[1..][k - 1]; }
      }
    }
  }

  /** The words of a text behind `n` characters that no word of the rest touches. */
  lemma OccursBehind(s: string, n: nat, t: string, space: Spaces)
    requires n <= |s| && (n < |s| ==> space(s[n]))
    ensures Occurs(s[n..], t, space) <==> t != "" && exists i :: i > n && WordAt(s, i, t, space)
  {
    if t != "" {
      if i: nat :| WordAt(s[n..], i, t, space) {
        assert s[n..][i] == s[n + i] == t[0];
        assert s[n..][i - 1] == s[n + i - 1];
        assert i + |t| < |s[n..]| ==> s[n..][i + |t|] == s[n + i + |t|];
        forall k | 0 <= k < |t| ensures s[n + i + k] == t[k] {
          assert s[n..][i + k] == t[k];
        }
        assert WordAt(s, n + i, t, space);
      }
      if i: nat :| i > n && WordAt(s, i, t, space) {
        assert s[n..][i - n - 1] == s[i - 1];
        assert i + |t| < |s| ==> s[n..][i - n + |t|] == s[i + |t|];
        assert WordAt(s[n..], i - n, t, space);
      }
    }
  }

  lemma WordAtStart(s: string, t: string, space: Spaces)
    requires s != "" && t != "" && !space(s[0])
    ensures WordAt(s, 0, t, space) <==> t == s[..TakeWord(s, space)]
  {
    var n := TakeWord(s, space);
    TakeWordIs(s, space);
    if WordAt(s, 0, t, space) {
      forall k | 0 <= k < |t| ensures s[k] == t[k] && !space(s[k]) {
        assert s[0 + k] == t[k];
      }
    }
  }

  /** The words found by splitting are the whole words of the text. */
  lemma {:induction false} WordsOccur(s: string, t: string, space: Spaces)
    ensures t in Words(s, space) <==> Occurs(s, t, space)
    decreases |s|
  {
    if s != [] {
      if space(s[0]) {
        WordsOccur(s[1..], t, space);
        SpaceAhead(s, t, space);
      } else {
        var n := TakeWord(s, space);
        TakeWordIs(s, space);
        WordsOccur(s[n..], t, space);
        OccursBehind(s, n, t, space);
        WordAhead(s, t, space);
      }
    }
  }

  lemma SpaceAhead(s: string, t: string, space: Spaces)
    requires s != "" && space(s[0])
    ensures Occurs(s[1..], t, space) <==> Occurs(s, t, space)
  {
    if t != "" {
      if i: nat :| WordAt(s[1..], i, t, space) {
        forall k | 0 <= k < |t| ensures s[i + 1 + k] == t[k] {
          assert s[1..][i + k] == t[k];
        }
        assert i > 0 ==> s[1..][i - 1] == s[i];
        assert i + |t| < |s[1..]| ==> s[1..][i + |t|] == s[i + 1 + |t|];
        assert WordAt(s, i + 1, t, space);
      }
      if i: nat :| WordAt(s, i, t, space) {
        assert s[i + 0] == t[0];
        assert i > 1 ==> s[1..][i - 2] == s[i - 1];
        assert i + |t| < |s| ==> s[1..][i - 1 + |t|] == s[i + |t|];
        assert WordAt(s[1..], i - 1, t, space);
      }
    }
  }

  lemma WordAhead(s: string, t: string, space: Spaces)
    requires s != "" && !space(s[0])
    ensures var n := TakeWord(s, space);
      Occurs(s, t, space) <==> t == s[..n] || (t != "" && exists i :: i > n && WordAt(s, i, t, space))
  {
    var n := TakeWord(s, space);
    TakeWordIs(s, space);
    if t != "" {
      WordAtStart(s, t, space);
      forall i: nat | 0 < i <= n ensures !WordAt(s, i, t, space) {
      }
    }
  }

  // ---- channels ----

  ghost predicate Has(values: seq<Normalized>, r: Id, field: string, v: Normalized) {
    v in values && v.record == r && v.field == field
  }

  /** Two values agree: byte for byte, over the leading characters, or by a long enough word of both. */
  ghost predicate Agree(c: Channel, v: Normalized, w: Normalized, space: Spaces)
    requires ChannelValid(c)
  {
    match c.kind
    case Exact => v.bytes == w.bytes
    case CompositeExact => v.bytes == w.bytes
    case Prefix =>
      var n := c.prefixLength.value;
      || v.text == w.text
      || (n <= |v.text| && n <= |w.text| && forall i | 0 <= i < n :: v.text[i] == w.text[i])
    case Token =>
      exists t :: |t| >= c.tokenMinLength.value && Occurs(v.text, t, space) && Occurs(w.text, t, space)
  }

  /** Both records have every field of the channel, with values that agree. */
  ghost predicate Meet(c: Channel, values: seq<Normalized>, space: Spaces, a: Id, b: Id)
    requires ChannelValid(c)
  {
    forall f | f in c.fields :: exists v, w :: Has(values, a, f, v) && Has(values, b, f, w) && Agree(c, v, w, space)
  }

  lemma PrefixAgrees(s: string, t: string, n: nat)
    ensures Take(s, n) == Take(t, n) <==>
      s == t || (n <= |s| && n <= |t| && forall i | 0 <= i < n :: s[i] == t[i])
  {
    if Take(s, n) == Take(t, n) && n <= |s| && n <= |t| {
      forall i | 0 <= i < n ensures s[i] == t[i] {
        assert s[i] == Take(s, n)[i] && t[i] == Take(t, n)[i];
      }
    }
  }

  lemma TokensOccur(s: string, t: string, n: nat, space: Spaces)
    ensures t in Tokens(s, n, space) <==> |t| >= n && Occurs(s, t, space)
  {
    WordsOccur(s, t, space);
  }

  /** The test of a channel over one field. */
  function FieldTest(c: Channel, space: Spaces): (Normalized, Normalized) -> bool
    requires ChannelValid(c)
  {
    match c.kind
    case Exact => SameBytes
    case CompositeExact => SameBytes
    case Prefix => SamePrefix(c.prefixLength.value)
    case Token => ShareToken(c.tokenMinLength.value, space)
  }

  lemma TestMeans(c: Channel, space: Spaces, v: Normalized, w: Normalized)
    requires ChannelValid(c)
    ensures FieldTest(c, space)(v, w) <==> Agree(c, v, w, space)
  {
    match c.kind
    case Exact =>
    case CompositeExact =>
    case Prefix =>
      PrefixAgrees(v.text, w.text, c.prefixLength.value);
    case Token =>
      forall t
        ensures t in Tokens(v.text, c.tokenMinLength.value, space)
          <==> |t| >= c.tokenMinLength.value && Occurs(v.text, t, space)
        ensures t in Tokens(w.text, c.tokenMinLength.value, space)
          <==> |t| >= c.tokenMinLength.value && Occurs(w.text, t, space)
      {
        TokensOccur(v.text, t, c.tokenMinLength.value, space);
        TokensOccur(w.text, t, c.tokenMinLength.value, space);
      }
  }

  ghost predicate FieldsMeet(c: Channel, values: seq<Normalized>, space: Spaces, f: string, a: Id, b: Id)
    requires ChannelValid(c)
  {
    exists v, w :: Has(values, a, f, v) && Has(values, b, f, w) && Agree(c, v, w, space)
  }

  lemma OnFieldMeans(c: Channel, values: seq<Normalized>, space: Spaces, f: string, a: Id, b: Id)
    requires ChannelValid(c) && ValuesValid(values)
    ensures OnField(values, f, a, b, FieldTest(c, space)) <==> FieldsMeet(c, values, space, f, a, b)
  {
    var left, right := FieldValue(values, a, f), FieldValue(values, b, f);
    if left.Some? && right.Some? {
      TestMeans(c, space, left.value, right.value);
    }
    if v, w :| Has(values, a, f, v) && Has(values, b, f, w) && Agree(c, v, w, space) {
      ValueIs(values, v);
      ValueIs(values, w);
    }
  }

  /** A channel matches two records exactly when they have its fields and the values agree. */
  lemma MatchesMeans(c: Channel, values: seq<Normalized>, space: Spaces, a: Id, b: Id)
    requires ChannelValid(c) && ValuesValid(values)
    ensures Matches(c, values, space, a, b) <==> Meet(c, values, space, a, b)
  {
    forall f: string ensures OnField(values, f, a, b, FieldTest(c, space)) <==> FieldsMeet(c, values, space, f, a, b) {
      OnFieldMeans(c, values, space, f, a, b);
    }
    assert c.fields[0] in c.fields;
    assert Meet(c, values, space, a, b) <==> forall f | f in c.fields :: FieldsMeet(c, values, space, f, a, b);
    if !c.kind.CompositeExact? {
      assert c.fields == [c.fields[0]];
      assert Matches(c, values, space, a, b) <==> OnField(values, c.fields[0], a, b, FieldTest(c, space));
    }
  }

  // ---- what is accepted ----

  /** One named field, or for a composite any number of different ones; a length where one is used. */
  ghost predicate ChannelRule(c: Channel) {
    && |c.id| > 0 && |c.fields| > 0
    && (forall i | 0 <= i < |c.fields| :: |c.fields[i]| > 0)
    && match c.kind
       case Exact => |c.fields| == 1
       case CompositeExact => forall i, j | 0 <= i < j < |c.fields| :: c.fields[i] != c.fields[j]
       case Prefix => |c.fields| == 1 && exists n: nat :: n >= 1 && c.prefixLength == Some(n)
       case Token => |c.fields| == 1 && exists n: nat :: n >= 1 && c.tokenMinLength == Some(n)
  }

  /** Generation answers exactly when every channel keeps its rule under an id of its own, both limits
      are positive, no record has two values of a field, and records and sort keys determine each other. */
  lemma AcceptedExactly(plan: Plan, values: seq<Normalized>, limits: Limits)
    ensures PlanValid(plan) && LimitsValid(limits) && ValuesValid(values) <==>
      && (forall i | 0 <= i < |plan| :: ChannelRule(plan[i]))
      && (forall i, j | 0 <= i < |plan| && 0 <= j < |plan| && plan[i].id == plan[j].id :: i == j)
      && limits.maxBlockRecords >= 1 && limits.maxPairs >= 1
      && (forall i, j | 0 <= i < |values| && 0 <= j < |values| && values[i].record == values[j].record
            && values[i].field == values[j].field :: i == j)
      && (forall v, w | v in values && w in values :: v.record == w.record <==> v.sortKey == w.sortKey)
  {
    forall i | 0 <= i < |plan| ensures ChannelValid(plan[i]) <==> ChannelRule(plan[i]) {
      ChannelRuleHolds(plan[i]);
    }
  }

  lemma ChannelRuleHolds(c: Channel)
    ensures ChannelValid(c) <==> ChannelRule(c)
  {
    assert "" in c.fields <==> exists i :: 0 <= i < |c.fields| && |c.fields[i]| == 0;
  }

  // ---- the pairs ----

  /** Some value belongs to this record and carries its sort key. */
  ghost predicate Present(values: seq<Normalized>, r: Ref) {
    exists v :: v in values && v.record == r.id && v.sortKey == r.key
  }

  ghost function Meeting(plan: Plan, values: seq<Normalized>, space: Spaces, a: Id, b: Id): set<string>
    requires PlanValid(plan)
  {
    set c | c in plan && Meet(c, values, space, a, b) :: c.id
  }

  ghost predicate RightlyListed(plan: Plan, values: seq<Normalized>, space: Spaces, x: CandidatePair)
    requires PlanValid(plan)
  {
    var (l, r) := (x.pair.left, x.pair.right);
    && Present(values, l) && Present(values, r)
    && (l.key < r.key || (l.key == r.key && l.id < r.id))
    && x.channels == Meeting(plan, values, space, l.id, r.id) && x.channels != {}
  }

  /** Rows rise by the keys and ids of the two records. */
  ghost predicate RowsRise(rows: seq<CandidatePair>) {
    forall i, j | 0 <= i < j < |rows| ::
      var (p, q) := (rows[i].pair, rows[j].pair);
      || p.left.key < q.left.key
      || (p.left.key == q.left.key && p.left.id < q.left.id)
      || (p.left == q.left && p.right.key < q.right.key)
      || (p.left == q.left && p.right.key == q.right.key && p.right.id < q.right.id)
  }

  lemma PresentMeans(values: seq<Normalized>, r: Ref)
    ensures Present(values, r) <==> r in Refs(values)
  {
  }

  lemma MeetingIs(plan: Plan, values: seq<Normalized>, space: Spaces, p: PairKey)
    requires PlanValid(plan) && ValuesValid(values)
    ensures Meeting(plan, values, space, p.left.id, p.right.id) == Found(plan, values, space, p)
  {
    forall c | c in plan ensures ChannelValid(c)
      && (Matches(c, values, space, p.left.id, p.right.id) <==> Meet(c, values, space, p.left.id, p.right.id))
    {
      MatchesMeans(c, values, space, p.left.id, p.right.id);
    }
  }

  /** The listing holds, in record order, exactly the pairs of records that meet on some channel, each
      with the channels they meet on. */
  lemma ListingExplained(plan: Plan, values: seq<Normalized>, space: Spaces)
    requires PlanValid(plan) && ValuesValid(values)
    ensures forall x :: x in AllPairs(plan, values, space) <==> RightlyListed(plan, values, space, x)
    ensures RowsRise(AllPairs(plan, values, space))
  {
    forall x: CandidatePair ensures x in AllPairs(plan, values, space) <==> RightlyListed(plan, values, space, x) {
      AllPairsAre(plan, values, space, x);
      MeetingIs(plan, values, space, x.pair);
      PresentMeans(values, x.pair.left);
      PresentMeans(values, x.pair.right);
    }
    AllPairsAscending(plan, values, space);
  }

  // ---- the limits ----

  /** Records that one block holds together: all with one word, or every two in agreement. */
  ghost predicate Crowd(c: Channel, values: seq<Normalized>, space: Spaces, crowd: set<Ref>)
    requires ChannelValid(c)
  {
    && (forall r | r in crowd :: Present(values, r))
    && if c.kind.Token? then exists t :: |t| >= c.tokenMinLength.value && AllHaveWord(c, values, space, crowd, t)
       else forall r, q | r in crowd && q in crowd :: Meet(c, values, space, r.id, q.id)
  }

  ghost predicate AllHaveWord(c: Channel, values: seq<Normalized>, space: Spaces, crowd: set<Ref>, t: string)
    requires ChannelValid(c)
  {
    forall r | r in crowd :: exists v :: Has(values, r.id, c.fields[0], v) && Occurs(v.text, t, space)
  }

  predicate SizeAllowed(n: nat, limits: Limits) {
    n <= limits.maxBlockRecords && n * (n - 1) < 0x1_0000_0000_0000_0000
  }

  lemma TokenKeysMean(c: Channel, values: seq<Normalized>, space: Spaces, r: Id, t: string)
    requires ChannelValid(c) && ValuesValid(values) && c.kind.Token?
    ensures TextKey(t) in BlockKeys(c, values, space, r)
       <==> |t| >= c.tokenMinLength.value
            && exists v :: Has(values, r, c.fields[0], v) && Occurs(v.text, t, space)
  {
    var n := c.tokenMinLength.value;
    var found := FieldValue(values, r, c.fields[0]);
    if found.Some? {
      TokensOccur(found.value.text, t, n, space);
      if TextKey(t) in BlockKeys(c, values, space, r) {
        var u :| u in Tokens(found.value.text, n, space) && TextKey(u) == TextKey(t);
        TextKeyInjective(u, t);
      }
    }
    if v :| Has(values, r, c.fields[0], v) && Occurs(v.text, t, space) {
      ValueIs(values, v);
    }
  }

  lemma OneKey(c: Channel, values: seq<Normalized>, space: Spaces, r: Id) returns (k: BlockKey)
    requires ChannelValid(c) && !c.kind.Token? && Matches(c, values, space, r, r)
    ensures BlockKeys(c, values, space, r) == {k}
  {
    if c.kind.CompositeExact? {
      forall f | f in c.fields ensures FieldValue(values, r, f).Some? {
        assert OnField(values, f, r, r, SameBytes);
      }
      k := Join(FieldBytes(values, r, c.fields));
    } else {
      var v := FieldValue(values, r, c.fields[0]).value;
      k := if c.kind.Exact? then v.bytes else TextKey(Take(v.text, c.prefixLength.value));
    }
  }

  lemma CrowdInBlock(c: Channel, values: seq<Normalized>, space: Spaces, crowd: set<Ref>) returns (k: BlockKey)
    requires ChannelValid(c) && ValuesValid(values) && ShortValues(values) && Crowd(c, values, space, crowd)
    ensures crowd <= Block(c, values, space, k)
  {
    k := [];
    if c.kind.Token? {
      var t :| |t| >= c.tokenMinLength.value && AllHaveWord(c, values, space, crowd, t);
      k := TextKey(t);
      forall r | r in crowd ensures r in Block(c, values, space, k) {
        PresentMeans(values, r);
        TokenKeysMean(c, values, space, r.id, t);
      }
    } else if first :| first in crowd {
      MatchesMeans(c, values, space, first.id, first.id);
      k := OneKey(c, values, space, first.id);
      forall r | r in crowd ensures r in Block(c, values, space, k) {
        PresentMeans(values, r);
        MatchesMeans(c, values, space, first.id, r.id);
        SharedBlockIsMatch(c, values, space, first.id, r.id);
      }
    }
  }

  lemma BlockIsCrowd(c: Channel, values: seq<Normalized>, space: Spaces, k: BlockKey)
    requires ChannelValid(c) && ValuesValid(values) && ShortValues(values) && Block(c, values, space, k) != {}
    ensures Crowd(c, values, space, Block(c, values, space, k))
  {
    var crowd := Block(c, values, space, k);
    if c.kind.Token? {
      var first :| first in crowd;
      var v := FieldValue(values, first.id, c.fields[0]).value;
      var t :| t in Tokens(v.text, c.tokenMinLength.value, space) && TextKey(t) == k;
      forall r | r in crowd ensures exists v :: Has(values, r.id, c.fields[0], v) && Occurs(v.text, t, space) {
        TokenKeysMean(c, values, space, r.id, t);
      }
      TokenKeysMean(c, values, space, first.id, t);
      assert AllHaveWord(c, values, space, crowd, t);
    } else {
      forall r, q | r in crowd && q in crowd ensures Meet(c, values, space, r.id, q.id) {
        assert k in BlockKeys(c, values, space, r.id) * BlockKeys(c, values, space, q.id);
        SharedBlockIsMatch(c, values, space, r.id, q.id);
        MatchesMeans(c, values, space, r.id, q.id);
      }
    }
  }

  lemma FewerAllowed(m: nat, n: nat, limits: Limits)
    requires m <= n && SizeAllowed(n, limits)
    ensures SizeAllowed(m, limits)
  {
    FewerPairs(m, n);
  }

  lemma FewerPairs(m: nat, n: nat)
    requires m <= n
    ensures m * (m - 1) <= n * (n - 1)
  {
    if m < n {
      FewerPairs(m, n - 1);
      assert n * (n - 1) == (n - 1) * (n - 1 - 1) + 2 * (n - 1);
    }
  }

  /** The limits hold exactly when no crowd of a channel is too large and no more pairs meet than allowed. */
  lemma LimitsExplained(plan: Plan, values: seq<Normalized>, space: Spaces, limits: Limits)
    requires PlanValid(plan) && ValuesValid(values) && ShortValues(values)
    ensures Fits(plan, values, space, limits) <==>
      && (forall i, crowd | 0 <= i < |plan| && Crowd(plan[i], values, space, crowd) :: SizeAllowed(|crowd|, limits))
      && |AllPairs(plan, values, space)| <= limits.maxPairs
  {
    if forall i | 0 <= i < |plan| :: ChannelFits(plan[i], values, space, limits) {
      forall i, crowd | 0 <= i < |plan| && Crowd(plan[i], values, space, crowd) ensures SizeAllowed(|crowd|, limits) {
        var k := CrowdInBlock(plan[i], values, space, crowd);
        assert BlockFits(|Block(plan[i], values, space, k)|, limits);
        SubsetSize(crowd, Block(plan[i], values, space, k));
        FewerAllowed(|crowd|, |Block(plan[i], values, space, k)|, limits);
      }
    }
    if forall i, crowd | 0 <= i < |plan| && Crowd(plan[i], values, space, crowd) :: SizeAllowed(|crowd|, limits) {
      forall i | 0 <= i < |plan| ensures ChannelFits(plan[i], values, space, limits) {
        forall k ensures BlockFits(|Block(plan[i], values, space, k)|, limits) {
          if Block(plan[i], values, space, k) != {} {
            BlockIsCrowd(plan[i], values, space, k);
          }
        }
      }
    }
  }
}
