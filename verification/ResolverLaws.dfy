/** The resolver's automatic phase in the words of its input: which evidence joins which components. */
module ResolverLaws {
  import opened Prelude
  import opened Sorting
  import opened Types
  import opened Connectivity
  import opened Folding
  import opened ResolverSpec
  import opened ResolverSafety
  import opened ResolverTheorems

  // ---- evidence ----

  predicate Between(left: Id, right: Id, a: Id, b: Id) {
    (left == a && right == b) || (left == b && right == a)
  }

  /** A NOT_MATCH decision or a prohibited pair is about these two records. */
  ghost predicate Forbidden(input: Input, a: Id, b: Id) {
    || (exists e | e in input.cannot :: Between(e.left, e.right, a, b))
    || (exists d | d in input.pairs :: d.result.Prohibited? && Between(d.left, d.right, a, b))
  }

  ghost predicate Crossed(input: Input, left: set<Id>, right: set<Id>) {
    exists a, b | a in left && b in right :: Forbidden(input, a, b)
  }

  predicate Asserts(x: Record, f: Field) {
    f in x.authority && x.authority[f] != ""
  }

  /** Members on the two sides claim different values of a field. */
  ghost predicate Clash(input: Input, left: set<Id>, right: set<Id>) {
    exists x, y, f | x in input.records && y in input.records && f in x.authority ::
      x.id in left && y.id in right && Asserts(x, f) && Asserts(y, f) && x.authority[f] != y.authority[f]
  }

  /** Members on the two sides claim the same value of a field. */
  ghost predicate Agreed(input: Input, left: set<Id>, right: set<Id>) {
    exists x, y, f | x in input.records && y in input.records && f in x.authority ::
      x.id in left && y.id in right && Asserts(x, f) && Asserts(y, f) && x.authority[f] == y.authority[f]
  }

  /** A group of a strong or review decision between `s` and a member of `others`. */
  ghost predicate Supports(input: Input, s: Id, others: set<Id>, g: Group) {
    exists e, m | e in input.pairs && m in others ::
      Between(e.left, e.right, s, m) && (e.result.AutomaticStrong? || e.result.Review?) && g in e.groups
  }

  ghost predicate TwoGroups(input: Input, s: Id, others: set<Id>) {
    exists g, h | Supports(input, s, others, g) && Supports(input, s, others, h) :: g != h
  }

  ghost predicate Strong(input: Input, a: Id, b: Id) {
    exists e | e in input.pairs :: e.result.AutomaticStrong? && Between(e.left, e.right, a, b)
  }

  /** A group of a strong decision between `a` and `b`. */
  ghost predicate StrongGroup(input: Input, a: Id, b: Id, g: Group) {
    exists e | e in input.pairs :: e.result.AutomaticStrong? && Between(e.left, e.right, a, b) && g in e.groups
  }

  ghost predicate StrongPair(input: Input, left: set<Id>, right: set<Id>, p: (Id, Id)) {
    p.0 in left && p.1 in right && Strong(input, p.0, p.1)
  }

  /** Strong decisions join two different pairs across. */
  ghost predicate TwoPairs(input: Input, left: set<Id>, right: set<Id>) {
    exists p, q | StrongPair(input, left, right, p) && StrongPair(input, left, right, q) :: p != q
  }

  ghost predicate Apart(input: Input, p: (Id, Id), q: (Id, Id)) {
    forall g :: !(StrongGroup(input, p.0, p.1, g) && StrongGroup(input, q.0, q.1, g))
  }

  /** Two different pairs across rest on different groups. */
  ghost predicate IndependentPairs(input: Input, left: set<Id>, right: set<Id>) {
    exists p, q | StrongPair(input, left, right, p) && StrongPair(input, left, right, q) :: p != q && Apart(input, p, q)
  }

  /** Some pair across rests on two groups. */
  ghost predicate ReusedPair(input: Input, left: set<Id>, right: set<Id>) {
    exists p, g, h |
      StrongPair(input, left, right, p) && StrongGroup(input, p.0, p.1, g) && StrongGroup(input, p.0, p.1, h) ::
      g != h
  }

  // ---- the rules ----

  ghost predicate SingletonRule(input: Input, d: PairDecision, s: Id, others: set<Id>, refused: Option<Reason>) {
    && (refused.None? || refused == Some(SingletonNeedsIndependentGroup))
    && (d.result.AutomaticIdentity? ==> refused.None?)
    && (d.result.AutomaticStrong? && d.groups != [] && Distinct(d.groups) ==>
        (refused.None? <==> TwoGroups(input, s, others)))
  }

  ghost predicate EstablishedRule(input: Input, left: set<Id>, right: set<Id>, refused: Option<Reason>) {
    if Agreed(input, left, right) then refused.None?
    else if TwoPairs(input, left, right) then
      refused == if IndependentPairs(input, left, right) then None else Some(EstablishedNotIndependent)
    else
      refused == Some(if ReusedPair(input, left, right) then EstablishedReusesPair else EstablishedNeedsTwo)
  }

  /** Why an automatic edge must not join two components, if anything forbids it. */
  ghost predicate Rule(input: Input, d: PairDecision, left: set<Id>, right: set<Id>, refused: Option<Reason>) {
    if Crossed(input, left, right) then refused == Some(CannotLink)
    else if Clash(input, left, right) then refused == Some(AuthoritativeConflict)
    else if |left| == 1 && |right| == 1 then refused.None?
    else if |left| == 1 then SingletonRule(input, d, d.left, right, refused)
    else if |right| == 1 then SingletonRule(input, d, d.right, left, refused)
    else EstablishedRule(input, left, right, refused)
  }

  // ---- the specification follows them ----

  ghost predicate ContextFor(input: Input, c: Context) {
    && UniqueRecords(input.records) && c.records == Index(input.records) && c.decisions == Elements(input.pairs)
    && (forall a: Id, b: Id :: (a, b) in c.cannot || (b, a) in c.cannot <==> Forbidden(input, a, b))
  }

  lemma EndpointsBetween(l: Id, r: Id, records: Records, a: Id, b: Id)
    requires l in records && r in records
    ensures Endpoints(l, r, records) == (a, b) || Endpoints(l, r, records) == (b, a) <==> Between(l, r, a, b)
  {
  }

  lemma CannotEdgesAre(input: Input, records: Records, a: Id, b: Id)
    requires CanonicalManualEdges(input.cannot, records, NotMatch).Ok?
    ensures var canonical := CanonicalManualEdges(input.cannot, records, NotMatch).value;
      (exists e | e in canonical :: Between(e.pair.left, e.pair.right, a, b))
      <==> (exists e | e in input.cannot :: Between(e.left, e.right, a, b))
  {
    var listed := Canonical(input.cannot, records, NotMatch);
    var canonical := SortBy(listed, ManualRank);
    SortElements(listed, ManualRank);
    if e :| e in canonical && Between(e.pair.left, e.pair.right, a, b) {
      var i :| 0 <= i < |listed| && listed[i] == e;
      EndpointsBetween(input.cannot[i].left, input.cannot[i].right, records, a, b);
      assert input.cannot[i] in input.cannot;
    }
    if e :| e in input.cannot && Between(e.left, e.right, a, b) {
      var i :| 0 <= i < |input.cannot| && input.cannot[i] == e;
      EndpointsBetween(e.left, e.right, records, a, b);
      assert listed[i] in listed && listed[i] in canonical;
    }
  }

  lemma PreparedContext(input: Input)
    requires Prepare(input).Ok?
    ensures ContextFor(input, Prepare(input).value.context)
  {
    var records := Index(input.records);
    var canonical := CanonicalManualEdges(input.cannot, records, NotMatch).value;
    var links := CannotLinks(canonical, input.pairs, records);
    assert Prepare(input).value.context.cannot == links;
    forall a: Id, b: Id ensures (a, b) in links || (b, a) in links <==> Forbidden(input, a, b) {
      CannotEdgesAre(input, records, a, b);
      LinkFrom(canonical, input.pairs, records, a, b);
    }
  }

  lemma LinkFrom(cannot: seq<ManualEdge>, pairs: seq<PairDecision>, records: Records, a: Id, b: Id)
    requires ProhibitedKnown(pairs, records)
    ensures (a, b) in CannotLinks(cannot, pairs, records) || (b, a) in CannotLinks(cannot, pairs, records) <==>
      || (exists e | e in cannot :: Between(e.pair.left, e.pair.right, a, b))
      || (exists d | d in pairs :: d.result.Prohibited? && Between(d.left, d.right, a, b))
  {
    forall d | d in pairs && d.result.Prohibited?
      ensures Endpoints(d.left, d.right, records) == (a, b) || Endpoints(d.left, d.right, records) == (b, a)
        <==> Between(d.left, d.right, a, b)
    {
      EndpointsBetween(d.left, d.right, records, a, b);
    }
  }

  lemma CrossedIs(input: Input, c: Context, left: set<Id>, right: set<Id>)
    requires ContextFor(input, c)
    ensures CannotCross(left, right, c.cannot) <==> Crossed(input, left, right)
  {
  }

  lemma ClaimsAre(input: Input, c: Context, members: set<Id>, p: (Field, Types.Value))
    requires ContextFor(input, c)
    ensures p in Claims(members, c.records) <==>
      exists x | x in input.records :: x.id in members && Asserts(x, p.0) && x.authority[p.0] == p.1
  {
    UniqueRows(input.records);
    if p in Claims(members, c.records) {
      var m, f :| m in members && m in c.records && f in c.records[m].authority && c.records[m].authority[f] != ""
        && p == (f, c.records[m].authority[f]);
      assert c.records[m] in input.records;
    }
    if x :| x in input.records && x.id in members && Asserts(x, p.0) && x.authority[p.0] == p.1 {
      assert c.records[x.id] == x;
      assert p == (p.0, c.records[x.id].authority[p.0]);
    }
  }

  lemma ClashIs(input: Input, c: Context, left: set<Id>, right: set<Id>)
    requires ContextFor(input, c)
    ensures Conflict(Claims(left, c.records), Claims(right, c.records)) <==> Clash(input, left, right)
  {
    if Conflict(Claims(left, c.records), Claims(right, c.records)) {
      var p, q :| p in Claims(left, c.records) && q in Claims(right, c.records) && p.0 == q.0 && p.1 != q.1;
      ClaimsAre(input, c, left, p);
      ClaimsAre(input, c, right, q);
    }
    if Clash(input, left, right) {
      var x, y, f :| x in input.records && y in input.records && f in x.authority
        && x.id in left && y.id in right && Asserts(x, f) && Asserts(y, f) && x.authority[f] != y.authority[f];
      ClaimsAre(input, c, left, (f, x.authority[f]));
      ClaimsAre(input, c, right, (f, y.authority[f]));
    }
  }

  lemma AgreedIs(input: Input, c: Context, left: set<Id>, right: set<Id>)
    requires ContextFor(input, c)
    ensures Shared(Claims(left, c.records), Claims(right, c.records)) <==> Agreed(input, left, right)
  {
    if Shared(Claims(left, c.records), Claims(right, c.records)) {
      var p :| p in Claims(left, c.records) && p in Claims(right, c.records);
      ClaimsAre(input, c, left, p);
      ClaimsAre(input, c, right, p);
    }
    if Agreed(input, left, right) {
      var x, y, f :| x in input.records && y in input.records && f in x.authority
        && x.id in left && y.id in right && Asserts(x, f) && Asserts(y, f) && x.authority[f] == y.authority[f];
      ClaimsAre(input, c, left, (f, x.authority[f]));
      ClaimsAre(input, c, right, (f, y.authority[f]));
    }
  }

  // ---- singletons ----

  /** With groups of its own and no other, an edge needs a second group from somewhere. */
  lemma OneGroupOnly(input: Input, d: PairDecision, s: Id, others: set<Id>)
    requires d in input.pairs && d.result.AutomaticStrong? && |d.groups| == 1
    requires exists m | m in others :: Between(d.left, d.right, s, m)
    ensures TwoGroups(input, s, others) <==> exists g :: Supports(input, s, others, g) && g !in d.groups
  {
    assert d.groups[0] in d.groups;
    assert Supports(input, s, others, d.groups[0]);
    if g :| Supports(input, s, others, g) && g !in d.groups {
      assert g != d.groups[0];
    }
    if TwoGroups(input, s, others) {
      var g, h :| Supports(input, s, others, g) && Supports(input, s, others, h) && g != h;
      assert g !in d.groups || h !in d.groups;
    }
  }

  lemma ManyGroups(input: Input, d: PairDecision, s: Id, others: set<Id>)
    requires d in input.pairs && d.result.AutomaticStrong? && |d.groups| > 1 && Distinct(d.groups)
    requires exists m | m in others :: Between(d.left, d.right, s, m)
    ensures TwoGroups(input, s, others)
  {
    assert d.groups[0] in d.groups && d.groups[1] in d.groups && d.groups[0] != d.groups[1];
    assert Supports(input, s, others, d.groups[0]) && Supports(input, s, others, d.groups[1]);
  }

  lemma AdmitsByGroup(input: Input, d: PairDecision, s: Id, others: set<Id>)
    requires s !in others
    ensures SingletonAdmits(d, s, others, Elements(input.pairs)) <==>
      || d.result.AutomaticIdentity? || |d.groups| > 1
      || exists g :: Supports(input, s, others, g) && g !in d.groups
  {
    if g :| Supports(input, s, others, g) && g !in d.groups {
      var e, m :| e in input.pairs && m in others && Between(e.left, e.right, s, m)
        && (e.result.AutomaticStrong? || e.result.Review?) && g in e.groups;
      assert ForPair(e, s, m);
    }
    if e, m, g :|
      (e in Elements(input.pairs) && m in others && g in e.groups && ForPair(e, s, m)
        && (e.result.AutomaticStrong? || e.result.Review?) && g !in d.groups)
    {
      assert Supports(input, s, others, g);
    }
  }

  lemma SingletonFollows(input: Input, d: PairDecision, s: Id, others: set<Id>)
    requires d in input.pairs && s !in others && exists m | m in others :: Between(d.left, d.right, s, m)
    ensures SingletonRule(input, d, s, others,
      if SingletonAdmits(d, s, others, Elements(input.pairs)) then None else Some(SingletonNeedsIndependentGroup))
  {
    AdmitsByGroup(input, d, s, others);
    if d.result.AutomaticStrong? && d.groups != [] && Distinct(d.groups) {
      if |d.groups| > 1 { ManyGroups(input, d, s, others); } else { OneGroupOnly(input, d, s, others); }
    }
  }

  // ---- larger components ----

  lemma StrongIs(input: Input, a: Id, b: Id)
    requires a != b
    ensures StronglyJoined(a, b, Elements(input.pairs)) <==> Strong(input, a, b)
  {
    if StronglyJoined(a, b, Elements(input.pairs)) {
      var e :| e in Elements(input.pairs) && StrongFor(e, (a, b));
    }
    if Strong(input, a, b) {
      var e :| e in input.pairs && e.result.AutomaticStrong? && Between(e.left, e.right, a, b);
      assert e in Elements(input.pairs) && StrongFor(e, (a, b));
    }
  }

  lemma GroupsAre(input: Input, a: Id, b: Id, records: Records, g: Group)
    requires a != b && a in records && b in records
    ensures g in ConnectionGroups(Endpoints(a, b, records), Elements(input.pairs)) <==> StrongGroup(input, a, b, g)
  {
    var p := Endpoints(a, b, records);
    if g in ConnectionGroups(p, Elements(input.pairs)) {
      var e :| e in Elements(input.pairs) && g in e.groups && StrongFor(e, p);
      assert Between(e.left, e.right, a, b);
    }
    if StrongGroup(input, a, b, g) {
      var e :| e in input.pairs && e.result.AutomaticStrong? && Between(e.left, e.right, a, b) && g in e.groups;
      assert e in Elements(input.pairs) && StrongFor(e, p);
    }
  }

  ghost predicate Sides(c: Context, left: set<Id>, right: set<Id>) {
    left <= c.records.Keys && right <= c.records.Keys && left !! right
  }

  /** Connections are the canonical ends of the strong pairs across. */
  lemma ConnectionsAre(input: Input, c: Context, left: set<Id>, right: set<Id>, p: (Id, Id))
    requires ContextFor(input, c) && Sides(c, left, right) && p.0 in left && p.1 in right
    ensures Endpoints(p.0, p.1, c.records) in Connections(left, right, c.decisions, c.records)
      <==> StrongPair(input, left, right, p)
  {
    StrongIs(input, p.0, p.1);
    if Endpoints(p.0, p.1, c.records) in Connections(left, right, c.decisions, c.records) {
      var a, b :| a in left && b in right && a in c.records && b in c.records && StronglyJoined(a, b, c.decisions)
        && Endpoints(p.0, p.1, c.records) == Endpoints(a, b, c.records);
      assert a == p.0 && b == p.1;
    }
  }

  lemma ConnectionFrom(input: Input, c: Context, left: set<Id>, right: set<Id>, x: (Id, Id)) returns (p: (Id, Id))
    requires ContextFor(input, c) && Sides(c, left, right) && x in Connections(left, right, c.decisions, c.records)
    ensures StrongPair(input, left, right, p) && x == Endpoints(p.0, p.1, c.records)
  {
    var a, b :| a in left && b in right && a in c.records && b in c.records && StronglyJoined(a, b, c.decisions)
      && x == Endpoints(a, b, c.records);
    StrongIs(input, a, b);
    p := (a, b);
  }

  lemma DifferentPairs(c: Context, left: set<Id>, right: set<Id>, p: (Id, Id), q: (Id, Id))
    requires Sides(c, left, right) && p.0 in left && p.1 in right && q.0 in left && q.1 in right
    ensures Endpoints(p.0, p.1, c.records) == Endpoints(q.0, q.1, c.records) <==> p == q
  {
  }

  lemma AtMostOne<T>(s: set<T>)
    ensures |s| < 2 <==> forall x, y | x in s && y in s :: x == y
  {
    if s != {} {
      var x :| x in s;
      if forall x, y | x in s && y in s :: x == y {
        assert s == {x};
      }
      if |s| < 2 {
        SubsetFull({x}, s);
      }
    }
  }

  lemma TwoPairsIs(input: Input, c: Context, left: set<Id>, right: set<Id>)
    requires ContextFor(input, c) && Sides(c, left, right)
    ensures |Connections(left, right, c.decisions, c.records)| >= 2 <==> TwoPairs(input, left, right)
  {
    var all := Connections(left, right, c.decisions, c.records);
    AtMostOne(all);
    if TwoPairs(input, left, right) {
      var p, q :| StrongPair(input, left, right, p) && StrongPair(input, left, right, q) && p != q;
      ConnectionsAre(input, c, left, right, p);
      ConnectionsAre(input, c, left, right, q);
      DifferentPairs(c, left, right, p, q);
    }
    if x, y :| x in all && y in all && x != y {
      var p := ConnectionFrom(input, c, left, right, x);
      var q := ConnectionFrom(input, c, left, right, y);
    }
  }

  lemma ApartIs(input: Input, c: Context, p: (Id, Id), q: (Id, Id))
    requires ContextFor(input, c) && p.0 in c.records && p.1 in c.records && q.0 in c.records && q.1 in c.records
    requires p.0 != p.1 && q.0 != q.1
    ensures Apart(input, p, q) <==>
      ConnectionGroups(Endpoints(p.0, p.1, c.records), c.decisions)
        !! ConnectionGroups(Endpoints(q.0, q.1, c.records), c.decisions)
  {
    forall g
      ensures g in ConnectionGroups(Endpoints(p.0, p.1, c.records), c.decisions) <==> StrongGroup(input, p.0, p.1, g)
      ensures g in ConnectionGroups(Endpoints(q.0, q.1, c.records), c.decisions) <==> StrongGroup(input, q.0, q.1, g)
    {
      GroupsAre(input, p.0, p.1, c.records, g);
      GroupsAre(input, q.0, q.1, c.records, g);
    }
  }

  lemma IndependentIs(input: Input, c: Context, left: set<Id>, right: set<Id>)
    requires ContextFor(input, c) && Sides(c, left, right)
    ensures var all := Connections(left, right, c.decisions, c.records);
      (exists x, y | x in all && y in all :: Independent(x, y, c.decisions)) <==> IndependentPairs(input, left, right)
  {
    var all := Connections(left, right, c.decisions, c.records);
    if x, y :| x in all && y in all && Independent(x, y, c.decisions) {
      var p := ConnectionFrom(input, c, left, right, x);
      var q := ConnectionFrom(input, c, left, right, y);
      ApartIs(input, c, p, q);
    }
    if IndependentPairs(input, left, right) {
      var p, q :|
        StrongPair(input, left, right, p) && StrongPair(input, left, right, q) && p != q && Apart(input, p, q);
      ConnectionsAre(input, c, left, right, p);
      ConnectionsAre(input, c, left, right, q);
      DifferentPairs(c, left, right, p, q);
      ApartIs(input, c, p, q);
      assert Independent(Endpoints(p.0, p.1, c.records), Endpoints(q.0, q.1, c.records), c.decisions);
    }
  }

  lemma ReusedIs(input: Input, c: Context, left: set<Id>, right: set<Id>)
    requires ContextFor(input, c) && Sides(c, left, right)
    ensures var all := Connections(left, right, c.decisions, c.records);
      (exists x | x in all :: |ConnectionGroups(x, c.decisions)| > 1) <==> ReusedPair(input, left, right)
  {
    var all := Connections(left, right, c.decisions, c.records);
    if x :| x in all && |ConnectionGroups(x, c.decisions)| > 1 {
      var p := ConnectionFrom(input, c, left, right, x);
      AtMostOne(ConnectionGroups(x, c.decisions));
      var g, h :| g in ConnectionGroups(x, c.decisions) && h in ConnectionGroups(x, c.decisions) && g != h;
      GroupsAre(input, p.0, p.1, c.records, g);
      GroupsAre(input, p.0, p.1, c.records, h);
      assert StrongGroup(input, p.0, p.1, g) && StrongGroup(input, p.0, p.1, h);
    }
    if ReusedPair(input, left, right) {
      var p, g, h :| StrongPair(input, left, right, p) && StrongGroup(input, p.0, p.1, g)
        && StrongGroup(input, p.0, p.1, h) && g != h;
      var x := Endpoints(p.0, p.1, c.records);
      ConnectionsAre(input, c, left, right, p);
      GroupsAre(input, p.0, p.1, c.records, g);
      GroupsAre(input, p.0, p.1, c.records, h);
      AtMostOne(ConnectionGroups(x, c.decisions));
    }
  }

  lemma EstablishedFollows(input: Input, c: Context, left: set<Id>, right: set<Id>)
    requires ContextFor(input, c) && Sides(c, left, right)
    ensures EstablishedRule(input, left, right, EstablishedRejects(left, right, c.decisions, c.records))
  {
    AgreedIs(input, c, left, right);
    TwoPairsIs(input, c, left, right);
    IndependentIs(input, c, left, right);
    ReusedIs(input, c, left, right);
  }

  /** The admission table is the rule. */
  lemma AdmissionFollows(input: Input, c: Context, left: set<Id>, right: set<Id>, d: PairDecision)
    requires ContextFor(input, c) && Sides(c, left, right) && d in input.pairs && d.left in left && d.right in right
    ensures Rule(input, d, left, right, Admission(c, left, right, d))
  {
    CrossedIs(input, c, left, right);
    ClashIs(input, c, left, right);
    if |left| == 1 && |right| != 1 {
      SingletonFollows(input, d, d.left, right);
    } else if |right| == 1 && |left| != 1 {
      SingletonFollows(input, d, d.right, left);
    } else if |left| != 1 && |right| != 1 {
      EstablishedFollows(input, c, left, right);
    }
  }

  // ---- facts ----

  ghost predicate LeastKey(input: Input, members: set<Id>, k: Key) {
    && (exists x | x in input.records :: x.id in members && x.key == k)
    && (forall x | x in input.records && x.id in members :: k <= x.key)
  }

  predicate Ascends(groups: seq<Group>) {
    forall i, j | 0 <= i < j < |groups| :: groups[i] < groups[j]
  }

  /** The pair, the record with the lesser sort key first. */
  ghost predicate NamesPair(input: Input, d: PairDecision, edge: PairKey) {
    && Between(edge.left, edge.right, d.left, d.right) && edge.leftKey <= edge.rightKey
    && (forall x | x in input.records && x.id == edge.left :: x.key == edge.leftKey)
    && (forall x | x in input.records && x.id == edge.right :: x.key == edge.rightKey)
  }

  /** The components' least keys, the lesser first. */
  ghost predicate NamesComponents(input: Input, left: set<Id>, right: set<Id>, f: Fact) {
    && f.leftKey <= f.rightKey
    && ((LeastKey(input, left, f.leftKey) && LeastKey(input, right, f.rightKey))
        || (LeastKey(input, left, f.rightKey) && LeastKey(input, right, f.leftKey)))
  }

  ghost predicate Describes(input: Input, d: PairDecision, left: set<Id>, right: set<Id>, f: Fact) {
    && NamesPair(input, d, f.edge) && NamesComponents(input, left, right, f)
    && Ascends(f.groups) && (forall g :: g in f.groups <==> g in d.groups)
  }

  /** What the fact says of the edge follows from the two components by the rules. */
  ghost predicate Decides(input: Input, d: PairDecision, left: set<Id>, right: set<Id>, f: Fact) {
    if left == right then f.outcome.Accepted? && f.reason == AlreadyConnected
    else
      && Rule(input, d, left, right, if f.outcome.Rejected? then Some(f.reason) else None)
      && (f.outcome.Accepted? ==> f.reason == if d.result.AutomaticIdentity? then Reason.Identity else Reason.Strong)
  }

  lemma PrependAscends(g: Group, groups: seq<Group>)
    requires Ascends(groups) && forall h | h in groups :: g < h
    ensures Ascends([g] + groups)
  {
    var all := [g] + groups;
    forall i, j | 0 <= i < j < |all| ensures all[i] < all[j] {
      assert all[j] in groups;
    }
  }

  lemma DedupAscends(s: seq<Group>)
    requires Sorted(s, GroupRank)
    ensures Ascends(Dedup(s))
  {
    if |s| > 1 {
      var rest := s[1..];
      DedupAscends(rest);
      DedupElements(rest);
      if s[0] != s[1] {
        forall g | g in rest ensures s[0] < g { HeadBelow(s, g); }
        PrependAscends(s[0], Dedup(rest));
      }
    }
  }

  lemma HeadBelow(s: seq<Group>, g: Group)
    requires Sorted(s, GroupRank) && |s| > 1 && s[0] != s[1] && g in s[1..]
    ensures s[0] < g
  {
    var j :| 0 < j < |s| && s[j] == g;
    assert LexLe(GroupRank(s[0]), GroupRank(s[1])) && LexLe(GroupRank(s[0]), GroupRank(s[j]));
    if j > 1 { assert LexLe(GroupRank(s[1]), GroupRank(s[j])); }
  }

  lemma GroupsListed(groups: seq<Group>)
    ensures Ascends(Dedup(SortBy(groups, GroupRank)))
    ensures forall g :: g in Dedup(SortBy(groups, GroupRank)) <==> g in groups
  {
    SortSorted(groups, GroupRank);
    DedupAscends(SortBy(groups, GroupRank));
    DedupElements(SortBy(groups, GroupRank));
    SortElements(groups, GroupRank);
  }

  lemma KeyIsLeast(input: Input, c: Context, part: Partition, a: Id)
    requires ContextFor(input, c) && IsPartition(part) && part.Keys == c.records.Keys && a in part
    ensures LeastKey(input, part[a], ComponentKey(part[a], c.records))
  {
    UniqueRows(input.records);
    KeyOfClass(part, c.records, a);
    var b :| b in part[a] && b in c.records && ComponentKey(part[a], c.records) == c.records[b].key;
    assert c.records[b] in input.records && c.records[b].id == b;
    forall x | x in input.records && x.id in part[a] ensures ComponentKey(part[a], c.records) <= x.key {
      assert c.records[x.id] == x;
    }
  }

  lemma PairNamed(input: Input, c: Context, d: PairDecision)
    requires ContextFor(input, c) && d.left in c.records && d.right in c.records
    ensures NamesPair(input, d, PairKeyOf(d.left, d.right, c.records))
  {
    UniqueRows(input.records);
    forall x | x in input.records ensures x.id in c.records && c.records[x.id] == x {}
  }

  lemma FactDescribes(input: Input, c: Context, part: Partition, d: PairDecision)
    requires ContextFor(input, c) && IsPartition(part) && part.Keys == c.records.Keys
    requires d.left in part && d.right in part
    ensures Describes(input, d, part[d.left], part[d.right], AutomaticFact(c, part, d))
  {
    KeyIsLeast(input, c, part, d.left);
    KeyIsLeast(input, c, part, d.right);
    GroupsListed(d.groups);
    PairNamed(input, c, d);
    FactParts(c, part, d);
  }

  lemma FactParts(c: Context, part: Partition, d: PairDecision)
    requires Known(c, part, d.left) && Known(c, part, d.right)
    ensures var f := AutomaticFact(c, part, d);
      var l, r := ComponentKey(part[d.left], c.records), ComponentKey(part[d.right], c.records);
      && f.edge == PairKeyOf(d.left, d.right, c.records) && f.groups == Dedup(SortBy(d.groups, GroupRank))
      && f.leftKey == (if l <= r then l else r) && f.rightKey == (if l <= r then r else l)
  {
  }

  lemma FactDecides(input: Input, c: Context, part: Partition, d: PairDecision)
    requires ContextFor(input, c) && IsPartition(part) && part.Keys == c.records.Keys
    requires d in input.pairs && d.left in part && d.right in part
    ensures Decides(input, d, part[d.left], part[d.right], AutomaticFact(c, part, d))
  {
    if part[d.left] != part[d.right] {
      ClassesDisjoint(part, d.left, d.right);
      AdmissionFollows(input, c, part[d.left], part[d.right], d);
      VerdictReason(c, part, d);
    }
  }

  /** A refusal is never one of the reasons of accepted facts. */
  lemma VerdictReason(c: Context, part: Partition, d: PairDecision)
    requires Known(c, part, d.left) && Known(c, part, d.right) && part[d.left] != part[d.right]
    ensures var f := AutomaticFact(c, part, d);
      Verdict(c, part, d) == if f.outcome.Rejected? then Some(f.reason) else None
  {
  }

  // ---- the whole phase ----

  /** The classes before each edge and after the last. */
  ghost function Trace(c: Context, s: Clustering, todo: seq<PairDecision>, n: nat): (parts: seq<Partition>)
    requires Fold(AutomaticStepper(c), s, todo, n).Ok?
    ensures |parts| == |todo| + 1 && parts[0] == s.part
    ensures parts[|todo|] == Fold(AutomaticStepper(c), s, todo, n).value.part
    decreases |todo|
  {
    if todo == [] then [s.part]
    else [s.part] + Trace(c, AutomaticStep(c, s, todo[0], n).value, todo[1..], n + 1)
  }

  /** A merge replaces both classes by their union, within the limit; anything else changes nothing. */
  ghost predicate Shifts(part: Partition, left: set<Id>, right: set<Id>, merge: bool, limit: nat, next: Partition) {
    if merge then
      && |left| + |right| <= limit && next.Keys == part.Keys
      && forall x | x in part :: next[x] == if x in left || x in right then left + right else part[x]
    else next == part
  }

  /** What one edge does to the classes it finds. */
  ghost predicate Moves(input: Input, part: Partition, d: PairDecision, f: Fact, next: Partition) {
    && d.left in part && d.right in part
    && Describes(input, d, part[d.left], part[d.right], f) && Decides(input, d, part[d.left], part[d.right], f)
    && Shifts(part, part[d.left], part[d.right], f.outcome.Accepted? && part[d.left] != part[d.right],
         input.limits.maxRecordsPerComponent, next)
  }

  lemma StepShifts(c: Context, s: Clustering, d: PairDecision, n: nat)
    requires IsPartition(s.part) && s.part.Keys == c.records.Keys && AutomaticStep(c, s, d, n).Ok?
    ensures Known(c, s.part, d.left) && Known(c, s.part, d.right) && n + 1 <= c.limits.maxComponentChecks
    ensures var t, f := AutomaticStep(c, s, d, n).value, AutomaticFact(c, s.part, d);
      && IsPartition(t.part) && t.part.Keys == s.part.Keys
      && Shifts(s.part, s.part[d.left], s.part[d.right], f.outcome.Accepted? && s.part[d.left] != s.part[d.right],
           c.limits.maxRecordsPerComponent, t.part)
  {
    MergePartition(s.part, d.left, d.right);
  }

  lemma StepMoves(input: Input, c: Context, s: Clustering, d: PairDecision, n: nat)
    requires ContextFor(input, c) && c.limits == input.limits && d in input.pairs
    requires IsPartition(s.part) && s.part.Keys == c.records.Keys && AutomaticStep(c, s, d, n).Ok?
    ensures Known(c, s.part, d.left) && Known(c, s.part, d.right)
    ensures Moves(input, s.part, d, AutomaticFact(c, s.part, d), AutomaticStep(c, s, d, n).value.part)
  {
    StepShifts(c, s, d, n);
    FactDescribes(input, c, s.part, d);
    FactDecides(input, c, s.part, d);
  }

  type Move = (Partition, PairDecision, Fact, Partition) -> bool

  /** Each edge moves the classes it finds to the next ones. */
  ghost predicate AllMove(move: Move, parts: seq<Partition>, edges: seq<PairDecision>, log: seq<Fact>) {
    && |log| == |edges| && |parts| == |edges| + 1
    && (forall i: nat | i < |edges| :: move(parts[i], edges[i], log[i], parts[i + 1]))
  }

  lemma AllMoveCons(move: Move, part: Partition, d: PairDecision, f: Fact,
      parts: seq<Partition>, edges: seq<PairDecision>, log: seq<Fact>)
    requires AllMove(move, parts, edges, log) && move(part, d, f, parts[0])
    ensures AllMove(move, [part] + parts, [d] + edges, [f] + log)
  {
    var p, e, l := [part] + parts, [d] + edges, [f] + log;
    forall i: nat | i < |e| ensures move(p[i], e[i], l[i], p[i + 1]) {
      if i > 0 { assert move(parts[i - 1], edges[i - 1], log[i - 1], parts[i - 1 + 1]); }
    }
  }

  /** Every step from a good state is a move to a good state. */
  ghost predicate Steps(c: Context, good: Clustering -> bool, fit: PairDecision -> bool, move: Move) {
    forall s, d, n: nat | good(s) && fit(d) && AutomaticStep(c, s, d, n).Ok? ::
      && Known(c, s.part, d.left) && Known(c, s.part, d.right) && good(AutomaticStep(c, s, d, n).value)
      && n + 1 <= c.limits.maxComponentChecks
      && move(s.part, d, AutomaticFact(c, s.part, d), AutomaticStep(c, s, d, n).value.part)
  }

  lemma StepTaken(c: Context, s: Clustering, d: PairDecision, n: nat,
      good: Clustering -> bool, fit: PairDecision -> bool, move: Move)
    requires Steps(c, good, fit, move) && good(s) && fit(d) && AutomaticStep(c, s, d, n).Ok?
    ensures Known(c, s.part, d.left) && Known(c, s.part, d.right) && good(AutomaticStep(c, s, d, n).value)
    ensures n + 1 <= c.limits.maxComponentChecks
    ensures move(s.part, d, AutomaticFact(c, s.part, d), AutomaticStep(c, s, d, n).value.part)
  {
  }

  lemma {:induction false} TraceMoves(c: Context, s: Clustering, todo: seq<PairDecision>, n: nat,
      good: Clustering -> bool, fit: PairDecision -> bool, move: Move)
    requires Steps(c, good, fit, move) && good(s) && forall d | d in todo :: fit(d)
    requires Fold(AutomaticStepper(c), s, todo, n).Ok?
    ensures todo != [] ==> n + |todo| <= c.limits.maxComponentChecks
    ensures AllMove(move, Trace(c, s, todo, n), todo, Outcomes(c, s, todo, n))
    decreases |todo|
  {
    if todo != [] {
      var d, rest := todo[0], todo[1..];
      StepTaken(c, s, d, n, good, fit, move);
      var t := AutomaticStep(c, s, d, n).value;
      TraceMoves(c, t, rest, n + 1, good, fit, move);
      AllMoveCons(move, s.part, d, AutomaticFact(c, s.part, d),
        Trace(c, t, rest, n + 1), rest, Outcomes(c, t, rest, n + 1));
      assert [d] + rest == todo;
    }
  }

  ghost function Moving(input: Input): Move {
    (part, d, f, next) => Moves(input, part, d, f, next)
  }

  lemma PhaseMoves(input: Input, c: Context, s: Clustering, todo: seq<PairDecision>)
    requires ContextFor(input, c) && c.limits == input.limits && forall d | d in todo :: d in input.pairs
    requires IsPartition(s.part) && s.part.Keys == c.records.Keys && Fold(AutomaticStepper(c), s, todo, 0).Ok?
    ensures |todo| <= c.limits.maxComponentChecks || todo == []
    ensures AllMove(Moving(input), Trace(c, s, todo, 0), todo, Outcomes(c, s, todo, 0))
  {
    var good := (t: Clustering) => IsPartition(t.part) && t.part.Keys == c.records.Keys;
    var fit := (d: PairDecision) => d in input.pairs;
    forall t, d, n: nat | good(t) && fit(d) && AutomaticStep(c, t, d, n).Ok?
      ensures Known(c, t.part, d.left) && Known(c, t.part, d.right) && good(AutomaticStep(c, t, d, n).value)
      ensures n + 1 <= c.limits.maxComponentChecks
      ensures Moving(input)(t.part, d, AutomaticFact(c, t.part, d), AutomaticStep(c, t, d, n).value.part)
    {
      StepShifts(c, t, d, n);
      StepMoves(input, c, t, d, n);
    }
    TraceMoves(c, s, todo, 0, good, fit, Moving(input));
  }

  /** By sort key, then the records' keys, then their ids. */
  predicate Precedes(a: PairDecision, b: PairDecision) {
    || a.sortKey < b.sortKey
    || (a.sortKey == b.sortKey && (a.leftKey < b.leftKey
    || (a.leftKey == b.leftKey && (a.rightKey < b.rightKey
    || (a.rightKey == b.rightKey && (a.left < b.left
    || (a.left == b.left && a.right <= b.right)))))))
  }

  lemma RankPrecedes(a: PairDecision, b: PairDecision)
    ensures LexLe(AutomaticRank(a), AutomaticRank(b)) <==> Precedes(a, b)
  {
    LexPair(a.right, b.right, [], []);
    LexPair(a.left, b.left, [a.right], [b.right]);
    LexPair(a.rightKey, b.rightKey, [a.left, a.right], [b.left, b.right]);
    LexPair(a.leftKey, b.leftKey, [a.rightKey, a.left, a.right], [b.rightKey, b.left, b.right]);
    LexPair(a.sortKey, b.sortKey, [a.leftKey, a.rightKey, a.left, a.right], [b.leftKey, b.rightKey, b.left, b.right]);
    assert [a.right] + [] == [a.right] && [b.right] + [] == [b.right];
    assert [a.left] + [a.right] == [a.left, a.right] && [b.left] + [b.right] == [b.left, b.right];
    assert AutomaticRank(a) == [a.sortKey] + [a.leftKey, a.rightKey, a.left, a.right];
    assert AutomaticRank(b) == [b.sortKey] + [b.leftKey, b.rightKey, b.left, b.right];
    assert [a.leftKey] + [a.rightKey, a.left, a.right] == [a.leftKey, a.rightKey, a.left, a.right];
    assert [b.leftKey] + [b.rightKey, b.left, b.right] == [b.leftKey, b.rightKey, b.left, b.right];
    assert [a.rightKey] + [a.left, a.right] == [a.rightKey, a.left, a.right];
    assert [b.rightKey] + [b.left, b.right] == [b.rightKey, b.left, b.right];
  }

  /** The edges are the identity and strong pairs, each as often as given, in order. */
  ghost predicate InTurn(input: Input, edges: seq<PairDecision>) {
    && (forall i, j | 0 <= i < j < |edges| :: Precedes(edges[i], edges[j]))
    && (forall d :: multiset(edges)[d] ==
         if d.result.AutomaticIdentity? || d.result.AutomaticStrong? then multiset(input.pairs)[d] else 0)
  }

  lemma AutomaticInTurn(input: Input)
    ensures InTurn(input, Automatic(input))
  {
    var kept := Filter(input.pairs, IsAutomatic);
    var edges := Automatic(input);
    SortSorted(kept, AutomaticRank);
    SortMultiset(kept, AutomaticRank);
    forall i, j | 0 <= i < j < |edges| ensures Precedes(edges[i], edges[j]) {
      RankPrecedes(edges[i], edges[j]);
    }
    forall d
      ensures multiset(edges)[d] ==
        if d.result.AutomaticIdentity? || d.result.AutomaticStrong? then multiset(input.pairs)[d] else 0
    {
      FilterMultiset(input.pairs, IsAutomatic, d);
    }
  }

  /** A successful resolution, step by step: MATCH decisions alone make the first classes; the
      automatic edges are taken in turn, and what becomes of each follows from the classes it meets
      by the rules; the last classes are the published components. */
  lemma DecisionsExplained(input: Input)
    returns (edges: seq<PairDecision>, parts: seq<Partition>, manual: seq<Fact>, log: seq<Fact>)
    requires Resolve(input).Ok?
    ensures InTurn(input, edges) && AllMove(Moving(input), parts, edges, log)
    ensures MatchClasses(input, parts[0])
    ensures forall a, b :: Together(Resolve(input).value, a, b) <==> Same(parts[|edges|], a, b)
    ensures Resolve(input).value.accepted == manual + Filter(log, IsAccepted)
    ensures Resolve(input).value.rejected == Filter(log, IsRejected)
    ensures |edges| <= input.limits.maxAutomaticEdges && |edges| <= input.limits.maxComponentChecks
    ensures |input.records| <= input.limits.maxActiveRecords
  {
    var run := ResolveRun(input);
    SafeRun(input, run);
    PreparedContext(input);
    AutomaticElements(input);
    AutomaticInTurn(input);
    edges := Automatic(input);
    parts := Trace(run.c, run.base, edges, 0);
    manual := run.base.accepted;
    log := Outcomes(run.c, run.base, edges, 0);
    PhaseMoves(input, run.c, run.base, edges);
    RunConserves(run, edges);
    FirstClasses(input, run);
    LimitsKept(input, run);
    forall a, b ensures Together(Resolve(input).value, a, b) <==> Same(parts[|edges|], a, b) {
      TogetherIsSame(run.final, run.c.records, a, b);
    }
  }

  lemma LimitsKept(input: Input, run: Run)
    requires Resolve(input).Ok? && Completed(input, run)
    ensures |Automatic(input)| <= input.limits.maxAutomaticEdges && |input.records| <= input.limits.maxActiveRecords
  {
  }

  /** MATCH decisions alone connect the classes. */
  ghost predicate MatchClasses(input: Input, part: Partition) {
    forall x, y | x in input.records && y in input.records ::
      x.id in part && y.id in part && (part[x.id] == part[y.id] <==> Connected(MatchEdges(input), x.id, y.id))
  }

  lemma BaseClasses(input: Input, run: Run)
    requires Completed(input, run)
    ensures CanonicalManualEdges(input.manual, run.c.records, Match) == Ok(run.manual)
    ensures Classifies(run.base.part, EdgeSet(run.manual)) && run.base.part.Keys == Index(input.records).Keys
  {
    SafeRun(input, run);
  }

  lemma ClassesConnect(input: Input, records: Records, manual: seq<ManualEdge>, part: Partition, x: Id, y: Id)
    requires CanonicalManualEdges(input.manual, records, Match) == Ok(manual)
    requires Classifies(part, EdgeSet(manual)) && x in part && y in part
    ensures part[x] == part[y] <==> Connected(MatchEdges(input), x, y)
  {
    MatchesConnect(input, records, manual, x, y);
  }

  lemma FirstClasses(input: Input, run: Run)
    requires Completed(input, run)
    ensures MatchClasses(input, run.base.part)
  {
    BaseClasses(input, run);
    var part := run.base.part;
    forall x | x in input.records ensures x.id in part {
      assert x.id in Index(input.records);
    }
    forall x, y | x in input.records && y in input.records
      ensures part[x.id] == part[y.id] <==> Connected(MatchEdges(input), x.id, y.id)
    {
      ClassesConnect(input, run.c.records, run.manual, part, x.id, y.id);
    }
  }

  /** The canonical decisions connect what the decisions connect. */
  lemma MatchesConnect(input: Input, records: Records, manual: seq<ManualEdge>, x: Id, y: Id)
    requires CanonicalManualEdges(input.manual, records, Match) == Ok(manual)
    ensures Connected(MatchEdges(input), x, y) <==> Connected(EdgeSet(manual), x, y)
  {
    CanonicalEdges(input, records, manual);
    if Connected(MatchEdges(input), x, y) {
      ConnectedMono(MatchEdges(input), EdgeSet(manual), x, y);
    }
    if Connected(EdgeSet(manual), x, y) {
      ConnectedMono(EdgeSet(manual), MatchEdges(input), x, y);
    }
  }
}
