/** The summary the resolver keeps for each union-find root. */
module Components {
  import opened Types
  import opened ResolverSpec

  type Authority = map<Field, set<Value>>

  /** The (field, value) claims an authority table holds. */
  ghost function Pairs(authority: Authority): set<(Field, Value)> {
    set f, v | f in authority && v in authority[f] :: (f, v)
  }

  ghost function RecordClaims(record: Record): set<(Field, Value)> {
    set f | f in record.authority && record.authority[f] != "" :: (f, record.authority[f])
  }

  predicate AuthoritiesConflict(left: Authority, right: Authority) {
    exists f | f in left && f in right :: exists v, w | v in left[f] && w in right[f] :: v != w
  }

  predicate SharedAuthority(left: Authority, right: Authority) {
    exists f | f in left && f in right :: exists v | v in left[f] :: v in right[f]
  }

  lemma AuthoritiesConflictMeans(left: Authority, right: Authority)
    ensures AuthoritiesConflict(left, right) <==> Conflict(Pairs(left), Pairs(right))
  {
    if AuthoritiesConflict(left, right) {
      var f :| f in left && f in right && exists v, w | v in left[f] && w in right[f] :: v != w;
      var v, w :| v in left[f] && w in right[f] && v != w;
      var p, q := (f, v), (f, w);
      assert p in Pairs(left) && q in Pairs(right) && p.0 == q.0 && p.1 != q.1;
    }
  }

  lemma SharedAuthorityMeans(left: Authority, right: Authority)
    ensures SharedAuthority(left, right) <==> Shared(Pairs(left), Pairs(right))
  {
    if SharedAuthority(left, right) {
      var f :| f in left && f in right && exists v | v in left[f] :: v in right[f];
      var v :| v in left[f] && v in right[f];
      assert (f, v) in Pairs(left) && (f, v) in Pairs(right);
    }
  }

  /** Components live in the slots of the resolver's array and are replaced there. */
  datatype Component = Component(members: set<Id>, authority: Authority, key: Key)
  {
    predicate IsSingleton() {
      |members| == 1
    }
  }

  /** The default value left behind when a component is moved out. */
  const EMPTY := Component({}, map[], 0)

  method Singleton(record: Record) returns (c: Component)
    ensures c.members == {record.id} && c.key == record.key
    ensures Pairs(c.authority) == RecordClaims(record)
  {
    var authority: Authority := map[];
    var todo := record.authority.Keys;
    while todo != {}
      invariant todo <= record.authority.Keys
      invariant authority.Keys !! todo
      invariant Pairs(authority) == set p | p in RecordClaims(record) && p.0 !in todo
    {
      var f :| f in todo;
      ghost var before := authority;
      if record.authority[f] != "" {
        authority := authority[f := {record.authority[f]}];
        PairsExtended(before, f, {record.authority[f]});
      }
      todo := todo - {f};
      forall p ensures p in Pairs(authority) <==> p in RecordClaims(record) && p.0 !in todo {}
    }
    c := Component({record.id}, authority, record.key);
  }

  /** Absorbs `other`: members and claims are united, the lesser key wins. */
  method Merge(self: Component, other: Component) returns (c: Component)
    ensures other.members == {} ==> c == self
    ensures other.members != {} ==>
      && c.members == self.members + other.members
      && Pairs(c.authority) == Pairs(self.authority) + Pairs(other.authority)
      && c.key == if other.key < self.key then other.key else self.key
  {
    c := self;
    if other.members == {} { return; }
    c := c.(members := c.members + other.members);
    var todo := other.authority.Keys;
    while todo != {}
      invariant todo <= other.authority.Keys
      invariant c.members == self.members + other.members && c.key == self.key
      invariant Pairs(c.authority) == Pairs(self.authority) + set p | p in Pairs(other.authority) && p.0 !in todo
    {
      var f :| f in todo;
      ghost var before := c.authority;
      c := c.(authority := c.authority[f := (if f in c.authority then c.authority[f] else {}) + other.authority[f]]);
      PairsExtended(before, f, other.authority[f]);
      todo := todo - {f};
      forall p ensures p in Pairs(c.authority)
                  <==> p in Pairs(self.authority) || (p in Pairs(other.authority) && p.0 !in todo) {}
    }
    assert Pairs(other.authority) == set p | p in Pairs(other.authority) && p.0 !in todo;
    if other.key < c.key {
      c := c.(key := other.key);
    }
  }

  lemma PairsExtended(a: Authority, f: Field, values: set<Value>)
    ensures var b := a[f := (if f in a then a[f] else {}) + values];
      forall p :: p in Pairs(b) <==> p in Pairs(a) || (p.0 == f && p.1 in values)
  {
    var b := a[f := (if f in a then a[f] else {}) + values];
    forall p ensures p in Pairs(b) <==> p in Pairs(a) || (p.0 == f && p.1 in values) {
      assert p == (p.0, p.1);
      assert p in Pairs(b) <==> p.0 in b && p.1 in b[p.0];
      assert p in Pairs(a) <==> p.0 in a && p.1 in a[p.0];
    }
  }
}
