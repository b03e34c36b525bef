/** Blocks of channels over several fields: values are gathered by record first. */
module CompositeBlocking {
  import opened Prelude
  import opened Types
  import opened Candidates
  import opened Blocking

  type Gathered = map<string, Normalized>
  type Groups = map<Id, Gathered>

  function Entry(groups: Groups, id: Id, field: string): Option<Normalized> {
    if id in groups && field in groups[id] then Some(groups[id][field]) else None
  }

  /** A gathered entry is the record's value of one of the channel's fields. */
  ghost predicate GathersAt(fields: seq<string>, values: seq<Normalized>, groups: Groups, id: Id, field: string) {
    Entry(groups, id, field) == if field in fields then FieldValue(values, id, field) else None
  }

  ghost predicate Gathers(fields: seq<string>, values: seq<Normalized>, groups: Groups) {
    && (forall id | id in groups :: groups[id] != map[])
    && (forall id, field :: GathersAt(fields, values, groups, id, field))
  }

  lemma FieldValueAppend(values: seq<Normalized>, v: Normalized, id: Id, field: string)
    ensures FieldValue(values + [v], id, field) ==
      if FieldValue(values, id, field).Some? then FieldValue(values, id, field)
      else if v.record == id && v.field == field then Some(v) else None
  {
    if values == [] {
      assert values + [v] == [v];
      assert [v][1..] == [];
    } else {
      assert (values + [v])[1..] == values[1..] + [v];
      FieldValueAppend(values[1..], v, id, field);
    }
  }

  lemma GathersMore(fields: seq<string>, values: seq<Normalized>, groups: Groups, v: Normalized)
    requires Gathers(fields, values, groups) && v.field in fields && Entry(groups, v.record, v.field).None?
    ensures var group := if v.record in groups then groups[v.record] else map[];
      Gathers(fields, values + [v], groups[v.record := group[v.field := v]])
  {
    var group := if v.record in groups then groups[v.record] else map[];
    var after := groups[v.record := group[v.field := v]];
    forall id, field ensures GathersAt(fields, values + [v], after, id, field) {
      assert GathersAt(fields, values, groups, id, field);
      FieldValueAppend(values, v, id, field);
    }
    assert v.field in group[v.field := v];
  }

  lemma GathersSame(fields: seq<string>, values: seq<Normalized>, groups: Groups, v: Normalized)
    requires Gathers(fields, values, groups) && v.field !in fields
    ensures Gathers(fields, values + [v], groups)
  {
    forall id, field ensures GathersAt(fields, values + [v], groups, id, field) {
      assert GathersAt(fields, values, groups, id, field);
      FieldValueAppend(values, v, id, field);
    }
  }

  lemma FirstOfItsField(fields: seq<string>, values: seq<Normalized>, groups: Groups, i: nat)
    requires ValuesValid(values) && i < |values| && Gathers(fields, values[..i], groups)
    ensures Entry(groups, values[i].record, values[i].field).None?
  {
    var v := values[i];
    assert GathersAt(fields, values[..i], groups, v.record, v.field);
    forall w | w in values[..i] && w.record == v.record ensures w.field != v.field {
      var j :| 0 <= j < i && values[..i][j] == w;
      assert values[j].record == v.record;
    }
  }

  method Gather(fields: seq<string>, values: seq<Normalized>) returns (result: Result<Groups, CandidateError>)
    requires ValuesValid(values)
    ensures result.Ok? && Gathers(fields, values, result.value)
  {
    var groups: Groups := map[];
    assert values[..0] == [];
    assert forall id, field :: GathersAt(fields, [], groups, id, field);
    for i := 0 to |values|
      invariant Gathers(fields, values[..i], groups)
    {
      var v := values[i];
      assert values[..i + 1] == values[..i] + [v];
      if v.field in fields {
        var group: Gathered := if v.record in groups then groups[v.record] else map[];
        FirstOfItsField(fields, values, groups, i);
        if v.field in group {
          return Err(RecordsInvalid);
        }
        GathersMore(fields, values[..i], groups, v);
        groups := groups[v.record := group[v.field := v]];
      } else {
        GathersSame(fields, values[..i], groups, v);
      }
    }
    assert values[..|values|] == values;
    result := Ok(groups);
  }

  // ---- keys ----

  function PartsOf(group: Gathered, fields: seq<string>): seq<seq<int>>
    requires forall f | f in fields :: f in group
  {
    if fields == [] then [] else [group[fields[0]].bytes] + PartsOf(group, fields[1..])
  }

  /** Appends each field's bytes behind its length. */
  method CompositeKey(group: Gathered, fields: seq<string>) returns (key: BlockKey)
    requires forall f | f in fields :: f in group
    ensures key == Join(PartsOf(group, fields))
  {
    key := [];
    for i := 0 to |fields|
      invariant key + Join(PartsOf(group, fields[i..])) == Join(PartsOf(group, fields))
    {
      var bytes := group[fields[i]].bytes;
      NextPart(group, fields, i, key);
      key := key + Header(|bytes|) + bytes;
    }
  }

  lemma NextPart(group: Gathered, fields: seq<string>, i: nat, key: BlockKey)
    requires i < |fields| && forall f | f in fields :: f in group
    ensures var bytes := group[fields[i]].bytes;
      key + Join(PartsOf(group, fields[i..])) == key + Header(|bytes|) + bytes + Join(PartsOf(group, fields[i + 1..]))
  {
    assert fields[i..][0] == fields[i] && fields[i..][1..] == fields[i + 1..];
    var bytes := group[fields[i]].bytes;
    assert PartsOf(group, fields[i..]) == [bytes] + PartsOf(group, fields[i + 1..]);
    JoinHead(bytes, PartsOf(group, fields[i + 1..]));
  }

  lemma JoinHead(part: seq<int>, rest: seq<seq<int>>)
    ensures Join([part] + rest) == Header(|part|) + part + Join(rest)
  {
    assert ([part] + rest)[1..] == rest;
  }

  lemma PartsAreFieldBytes(fields: seq<string>, values: seq<Normalized>, groups: Groups, id: Id, some: seq<string>)
    requires Gathers(fields, values, groups) && id in groups && (forall f | f in some :: f in fields)
      && HasAll(values, some, id)
    ensures forall f | f in some :: f in groups[id]
    ensures PartsOf(groups[id], some) == FieldBytes(values, id, some)
  {
    forall f | f in some ensures f in groups[id] {
      assert GathersAt(fields, values, groups, id, f);
    }
    if some != [] {
      assert some[0] in some && GathersAt(fields, values, groups, id, some[0]);
      PartsAreFieldBytes(fields, values, groups, id, some[1..]);
    }
  }

  /** A record's group is complete exactly when the record has every field. */
  lemma CompleteGroup(fields: seq<string>, values: seq<Normalized>, groups: Groups, id: Id)
    requires Distinct(fields) && Gathers(fields, values, groups) && id in groups
    ensures |groups[id]| == |fields| <==> HasAll(values, fields, id)
  {
    var group := groups[id];
    forall f ensures f in group ==> f in fields {
      assert GathersAt(fields, values, groups, id, f);
    }
    forall f | f in fields ensures f in group <==> FieldValue(values, id, f).Some? {
      assert GathersAt(fields, values, groups, id, f);
    }
    DistinctSize(fields);
    assert group.Keys <= Elements(fields);
    SubsetFull(group.Keys, Elements(fields));
    if group.Keys == Elements(fields) {
      forall f | f in fields ensures FieldValue(values, id, f).Some? { assert f in group.Keys; }
    }
    if HasAll(values, fields, id) { assert group.Keys == Elements(fields); }
  }

  // ---- blocks ----

  /** The part of a block made of records in `done`. */
  ghost function DoneBlock(c: Channel, values: seq<Normalized>, space: Spaces, key: BlockKey, done: set<Id>): set<Ref>
    requires ChannelValid(c)
  {
    set r | r in Block(c, values, space, key) && r.id in done
  }

  ghost predicate HoldsDone(c: Channel, values: seq<Normalized>, space: Spaces, blocks: Blocks, done: set<Id>,
      key: BlockKey)
    requires ChannelValid(c)
  {
    Holds(blocks, key, DoneBlock(c, values, space, key, done))
  }

  ghost predicate DoneFilled(c: Channel, values: seq<Normalized>, space: Spaces, blocks: Blocks, done: set<Id>)
    requires ChannelValid(c)
  {
    && (forall key | key in blocks :: blocks[key] != [])
    && (forall key :: HoldsDone(c, values, space, blocks, done, key))
  }

  lemma DoneBlockGrows(c: Channel, values: seq<Normalized>, space: Spaces, key: BlockKey, done: set<Id>, r: Ref)
    requires ChannelValid(c) && ValuesValid(values) && r in Refs(values)
    ensures DoneBlock(c, values, space, key, done + {r.id})
         == DoneBlock(c, values, space, key, done) + if key in BlockKeys(c, values, space, r.id) then {r} else {}
  {
    var v :| v in values && RefOf(v) == r;
    forall s | s in Refs(values) && s.id == r.id ensures s == r {
      var w :| w in values && RefOf(w) == s;
      SameRecordSameRef(values, v, w);
    }
  }

  lemma DoneBlockSkips(c: Channel, values: seq<Normalized>, space: Spaces, key: BlockKey, done: set<Id>, id: Id)
    requires ChannelValid(c) && BlockKeys(c, values, space, id) == {}
    ensures DoneBlock(c, values, space, key, done + {id}) == DoneBlock(c, values, space, key, done)
  {
  }

  lemma DoneFilledSkips(c: Channel, values: seq<Normalized>, space: Spaces, blocks: Blocks, done: set<Id>, id: Id)
    requires ChannelValid(c) && DoneFilled(c, values, space, blocks, done) && BlockKeys(c, values, space, id) == {}
    ensures DoneFilled(c, values, space, blocks, done + {id})
  {
    forall key ensures HoldsDone(c, values, space, blocks, done + {id}, key) {
      assert HoldsDone(c, values, space, blocks, done, key);
      DoneBlockSkips(c, values, space, key, done, id);
    }
  }

  lemma DoneFilledGrows(c: Channel, values: seq<Normalized>, space: Spaces, blocks: Blocks, done: set<Id>, r: Ref,
      k: BlockKey)
    requires ChannelValid(c) && ValuesValid(values) && DoneFilled(c, values, space, blocks, done) && r in Refs(values)
    requires BlockKeys(c, values, space, r.id) == {k} && r.id !in done
    ensures forall m | m in Members(blocks, k) :: m.id != r.id
    ensures DoneFilled(c, values, space, blocks[k := Members(blocks, k) + [r]], done + {r.id})
  {
    var after := blocks[k := Members(blocks, k) + [r]];
    assert HoldsDone(c, values, space, blocks, done, k);
    forall m | m in Members(blocks, k) ensures m.id != r.id {
      assert m in Elements(Members(blocks, k));
    }
    forall key ensures HoldsDone(c, values, space, after, done + {r.id}, key) {
      assert HoldsDone(c, values, space, blocks, done, key);
      DoneBlockGrows(c, values, space, key, done, r);
      assert Members(after, key) == Members(blocks, key) + if key == k then [r] else [];
      HoldsMore(blocks, after, key, DoneBlock(c, values, space, key, done), r, key == k);
    }
  }

  lemma UngroupedHasNoKeys(c: Channel, values: seq<Normalized>, space: Spaces, groups: Groups, id: Id)
    requires ChannelValid(c) && c.kind.CompositeExact? && Gathers(c.fields, values, groups) && id !in groups
    ensures BlockKeys(c, values, space, id) == {}
  {
    assert c.fields[0] in c.fields;
    assert GathersAt(c.fields, values, groups, id, c.fields[0]);
  }

  lemma GroupKeys(c: Channel, values: seq<Normalized>, space: Spaces, groups: Groups, id: Id)
    requires ChannelValid(c) && c.kind.CompositeExact? && Gathers(c.fields, values, groups) && id in groups
    ensures |groups[id]| != |c.fields| ==> BlockKeys(c, values, space, id) == {}
    ensures |groups[id]| == |c.fields| ==>
      && (forall f | f in c.fields :: f in groups[id])
      && BlockKeys(c, values, space, id) == {Join(PartsOf(groups[id], c.fields))}
      && groups[id][c.fields[0]] in values && groups[id][c.fields[0]].record == id
  {
    CompleteGroup(c.fields, values, groups, id);
    if HasAll(values, c.fields, id) {
      PartsAreFieldBytes(c.fields, values, groups, id, c.fields);
      assert c.fields[0] in c.fields && GathersAt(c.fields, values, groups, id, c.fields[0]);
    }
  }

  lemma AllDone(c: Channel, values: seq<Normalized>, space: Spaces, groups: Groups, blocks: Blocks)
    requires ChannelValid(c) && c.kind.CompositeExact? && Gathers(c.fields, values, groups)
    requires DoneFilled(c, values, space, blocks, groups.Keys)
    ensures Filled(c, values, space, blocks)
  {
    forall key ensures HoldsBlock(c, values, space, blocks, key) {
      assert HoldsDone(c, values, space, blocks, groups.Keys, key);
      forall r | r in Block(c, values, space, key) ensures r.id in groups {
        if r.id !in groups { UngroupedHasNoKeys(c, values, space, groups, r.id); }
      }
      assert DoneBlock(c, values, space, key, groups.Keys) == Block(c, values, space, key);
    }
  }

  /** Composite channels: a record with every field goes into the block of its joined key. */
  method FillComposite(c: Channel, values: seq<Normalized>, space: Spaces)
    returns (result: Result<Blocks, CandidateError>)
    requires ChannelValid(c) && c.kind.CompositeExact? && ValuesValid(values)
    ensures result.Ok? && Filled(c, values, space, result.value)
  {
    var gathered := Gather(c.fields, values);
    if gathered.Err? {
      return Err(RecordsInvalid);
    }
    var groups := gathered.value;
    var blocks: Blocks := map[];
    var todo := groups.Keys;
    ghost var done: set<Id> := {};
    StartDone(c, values, space);
    while todo != {}
      invariant todo + done == groups.Keys && todo !! done
      invariant DoneFilled(c, values, space, blocks, done)
    {
      var id :| id in todo;
      GroupKeys(c, values, space, groups, id);
      if |groups[id]| == |c.fields| {
        var record := groups[id][c.fields[0]];
        var key := CompositeKey(groups[id], c.fields);
        assert RefOf(record) in Refs(values);
        DoneFilledGrows(c, values, space, blocks, done, RefOf(record), key);
        var next := AddBlock(blocks, key, RefOf(record));
        if next.Err? {
          return next;
        }
        blocks := next.value;
      } else {
        DoneFilledSkips(c, values, space, blocks, done, id);
      }
      todo, done := todo - {id}, done + {id};
    }
    assert done == groups.Keys;
    AllDone(c, values, space, groups, blocks);
    result := Ok(blocks);
  }

  lemma StartDone(c: Channel, values: seq<Normalized>, space: Spaces)
    requires ChannelValid(c)
    ensures DoneFilled(c, values, space, map[], {})
  {
    var none: Blocks := map[];
    forall key ensures HoldsDone(c, values, space, none, {}, key) {
      assert DoneBlock(c, values, space, key, {}) == {};
    }
  }
}
