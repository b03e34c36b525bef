/** Candidate channels: when two records match on one, and the blocking keys that find such pairs. */
module Candidates {
  import opened Prelude
  import opened Sorting
  import opened Types

  datatype ChannelKind = Exact | CompositeExact | Prefix | Token

  datatype Channel = Channel(id: string, kind: ChannelKind, fields: seq<string>, prefixLength: Option<nat>,
      tokenMinLength: Option<nat>)

  type Plan = seq<Channel>

  /** A normalized field value. Bytes and code points are both kept as integers. */
  datatype Normalized = Normalized(record: Id, sortKey: Key, field: string, text: string, bytes: seq<int>)

  datatype CandidateError =
    | PlanInvalid | LimitsInvalid | RecordsInvalid | RepeatedMember | CountOverflow | BlockLimit | TotalLimit

  datatype Limits = Limits(maxBlockRecords: nat, maxPairs: nat)

  // ---- plans ----

  predicate ChannelValid(c: Channel) {
    && c.id != "" && c.fields != [] && "" !in c.fields
    && (if c.kind.CompositeExact? then Distinct(c.fields) else |c.fields| == 1)
    && (c.kind.Prefix? ==> c.prefixLength.Some? && c.prefixLength.value > 0)
    && (c.kind.Token? ==> c.tokenMinLength.Some? && c.tokenMinLength.value > 0)
  }

  predicate PlanValid(plan: Plan) {
    && (forall i | 0 <= i < |plan| :: ChannelValid(plan[i]))
    && (forall i, j | 0 <= i < j < |plan| :: plan[i].id != plan[j].id)
  }

  // ---- records ----

  /** What the records are asked for: one value per field, one sort key per record, one record per sort key. */
  predicate ValuesValid(values: seq<Normalized>) {
    && (forall i, j | 0 <= i < j < |values| ::
      values[i].record == values[j].record ==> values[i].field != values[j].field)
    && (forall i, j | 0 <= i < j < |values| ::
      values[i].record == values[j].record <==> values[i].sortKey == values[j].sortKey)
  }

  /** The first value of a record's field. */
  function FieldValue(values: seq<Normalized>, record: Id, field: string): (v: Option<Normalized>)
    ensures v.Some? ==> v.value in values && v.value.record == record && v.value.field == field
    ensures v.None? ==> forall w | w in values && w.record == record :: w.field != field
  {
    if values == [] then None
    else if values[0].record == record && values[0].field == field then Some(values[0])
    else FieldValue(values[1..], record, field)
  }

  lemma ValueIs(values: seq<Normalized>, v: Normalized)
    requires ValuesValid(values) && v in values
    ensures FieldValue(values, v.record, v.field) == Some(v)
  {
    var found := FieldValue(values, v.record, v.field);
    var i :| 0 <= i < |values| && values[i] == v;
    var j :| 0 <= j < |values| && values[j] == found.value;
  }

  // ---- words ----

  type Spaces = char -> bool

  function TakeWord(s: string, space: Spaces): (n: nat)
    ensures n <= |s|
  {
    if s == [] || space(s[0]) then 0 else 1 + TakeWord(s[1..], space)
  }

  /** The maximal runs of characters that are not white space. */
  function Words(s: string, space: Spaces): seq<string>
    decreases |s|
  {
    if s == [] then []
    else if space(s[0]) then Words(s[1..], space)
    else
      var n := TakeWord(s, space);
      [s[..n]] + Words(s[n..], space)
  }

  function Tokens(s: string, minLength: nat, space: Spaces): seq<string> {
    Filter(Words(s, space), (w: string) => |w| >= minLength)
  }

  // ---- the specification: when a channel matches two records ----

  /** Both records have the field and the values pass the test. */
  predicate OnField(values: seq<Normalized>, field: string, a: Id, b: Id, test: (Normalized, Normalized) -> bool) {
    var left, right := FieldValue(values, a, field), FieldValue(values, b, field);
    left.Some? && right.Some? && test(left.value, right.value)
  }

  function Take(s: string, n: nat): string {
    if |s| <= n then s else s[..n]
  }

  predicate Matches(c: Channel, values: seq<Normalized>, space: Spaces, a: Id, b: Id)
    requires ChannelValid(c)
  {
    match c.kind
    case Exact => OnField(values, c.fields[0], a, b, SameBytes)
    case CompositeExact => forall f | f in c.fields :: OnField(values, f, a, b, SameBytes)
    case Prefix => OnField(values, c.fields[0], a, b, SamePrefix(c.prefixLength.value))
    case Token => OnField(values, c.fields[0], a, b, ShareToken(c.tokenMinLength.value, space))
  }

  const SameBytes: (Normalized, Normalized) -> bool := (v: Normalized, w: Normalized) => v.bytes == w.bytes

  function SamePrefix(n: nat): (Normalized, Normalized) -> bool {
    (v: Normalized, w: Normalized) => Take(v.text, n) == Take(w.text, n)
  }

  function ShareToken(n: nat, space: Spaces): (Normalized, Normalized) -> bool {
    (v: Normalized, w: Normalized) => exists t :: t in Tokens(v.text, n, space) && t in Tokens(w.text, n, space)
  }

  // ---- blocking keys ----

  type BlockKey = seq<int>

  function TextKey(s: string): BlockKey {
    Map(s, (c: char) => c as int)
  }

  lemma TextKeyInjective(s: string, t: string)
    requires TextKey(s) == TextKey(t)
    ensures s == t
  {
    forall i | 0 <= i < |s| ensures s[i] == t[i] {
      assert TextKey(s)[i] == TextKey(t)[i];
    }
  }

  const WORD: nat := 0x1_0000_0000

  /** A length as four big-endian bytes, reduced to 32 bits. */
  function Header(n: nat): (h: seq<int>)
    ensures |h| == 4
  {
    var m := n % WORD;
    [m / 256 / 256 / 256, m / 256 / 256 % 256, m / 256 % 256, m % 256]
  }

  lemma HeaderInjective(m: nat, n: nat)
    requires m < WORD && n < WORD && Header(m) == Header(n)
    ensures m == n
  {
    var h, k := Header(m), Header(n);
    assert m % WORD == m && n % WORD == n;
    assert h[0] == k[0] && h[1] == k[1];
    assert m / 256 / 256 == n / 256 / 256;
    assert h[2] == k[2];
    assert m / 256 == n / 256;
    assert h[3] == k[3];
  }

  /** The fields' bytes one after another, each behind its length. */
  function Join(parts: seq<seq<int>>): BlockKey {
    if parts == [] then [] else Header(|parts[0]|) + parts[0] + Join(parts[1..])
  }

  ghost predicate Short(parts: seq<seq<int>>) {
    forall p | p in parts :: |p| < WORD
  }

  /** Composite keys tell apart any two lists of fields shorter than 2^32 bytes. */
  lemma {:induction false} JoinInjective(a: seq<seq<int>>, b: seq<seq<int>>)
    requires |a| == |b| && Short(a) && Short(b) && Join(a) == Join(b)
    ensures a == b
  {
    if a != [] {
      var x, y := Join(a), Join(b);
      assert x[..4] == Header(|a[0]|) && y[..4] == Header(|b[0]|);
      assert a[0] in a && b[0] in b;
      HeaderInjective(|a[0]|, |b[0]|);
      assert x[4..4 + |a[0]|] == a[0] && y[4..4 + |b[0]|] == b[0];
      assert x[4 + |a[0]|..] == Join(a[1..]) && y[4 + |b[0]|..] == Join(b[1..]);
      JoinInjective(a[1..], b[1..]);
      assert a == [a[0]] + a[1..] && b == [b[0]] + b[1..];
    }
  }

  function Zeros(n: nat): seq<int> {
    seq(n, i => 0)
  }

  /** From 2^32 bytes on, the reduced length no longer separates the fields. */
  lemma LongFieldsCollide()
    ensures Join([Zeros(WORD), []]) == Join([[], Zeros(WORD)])
    ensures [Zeros(WORD), []] != [[], Zeros(WORD)]
  {
    var long := Zeros(WORD);
    var zero: seq<int> := [0, 0, 0, 0];
    assert Header(WORD) == zero && Header(0) == zero;
    JoinTwo(long, []);
    JoinTwo([], long);
    assert zero + long == long + zero;
    assert |[long, []][0]| != |[[], long][0]|;
  }

  ghost predicate AtMost(parts: seq<seq<int>>, limit: nat) {
    forall p | p in parts :: |p| <= limit
  }

  ghost predicate JoinSeparates(limit: nat) {
    forall a, b | |a| == |b| && AtMost(a, limit) && AtMost(b, limit) && Join(a) == Join(b) :: a == b
  }

  /** Composite keys separate lists of fields exactly when every field is shorter than 2^32 bytes. */
  lemma JoinSeparatesExactly(limit: nat)
    ensures JoinSeparates(limit) <==> limit < WORD
  {
    if limit < WORD {
      forall a, b | |a| == |b| && AtMost(a, limit) && AtMost(b, limit) && Join(a) == Join(b) ensures a == b {
        JoinInjective(a, b);
      }
    } else {
      LongFieldsCollide();
      assert AtMost([Zeros(WORD), []], limit) && AtMost([[], Zeros(WORD)], limit);
    }
  }

  lemma JoinTwo(a: seq<int>, b: seq<int>)
    ensures Join([a, b]) == Header(|a|) + a + Header(|b|) + b
  {
    assert [a, b][1..] == [b];
    assert [b][1..] == [];
    assert Join([b]) == Header(|b|) + b;
  }

  function FieldBytes(values: seq<Normalized>, record: Id, fields: seq<string>): seq<seq<int>>
    requires forall f | f in fields :: FieldValue(values, record, f).Some?
  {
    if fields == [] then []
    else [FieldValue(values, record, fields[0]).value.bytes] + FieldBytes(values, record, fields[1..])
  }

  function TokenKeys(s: string, minLength: nat, space: Spaces): set<BlockKey> {
    set t | t in Tokens(s, minLength, space) :: TextKey(t)
  }

  /** The keys of one value on a channel over one field. */
  function ValueKeys(c: Channel, v: Normalized, space: Spaces): set<BlockKey>
    requires ChannelValid(c)
  {
    match c.kind
    case Exact => {v.bytes}
    case CompositeExact => {}
    case Prefix => {TextKey(Take(v.text, c.prefixLength.value))}
    case Token => TokenKeys(v.text, c.tokenMinLength.value, space)
  }

  /** The blocks a record belongs to. */
  function BlockKeys(c: Channel, values: seq<Normalized>, space: Spaces, record: Id): set<BlockKey>
    requires ChannelValid(c)
  {
    if c.kind.CompositeExact? then
      if forall f | f in c.fields ::
        FieldValue(values, record, f).Some? then {Join(FieldBytes(values, record, c.fields))} else {}
    else
      match FieldValue(values, record, c.fields[0])
      case None => {}
      case Some(v) => ValueKeys(c, v, space)
  }

  ghost predicate ShortValues(values: seq<Normalized>) {
    forall v | v in values :: |v.bytes| < WORD
  }

  // ---- sharing a block is matching ----

  lemma FieldBytesAt(values: seq<Normalized>, record: Id, fields: seq<string>)
    requires forall f | f in fields :: FieldValue(values, record, f).Some?
    ensures |FieldBytes(values, record, fields)| == |fields|
    ensures forall i | 0 <= i < |fields| ::
      FieldBytes(values, record, fields)[i] == FieldValue(values, record, fields[i]).value.bytes
  {
  }

  lemma FieldBytesShort(values: seq<Normalized>, record: Id, fields: seq<string>)
    requires ShortValues(values) && forall f | f in fields :: FieldValue(values, record, f).Some?
    ensures Short(FieldBytes(values, record, fields))
  {
    FieldBytesAt(values, record, fields);
    var parts := FieldBytes(values, record, fields);
    forall p | p in parts ensures |p| < WORD {
      var i :| 0 <= i < |parts| && parts[i] == p;
      assert fields[i] in fields;
    }
  }

  predicate HasAll(values: seq<Normalized>, fields: seq<string>, record: Id) {
    forall f | f in fields :: FieldValue(values, record, f).Some?
  }

  lemma CompositeShared(values: seq<Normalized>, fields: seq<string>, a: Id, b: Id)
    requires ShortValues(values) && HasAll(values, fields, a) && HasAll(values, fields, b)
    ensures Join(FieldBytes(values, a, fields)) == Join(FieldBytes(values, b, fields))
       <==> forall f | f in fields :: OnField(values, f, a, b, SameBytes)
  {
    var x, y := FieldBytes(values, a, fields), FieldBytes(values, b, fields);
    FieldBytesAt(values, a, fields);
    FieldBytesAt(values, b, fields);
    FieldBytesShort(values, a, fields);
    FieldBytesShort(values, b, fields);
    if Join(x) == Join(y) {
      JoinInjective(x, y);
      forall f | f in fields ensures OnField(values, f, a, b, SameBytes) {
        var i :| 0 <= i < |fields| && fields[i] == f;
        assert x[i] == y[i];
      }
    }
    if forall f | f in fields :: OnField(values, f, a, b, SameBytes) {
      forall i | 0 <= i < |fields| ensures x[i] == y[i] {
        assert OnField(values, fields[i], a, b, SameBytes);
      }
      assert x == y;
    }
  }

  lemma TokensShared(v: Normalized, w: Normalized, n: nat, space: Spaces)
    ensures TokenKeys(v.text, n, space) * TokenKeys(w.text, n, space) != {} <==> ShareToken(n, space)(v, w)
  {
    var x, y := TokenKeys(v.text, n, space), TokenKeys(w.text, n, space);
    if x * y != {} {
      var k :| k in x * y;
      var s :| s in Tokens(v.text, n, space) && TextKey(s) == k;
      var t :| t in Tokens(w.text, n, space) && TextKey(t) == k;
      TextKeyInjective(s, t);
    }
    if ShareToken(n, space)(v, w) {
      var t :| t in Tokens(v.text, n, space) && t in Tokens(w.text, n, space);
      assert TextKey(t) in x * y;
    }
  }

  lemma ValuesShared(c: Channel, v: Normalized, w: Normalized, space: Spaces)
    requires ChannelValid(c) && !c.kind.CompositeExact?
    ensures ValueKeys(c, v, space) * ValueKeys(c, w, space) != {} <==>
      match c.kind
      case Exact => v.bytes == w.bytes
      case Prefix => SamePrefix(c.prefixLength.value)(v, w)
      case Token => ShareToken(c.tokenMinLength.value, space)(v, w)
  {
    match c.kind
    case Exact =>
      assert v.bytes == w.bytes ==> v.bytes in ValueKeys(c, v, space) * ValueKeys(c, w, space);
    case Prefix =>
      var s, t := Take(v.text, c.prefixLength.value), Take(w.text, c.prefixLength.value);
      assert TextKey(s) == TextKey(t) ==> TextKey(s) in ValueKeys(c, v, space) * ValueKeys(c, w, space);
      if TextKey(s) == TextKey(t) { TextKeyInjective(s, t); }
    case Token =>
      TokensShared(v, w, c.tokenMinLength.value, space);
  }

  /** Two records share a block on a channel exactly when the channel matches them. */
  lemma SharedBlockIsMatch(c: Channel, values: seq<Normalized>, space: Spaces, a: Id, b: Id)
    requires ChannelValid(c) && ShortValues(values)
    ensures BlockKeys(c, values, space, a) * BlockKeys(c, values, space, b) != {} <==> Matches(c, values, space, a, b)
  {
    if c.kind.CompositeExact? {
      if HasAll(values, c.fields, a) && HasAll(values, c.fields, b) {
        CompositeShared(values, c.fields, a, b);
        var k := Join(FieldBytes(values, a, c.fields));
        assert k == Join(FieldBytes(values, b, c.fields)) ==>
          k in BlockKeys(c, values, space, a) * BlockKeys(c, values, space, b);
      } else {
        var f :| f in c.fields && (FieldValue(values, a, f).None? || FieldValue(values, b, f).None?);
        assert !OnField(values, f, a, b, SameBytes);
      }
    } else {
      var v, w := FieldValue(values, a, c.fields[0]), FieldValue(values, b, c.fields[0]);
      if v.Some? && w.Some? { ValuesShared(c, v.value, w.value, space); }
    }
  }
}
