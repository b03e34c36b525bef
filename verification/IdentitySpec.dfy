/** One publication of the stable-identity ledger, as a function from the old books to the new. */
module IdentitySpec {
  import opened Prelude
  import opened Sorting
  import opened Types
  import opened ResolverSpec

  type Revision = int

  datatype Status = Active | Merged | Split | Retired

  datatype IdentityRecord = IdentityRecord(id: Id, created: Revision, retired: Option<Revision>, status: Status)

  datatype Member = Member(record: Id, key: Key, identity: Id, active: bool,
                           first: Revision, last: Revision, reason: string, changed: Revision)

  datatype Alias = Alias(source: Id, target: Id, revision: Revision)

  datatype Branch = Branch(parent: Id, child: Id, revision: Revision)

  /** The four tables, each by its primary key. */
  datatype Books = Books(registry: map<Id, IdentityRecord>, members: map<Id, Member>, aliases: set<Alias>,
      splits: set<Branch>)

  /** The resolver's rows by record. */
  type Resolved = map<Id, Membership>

  /** The allocator: the ids it hands out, in order. */
  type Supply = nat -> Id

  /** What one publication is given: the resolver's rows, its revision and an allocator. */
  datatype Publication = Publication(rows: Resolved, revision: Revision, supply: Supply)

  // ---- continuity: which old identity each component keeps ----

  /** An active member that the resolver still knows. */
  predicate Standing(b: Books, rows: Resolved, r: Id) {
    r in b.members && b.members[r].active && r in rows
  }

  function AnchorRank(m: Member): seq<int> { [m.first, m.key, m.record] }

  /** `r` is the standing member of `x` that decides which component may keep `x`. */
  ghost predicate IsAnchor(b: Books, rows: Resolved, x: Id, r: Id) {
    && Standing(b, rows, r) && b.members[r].identity == x
    && forall s | Standing(b, rows, s) && b.members[s].identity == x ::
      LexLe(AnchorRank(b.members[r]), AnchorRank(b.members[s]))
  }

  ghost predicate Anchored(b: Books, rows: Resolved, x: Id, k: Key) {
    x in b.registry && exists r :: IsAnchor(b, rows, x, r) && rows[r].component == k
  }

  function IdentityRank(row: IdentityRecord): seq<int> { [row.created, row.id] }

  /** Of the identities anchored in component `k`, `x` is the oldest. */
  ghost predicate IsClaimant(b: Books, rows: Resolved, k: Key, x: Id) {
    && Anchored(b, rows, x, k)
    && forall y | Anchored(b, rows, y, k) :: LexLe(IdentityRank(b.registry[x]), IdentityRank(b.registry[y]))
  }

  ghost predicate Claimed(b: Books, rows: Resolved, k: Key) {
    exists x :: IsClaimant(b, rows, k, x)
  }

  function ComponentsOf(rows: Resolved): set<Key> {
    set r | r in rows :: rows[r].component
  }

  /** The components below `k` that need a new id. */
  ghost function NewBelow(b: Books, rows: Resolved, k: Key): set<Key> {
    set j | j in ComponentsOf(rows) && j < k && !Claimed(b, rows, j)
  }

  /** New ids are drawn in the order of the component keys. */
  ghost function IdOf(b: Books, rows: Resolved, supply: Supply, k: Key): Id {
    if Claimed(b, rows, k) then var x: Id :| IsClaimant(b, rows, k, x); x
    else supply(|NewBelow(b, rows, k)|)
  }

  ghost function NewComponents(b: Books, rows: Resolved): set<Key> {
    set k | k in ComponentsOf(rows) && !Claimed(b, rows, k)
  }

  /** The ids drawn are pairwise different and unknown to the registry. */
  ghost predicate Fresh(b: Books, rows: Resolved, supply: Supply) {
    var n := |NewComponents(b, rows)|;
    && (forall i: nat | i < n :: supply(i) !in b.registry)
    && (forall i: nat, j: nat | i < j < n :: supply(i) != supply(j))
  }

  ghost function Assigned(b: Books, rows: Resolved, supply: Supply): map<Key, Id> {
    map k | k in ComponentsOf(rows) :: IdOf(b, rows, supply, k)
  }

  // ---- what becomes of each row ----

  /** Where the standing members of `x` go. */
  function Successors(b: Books, rows: Resolved, a: map<Key, Id>, x: Id): set<Id>
    requires a.Keys == ComponentsOf(rows)
  {
    set r | r in b.members && Standing(b, rows, r) && b.members[r].identity == x :: a[rows[r].component]
  }

  function NextIdentity(row: IdentityRecord, next: set<Id>, revision: Revision): IdentityRecord {
    if next == {} then row.(status := Retired, retired := Some(revision))
    else if row.id in next then row.(status := Active, retired := None)
    else if |next| == 1 then row.(status := Merged, retired := Some(revision))
    else row.(status := Split, retired := Some(revision))
  }

  function NextRegistry(b: Books, rows: Resolved, a: map<Key, Id>, revision: Revision): map<Id, IdentityRecord>
    requires a.Keys == ComponentsOf(rows)
  {
    map x | x in b.registry.Keys + a.Values ::
      if x !in b.registry then IdentityRecord(x, revision, None, Active)
      else if b.registry[x].status.Active? then NextIdentity(b.registry[x], Successors(b, rows, a, x), revision)
      else b.registry[x]
  }

  function NextMember(m: Member, row: Option<Membership>, id: Id, revision: Revision): Member {
    match row
    case Some(w) =>
      if !m.active || m.identity != id then
        m.(identity := id, active := true, key := w.key, last := revision, changed := revision,
           reason := if m.active then "reconciled" else "reactivated")
      else m.(key := w.key)
    case None =>
      if m.active then m.(active := false, last := revision, changed := revision, reason := "removed") else m
  }

  function NextMembers(b: Books, rows: Resolved, a: map<Key, Id>, revision: Revision): map<Id, Member>
    requires a.Keys == ComponentsOf(rows)
  {
    map r | r in b.members.Keys + rows.Keys ::
      if r !in b.members then
        Member(r, rows[r].key, a[rows[r].component], true, revision, revision, "new", revision)
      else if r in rows then NextMember(b.members[r], Some(rows[r]), a[rows[r].component], revision)
      else NextMember(b.members[r], None, 0, revision)
  }

  function NewAliases(b: Books, rows: Resolved, a: map<Key, Id>, revision: Revision): set<Alias>
    requires a.Keys == ComponentsOf(rows)
  {
    set x, c | x in (set r | r in b.members :: b.members[r].identity) && c in a.Values
        && Successors(b, rows, a, x) == {c} && c != x
        && !exists known | known in b.aliases :: known.source == x && known.target == c
      :: Alias(x, c, revision)
  }

  function NewSplits(b: Books, rows: Resolved, a: map<Key, Id>, revision: Revision): set<Branch>
    requires a.Keys == ComponentsOf(rows)
  {
    set x, c | x in (set r | r in b.members :: b.members[r].identity) && c in a.Values
        && |Successors(b, rows, a, x)| > 1 && c in Successors(b, rows, a, x)
      :: Branch(x, c, revision)
  }

  function Published(b: Books, rows: Resolved, a: map<Key, Id>, revision: Revision): Books
    requires a.Keys == ComponentsOf(rows)
  {
    Books(NextRegistry(b, rows, a, revision), NextMembers(b, rows, a, revision),
          b.aliases + NewAliases(b, rows, a, revision), b.splits + NewSplits(b, rows, a, revision))
  }

  ghost function Next(b: Books, rows: Resolved, revision: Revision, supply: Supply): Books {
    Published(b, rows, Assigned(b, rows, supply), revision)
  }

  // ---- the checks made on the books ----

  ghost predicate MembersValid(b: Books) {
    forall r | r in b.members :: b.members[r].identity in b.registry
      && (b.members[r].active ==> b.registry[b.members[r].identity].status.Active?)
  }

  /** Rows are filed under their own keys. */
  ghost predicate Filed(b: Books) {
    && (forall x | x in b.registry :: b.registry[x].id == x)
    && (forall r | r in b.members :: b.members[r].record == r)
  }
}
