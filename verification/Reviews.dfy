/** The review ledger: one publication's issues against the rows of earlier ones. */
module Reviews {
  import opened Prelude
  import opened Sorting
  import opened Types

  datatype Status = Open | Resolved

  datatype Candidate = Candidate(key: nat, severity: string, reason: string, subjects: string, summary: string)

  datatype Review = Review(
    id: Id, key: nat, occurrence: int, status: Status,
    severity: string, reason: string, subjects: string, summary: string,
    openedAt: int, resolved: Option<int>, changed: int, version: int)

  // ---- the row operations ----

  function OpenRow(c: Candidate, occurrence: int, revision: int, id: Id): Review {
    Review.Review(id, c.key, occurrence, Open, c.severity, c.reason, c.subjects, c.summary, revision, None, revision, 1)
  }

  predicate Matches(r: Review, c: Candidate) {
    r.severity == c.severity && r.reason == c.reason && r.subjects == c.subjects && r.summary == c.summary
  }

  function UpdateRow(r: Review, c: Candidate, revision: int): Review {
    r.(severity := c.severity, reason := c.reason, subjects := c.subjects, summary := c.summary,
       changed := revision, version := r.version + 1)
  }

  function ResolveRow(r: Review, revision: int): Review {
    r.(status := Resolved, resolved := Some(revision), changed := revision, version := r.version + 1)
  }

  /** The last row of a key with the greatest occurrence. */
  function Latest(reviews: seq<Review>, key: nat): (i: Option<nat>)
    ensures i.Some? ==> i.value < |reviews| && reviews[i.value].key == key
    ensures i.Some? ==> forall j | 0 <= j < |reviews| && reviews[j].key == key ::
      reviews[j].occurrence <= reviews[i.value].occurrence
    ensures i.None? ==> forall j | 0 <= j < |reviews| :: reviews[j].key != key
  {
    if reviews == [] then None
    else
      var n := |reviews| - 1;
      var before := Latest(reviews[..n], key);
      if reviews[n].key == key && (before.None?
        || reviews[before.value].occurrence <= reviews[n].occurrence) then Some(n)
      else before
  }

  function CandidateRank(c: Candidate): seq<int> { [c.key] }
  function ReviewRank(r: Review): seq<int> { [r.key, r.occurrence] }

  type Supply = nat -> Id

  /** The ledger and the ids drawn while candidates are taken in. */
  datatype Progress = Progress(rows: seq<Review>, drawn: nat)

  function Take(p: Progress, c: Candidate, revision: int, supply: Supply): Progress {
    match Latest(p.rows, c.key)
    case Some(i) =>
      if p.rows[i].status.Open? then
        if Matches(p.rows[i], c) then p else p.(rows := p.rows[i := UpdateRow(p.rows[i], c, revision)])
      else Progress(p.rows + [OpenRow(c, p.rows[i].occurrence + 1, revision, supply(p.drawn))], p.drawn + 1)
    case None => Progress(p.rows + [OpenRow(c, 1, revision, supply(p.drawn))], p.drawn + 1)
  }

  /** Takes in the first candidate of every key. */
  function TakeAll(p: Progress, seen: set<nat>, todo: seq<Candidate>, revision: int, supply: Supply): Progress
    decreases |todo|
  {
    if todo == [] then p
    else if todo[0].key in seen then TakeAll(p, seen, todo[1..], revision, supply)
    else TakeAll(Take(p, todo[0], revision, supply), seen + {todo[0].key}, todo[1..], revision, supply)
  }

  function Keys(candidates: seq<Candidate>): set<nat> {
    set c | c in candidates :: c.key
  }

  /** Closes an open row whose issue is gone. */
  function Close(active: set<nat>, revision: int): Review -> Review {
    (r: Review) => if r.status.Open? && r.key !in active then ResolveRow(r, revision) else r
  }

  function Taken(previous: seq<Review>, current: seq<Candidate>, revision: int, supply: Supply): Progress {
    TakeAll(Progress(previous, 0), {}, SortBy(current, CandidateRank), revision, supply)
  }

  /** The rows after a publication, before they are put in order. */
  function Closed(previous: seq<Review>, current: seq<Candidate>, revision: int, supply: Supply): seq<Review> {
    Map(Taken(previous, current, revision, supply).rows, Close(Keys(current), revision))
  }

  function Reconciled(previous: seq<Review>, current: seq<Candidate>, revision: int, supply: Supply): seq<Review> {
    SortBy(Closed(previous, current, revision, supply), ReviewRank)
  }

  // ---- as it runs ----

  method FindLatest(reviews: seq<Review>, key: nat) returns (latest: Option<nat>)
    ensures latest == Latest(reviews, key)
  {
    latest := None;
    for i := 0 to |reviews|
      invariant latest == Latest(reviews[..i], key)
    {
      assert reviews[..i + 1][..i] == reviews[..i];
      if reviews[i].key == key && (latest.None? || reviews[latest.value].occurrence <= reviews[i].occurrence) {
        latest := Some(i);
      }
    }
    assert reviews[..|reviews|] == reviews;
  }

  /** Takes one candidate in: updates the open row, or opens the next occurrence. */
  method TakeCandidate(reviews: seq<Review>, drawn: nat, c: Candidate, revision: int, supply: Supply)
    returns (next: seq<Review>, n: nat)
    ensures Progress(next, n) == Take(Progress(reviews, drawn), c, revision, supply)
  {
    next, n := reviews, drawn;
    var latest := FindLatest(reviews, c.key);
    if latest.Some? && reviews[latest.value].status.Open? {
      if !Matches(reviews[latest.value], c) {
        next := reviews[latest.value := UpdateRow(reviews[latest.value], c, revision)];
      }
    } else {
      var occurrence := if latest.Some? then reviews[latest.value].occurrence + 1 else 1;
      next, n := reviews + [OpenRow(c, occurrence, revision, supply(drawn))], drawn + 1;
    }
  }

  method TakeCandidates(previous: seq<Review>, current: seq<Candidate>, revision: int, supply: Supply)
    returns (reviews: seq<Review>, drawn: nat)
    ensures Progress(reviews, drawn) == Taken(previous, current, revision, supply)
  {
    reviews, drawn := previous, 0;
    var sorted := SortBy(current, CandidateRank);
    var seen: set<nat> := {};
    for i := 0 to |sorted|
      invariant TakeAll(Progress(reviews, drawn), seen, sorted[i..], revision, supply)
        == Taken(previous, current, revision, supply)
    {
      var c := sorted[i];
      assert sorted[i..][0] == c && sorted[i..][1..] == sorted[i + 1..];
      if c.key !in seen {
        seen := seen + {c.key};
        reviews, drawn := TakeCandidate(reviews, drawn, c, revision, supply);
      }
    }
    assert sorted[|sorted|..] == [];
  }

  method CloseRows(reviews: seq<Review>, active: set<nat>, revision: int) returns (closed: seq<Review>)
    ensures closed == Map(reviews, Close(active, revision))
  {
    closed := reviews;
    for i := 0 to |reviews|
      invariant |closed| == |reviews|
      invariant forall j | 0 <= j < i :: closed[j] == Close(active, revision)(reviews[j])
      invariant forall j | i <= j < |reviews| :: closed[j] == reviews[j]
    {
      if closed[i].status.Open? && closed[i].key !in active {
        closed := closed[i := ResolveRow(closed[i], revision)];
      }
    }
  }

  /** Reconciles the ledger with the current issues: updates, reopens and resolves rows in place. */
  method Reconcile(previous: seq<Review>, current: seq<Candidate>, revision: int, supply: Supply)
    returns (reviews: seq<Review>, drawn: nat)
    ensures reviews == Reconciled(previous, current, revision, supply)
    ensures drawn == Taken(previous, current, revision, supply).drawn
  {
    reviews, drawn := TakeCandidates(previous, current, revision, supply);
    var active := set c | c in current :: c.key;
    reviews := CloseRows(reviews, active, revision);
    reviews := SortBy(reviews, ReviewRank);
  }

  // ---- the ledger invariant ----

  ghost predicate OncePerOccurrence(rows: seq<Review>) {
    forall i: nat, j: nat {:trigger rows[i], rows[j]} | i < j < |rows| && rows[i].key == rows[j].key ::
      rows[i].occurrence != rows[j].occurrence
  }

  ghost predicate HasOccurrence(rows: seq<Review>, key: nat, occurrence: int) {
    exists j: nat :: j < |rows| && rows[j].key == key && rows[j].occurrence == occurrence
  }

  ghost predicate Counted(rows: seq<Review>, all: seq<Review>) {
    forall i: nat {:trigger rows[i]} | i < |rows| ::
      1 <= rows[i].occurrence && (1 < rows[i].occurrence ==> HasOccurrence(all, rows[i].key, rows[i].occurrence - 1))
  }

  ghost predicate OnlyLastOpen(rows: seq<Review>) {
    forall i: nat, j: nat {:trigger rows[i], rows[j]} | i < |rows| && j < |rows| && rows[i].status.Open?
      && rows[i].key == rows[j].key ::
      rows[j].occurrence <= rows[i].occurrence
  }

  /** Per key the occurrences are 1, 2, ..., each once, and only the last may be open. */
  ghost predicate LedgerValid(rows: seq<Review>) {
    OncePerOccurrence(rows) && Counted(rows, rows) && OnlyLastOpen(rows)
  }

  /** How one row may change in a publication: resolved rows never, open rows keep their identity, and
      the version rises exactly when something changed. */
  ghost predicate Evolves(before: Review, after: Review, revision: int) {
    && (before.status.Resolved? ==> after == before)
    && after.id == before.id && after.key == before.key && after.occurrence == before.occurrence
      && after.openedAt == before.openedAt
    && (after == before || (after.version == before.version + 1 && after.changed == revision))
  }

  /** The rows of `before` evolve in place; later rows are new. */
  ghost predicate Grows(before: seq<Review>, after: seq<Review>, revision: int) {
    && |before| <= |after|
    && (forall i | 0 <= i < |before| :: Evolves(before[i], after[i], revision))
    && (forall i | |before| <= i < |after| :: after[i].openedAt == revision)
  }

  /** The latest row of `c`'s key is open and says what `c` says. */
  ghost predicate Shows(rows: seq<Review>, c: Candidate) {
    exists i | 0 <= i < |rows| :: rows[i].key == c.key && rows[i].status.Open? && Matches(rows[i], c)
  }

  /** The same rows, up to what a publication may change while they stay open. */
  ghost predicate SameSlots(before: seq<Review>, after: seq<Review>) {
    |before| == |after| && forall i: nat {:trigger after[i]} | i < |before| ::
      after[i].key == before[i].key && after[i].occurrence == before[i].occurrence
        && (after[i].status.Open? ==> before[i].status.Open?)
  }

  lemma SlotHas(before: seq<Review>, after: seq<Review>, key: nat, occurrence: int)
    requires SameSlots(before, after) && HasOccurrence(before, key, occurrence)
    ensures HasOccurrence(after, key, occurrence)
  {
    var j: nat :| j < |before| && before[j].key == key && before[j].occurrence == occurrence;
    assert after[j].key == key && after[j].occurrence == occurrence;
  }

  lemma SlotsOnce(before: seq<Review>, after: seq<Review>)
    requires SameSlots(before, after) && OncePerOccurrence(before)
    ensures OncePerOccurrence(after)
  {
  }

  lemma SlotsCounted(before: seq<Review>, after: seq<Review>)
    requires SameSlots(before, after) && Counted(before, before)
    ensures Counted(after, after)
  {
    forall i: nat | i < |after|
      ensures 1 <= after[i].occurrence
        && (1 < after[i].occurrence ==> HasOccurrence(after, after[i].key, after[i].occurrence - 1))
    {
      assert 1 <= before[i].occurrence;
      if 1 < after[i].occurrence { SlotHas(before, after, after[i].key, after[i].occurrence - 1); }
    }
  }

  lemma SlotsLastOpen(before: seq<Review>, after: seq<Review>)
    requires SameSlots(before, after) && OnlyLastOpen(before)
    ensures OnlyLastOpen(after)
  {
    forall i: nat, j: nat | i < |after| && j < |after| && after[i].status.Open? && after[i].key == after[j].key
      ensures after[j].occurrence <= after[i].occurrence
    {
      assert before[j].occurrence <= before[i].occurrence;
    }
  }

  lemma SlotsValid(before: seq<Review>, after: seq<Review>)
    requires SameSlots(before, after) && LedgerValid(before)
    ensures LedgerValid(after)
  {
    SlotsOnce(before, after);
    SlotsCounted(before, after);
    SlotsLastOpen(before, after);
  }

  lemma PushValid(rows: seq<Review>, r: Review)
    requires LedgerValid(rows) && 1 <= r.occurrence
    requires forall j: nat {:trigger rows[j]} | j < |rows| && rows[j].key == r.key ::
      rows[j].occurrence < r.occurrence && rows[j].status.Resolved?
    requires 1 < r.occurrence ==> HasOccurrence(rows, r.key, r.occurrence - 1)
    ensures LedgerValid(rows + [r])
  {
    PushCounted(rows, r);
    PushOnce(rows, r);
    PushLastOpen(rows, r);
  }

  lemma PushOnce(rows: seq<Review>, r: Review)
    requires OncePerOccurrence(rows)
    requires forall j: nat {:trigger rows[j]} | j < |rows| && rows[j].key == r.key :: rows[j].occurrence < r.occurrence
    ensures OncePerOccurrence(rows + [r])
  {
    var after := rows + [r];
    forall i: nat, j: nat | i < j < |after| && after[i].key == after[j].key
      ensures after[i].occurrence != after[j].occurrence {
      assert after[i] == rows[i] && (j < |rows| ==> after[j] == rows[j]);
    }
  }

  lemma PushLastOpen(rows: seq<Review>, r: Review)
    requires OnlyLastOpen(rows)
    requires forall j: nat {:trigger rows[j]} | j < |rows| && rows[j].key == r.key ::
      rows[j].occurrence < r.occurrence && rows[j].status.Resolved?
    ensures OnlyLastOpen(rows + [r])
  {
    var after := rows + [r];
    forall i: nat, j: nat | i < |after| && j < |after| && after[i].status.Open? && after[i].key == after[j].key
      ensures after[j].occurrence <= after[i].occurrence
    {
      assert (i < |rows| ==> after[i] == rows[i]) && (j < |rows| ==> after[j] == rows[j]);
    }
  }

  lemma PushCounted(rows: seq<Review>, r: Review)
    requires Counted(rows, rows) && 1 <= r.occurrence
      && (1 < r.occurrence ==> HasOccurrence(rows, r.key, r.occurrence - 1))
    ensures Counted(rows + [r], rows + [r])
  {
    var after := rows + [r];
    forall i: nat | i < |after|
      ensures 1 <= after[i].occurrence
        && (1 < after[i].occurrence ==> HasOccurrence(after, after[i].key, after[i].occurrence - 1))
    {
      var row := after[i];
      assert i < |rows| ==> row == rows[i];
      if 1 < row.occurrence {
        var j: nat :| j < |rows| && rows[j].key == row.key && rows[j].occurrence == row.occurrence - 1;
        assert after[j] == rows[j];
      }
    }
  }

  lemma UpdateValid(rows: seq<Review>, i: nat, c: Candidate, revision: int)
    requires LedgerValid(rows) && i < |rows|
    ensures LedgerValid(rows[i := UpdateRow(rows[i], c, revision)])
  {
    SlotsValid(rows, rows[i := UpdateRow(rows[i], c, revision)]);
  }

  /** With the latest row resolved, every row of the key is. */
  lemma ResolvedKey(rows: seq<Review>, i: nat, j: nat)
    requires LedgerValid(rows) && i < |rows| && j < |rows| && rows[i].key == rows[j].key && rows[i].status.Resolved?
    requires forall k | 0 <= k < |rows| && rows[k].key == rows[i].key :: rows[k].occurrence <= rows[i].occurrence
    ensures rows[j].status.Resolved?
  {
  }

  /** The row opened after the latest one of its key. */
  function NextRow(rows: seq<Review>, c: Candidate, revision: int, id: Id): Review {
    var latest := Latest(rows, c.key);
    OpenRow(c, if latest.Some? then rows[latest.value].occurrence + 1 else 1, revision, id)
  }

  lemma NextRowFollows(rows: seq<Review>, c: Candidate, revision: int, id: Id)
    requires LedgerValid(rows) && var i := Latest(rows, c.key); i.None? || rows[i.value].status.Resolved?
    ensures var r := NextRow(rows, c, revision, id);
      forall j: nat | j < |rows| && rows[j].key == r.key ::
        rows[j].occurrence < r.occurrence && rows[j].status.Resolved?
  {
    var r := NextRow(rows, c, revision, id);
    forall j: nat | j < |rows| && rows[j].key == r.key
      ensures rows[j].occurrence < r.occurrence && rows[j].status.Resolved? {
      ResolvedKey(rows, Latest(rows, c.key).value, j);
    }
  }

  lemma NextRowCounted(rows: seq<Review>, c: Candidate, revision: int, id: Id)
    requires Counted(rows, rows)
    ensures var r := NextRow(rows, c, revision, id);
      1 <= r.occurrence && (1 < r.occurrence ==> HasOccurrence(rows, r.key, r.occurrence - 1))
  {
    var latest := Latest(rows, c.key);
    if latest.Some? {
      assert 1 <= rows[latest.value].occurrence;
      assert HasOccurrence(rows, c.key, rows[latest.value].occurrence);
    }
  }

  lemma TakeOpens(p: Progress, c: Candidate, revision: int, supply: Supply)
    requires LedgerValid(p.rows) && var i := Latest(p.rows, c.key); i.None? || p.rows[i.value].status.Resolved?
    ensures LedgerValid(Take(p, c, revision, supply).rows)
  {
    NextRowFollows(p.rows, c, revision, supply(p.drawn));
    NextRowCounted(p.rows, c, revision, supply(p.drawn));
    PushValid(p.rows, NextRow(p.rows, c, revision, supply(p.drawn)));
  }

  lemma TakeValid(p: Progress, c: Candidate, revision: int, supply: Supply)
    requires LedgerValid(p.rows)
    ensures LedgerValid(Take(p, c, revision, supply).rows)
  {
    var latest := Latest(p.rows, c.key);
    if latest.Some? && p.rows[latest.value].status.Open? {
      UpdateValid(p.rows, latest.value, c, revision);
    } else {
      TakeOpens(p, c, revision, supply);
    }
  }

  lemma TakeShows(p: Progress, c: Candidate, revision: int, supply: Supply)
    ensures Shows(Take(p, c, revision, supply).rows, c)
  {
    var after := Take(p, c, revision, supply).rows;
    var latest := Latest(p.rows, c.key);
    var i := if latest.Some? && p.rows[latest.value].status.Open? then latest.value else |p.rows|;
    assert after[i].key == c.key && after[i].status.Open? && Matches(after[i], c);
  }

  lemma TakeKeepsOthers(p: Progress, c: Candidate, revision: int, supply: Supply, d: Candidate)
    requires d.key != c.key
    ensures Shows(p.rows, d) ==> Shows(Take(p, c, revision, supply).rows, d)
  {
    if i :| 0 <= i < |p.rows| && p.rows[i].key == d.key && p.rows[i].status.Open? && Matches(p.rows[i], d) {
      assert Take(p, c, revision, supply).rows[i] == p.rows[i];
    }
  }

  // ---- a whole publication ----

  lemma {:induction false} TakeAllValid(p: Progress, seen: set<nat>, todo: seq<Candidate>, revision: int,
      supply: Supply)
    requires LedgerValid(p.rows)
    ensures LedgerValid(TakeAll(p, seen, todo, revision, supply).rows)
    decreases |todo|
  {
    if todo != [] {
      if todo[0].key in seen {
        TakeAllValid(p, seen, todo[1..], revision, supply);
      } else {
        TakeValid(p, todo[0], revision, supply);
        TakeAllValid(Take(p, todo[0], revision, supply), seen + {todo[0].key}, todo[1..], revision, supply);
      }
    }
  }

  /** The candidate of a key that the ledger follows: the first in order. */
  function FirstOf(todo: seq<Candidate>, key: nat): Option<Candidate> {
    if todo == [] then None else if todo[0].key == key then Some(todo[0]) else FirstOf(todo[1..], key)
  }

  lemma {:induction false} TakeAllKeeps(p: Progress, seen: set<nat>, todo: seq<Candidate>, revision: int,
      supply: Supply, d: Candidate)
    requires Shows(p.rows, d) && d.key in seen
    ensures Shows(TakeAll(p, seen, todo, revision, supply).rows, d)
    decreases |todo|
  {
    if todo != [] {
      if todo[0].key in seen {
        TakeAllKeeps(p, seen, todo[1..], revision, supply, d);
      } else {
        TakeKeepsOthers(p, todo[0], revision, supply, d);
        TakeAllKeeps(Take(p, todo[0], revision, supply), seen + {todo[0].key}, todo[1..], revision, supply, d);
      }
    }
  }

  lemma {:induction false} TakeAllShows(p: Progress, seen: set<nat>, todo: seq<Candidate>, revision: int,
      supply: Supply, key: nat)
    requires key !in seen && FirstOf(todo, key).Some?
    ensures Shows(TakeAll(p, seen, todo, revision, supply).rows, FirstOf(todo, key).value)
    decreases |todo|
  {
    if todo[0].key in seen {
      TakeAllShows(p, seen, todo[1..], revision, supply, key);
    } else {
      var next := Take(p, todo[0], revision, supply);
      if todo[0].key == key {
        TakeShows(p, todo[0], revision, supply);
        TakeAllKeeps(next, seen + {key}, todo[1..], revision, supply, todo[0]);
      } else {
        TakeAllShows(next, seen + {todo[0].key}, todo[1..], revision, supply, key);
      }
    }
  }

  /** The rows of a run of takes evolve step by step; each open row is touched at most once, by the
      one candidate of its key. */
  ghost predicate Untouched(before: seq<Review>, rows: seq<Review>, seen: set<nat>) {
    |before| <= |rows| && forall i: nat {:trigger rows[i]} | i < |before| && before[i].key !in seen ::
      rows[i] == before[i]
  }

  lemma TakeUntouched(before: seq<Review>, p: Progress, seen: set<nat>, c: Candidate, revision: int, supply: Supply)
    requires Untouched(before, p.rows, seen)
    requires forall i: nat {:trigger p.rows[i]} | i < |before| :: p.rows[i].key == before[i].key
    ensures Untouched(before, Take(p, c, revision, supply).rows, seen + {c.key})
  {
  }

  lemma TakeEvolves(before: seq<Review>, p: Progress, seen: set<nat>, c: Candidate, revision: int, supply: Supply)
    requires Grows(before, p.rows, revision) && Untouched(before, p.rows, seen) && c.key !in seen
    ensures Grows(before, Take(p, c, revision, supply).rows, revision)
  {
    var after := Take(p, c, revision, supply).rows;
    forall i: nat | i < |before| ensures Evolves(before[i], after[i], revision) {
      assert p.rows[i].key == before[i].key;
      if before[i].key == c.key { assert p.rows[i] == before[i]; } else { assert after[i] == p.rows[i]; }
    }
  }

  lemma {:induction false} TakeAllEvolves(before: seq<Review>, p: Progress, seen: set<nat>, todo: seq<Candidate>,
      revision: int, supply: Supply)
    requires Grows(before, p.rows, revision) && Untouched(before, p.rows, seen)
    ensures Grows(before, TakeAll(p, seen, todo, revision, supply).rows, revision)
    ensures Untouched(before, TakeAll(p, seen, todo, revision, supply).rows, seen + Keys(todo))
    decreases |todo|
  {
    if todo != [] {
      assert Keys(todo) == {todo[0].key} + Keys(todo[1..]) by { assert todo == [todo[0]] + todo[1..]; }
      if todo[0].key in seen {
        TakeAllEvolves(before, p, seen, todo[1..], revision, supply);
        assert seen + Keys(todo[1..]) == seen + Keys(todo);
      } else {
        TakeEvolves(before, p, seen, todo[0], revision, supply);
        TakeUntouched(before, p, seen, todo[0], revision, supply);
        TakeAllEvolves(before, Take(p, todo[0], revision, supply), seen + {todo[0].key}, todo[1..], revision, supply);
        assert (seen + {todo[0].key}) + Keys(todo[1..]) == seen + Keys(todo);
      }
    }
  }

  lemma SortedKeys(current: seq<Candidate>)
    ensures Keys(SortBy(current, CandidateRank)) == Keys(current)
  {
    SortElements(current, CandidateRank);
  }

  lemma {:induction false} FirstExists(todo: seq<Candidate>, key: nat)
    ensures FirstOf(todo, key).Some? <==> key in Keys(todo)
    ensures FirstOf(todo, key).Some? ==> FirstOf(todo, key).value in todo && FirstOf(todo, key).value.key == key
  {
    if todo != [] {
      FirstExists(todo[1..], key);
      assert todo == [todo[0]] + todo[1..];
    }
  }

  lemma CloseSlots(rows: seq<Review>, active: set<nat>, revision: int)
    ensures SameSlots(rows, Map(rows, Close(active, revision)))
  {
  }

  lemma PermutedValid(rows: seq<Review>, sorted: seq<Review>)
    requires LedgerValid(rows) && multiset(rows) == multiset(sorted)
    ensures LedgerValid(sorted)
  {
    SameMultisetSameElements(rows, sorted);
    assert Distinct(rows);
    DistinctPermuted(rows, sorted);
    forall i: nat, j: nat | i < |sorted| && j < |sorted| ensures RowsAgree(rows, sorted[i], sorted[j]) {
      AgreeInValid(rows, sorted[i], sorted[j]);
    }
    PermutedOnce(rows, sorted);
    PermutedCounted(rows, sorted);
  }

  /** What validity says of two rows of a ledger. */
  ghost predicate RowsAgree(rows: seq<Review>, r: Review, q: Review) {
    && (r.key == q.key && r.occurrence == q.occurrence ==> r == q)
    && (r.key == q.key && r.status.Open? ==> q.occurrence <= r.occurrence)
  }

  lemma AgreeInValid(rows: seq<Review>, r: Review, q: Review)
    requires LedgerValid(rows) && r in rows && q in rows
    ensures RowsAgree(rows, r, q)
  {
    var i: nat :| i < |rows| && rows[i] == r;
    var j: nat :| j < |rows| && rows[j] == q;
    assert i < j && rows[i].key == rows[j].key ==> rows[i].occurrence != rows[j].occurrence;
    assert j < i && rows[j].key == rows[i].key ==> rows[j].occurrence != rows[i].occurrence;
    assert rows[i].status.Open? && rows[i].key == rows[j].key ==> rows[j].occurrence <= rows[i].occurrence;
  }

  lemma PermutedOnce(rows: seq<Review>, sorted: seq<Review>)
    requires Distinct(sorted)
    requires forall i: nat, j: nat | i < |sorted| && j < |sorted| :: RowsAgree(rows, sorted[i], sorted[j])
    ensures OncePerOccurrence(sorted) && OnlyLastOpen(sorted)
  {
    forall i: nat, j: nat | i < j < |sorted| && sorted[i].key == sorted[j].key
      ensures sorted[i].occurrence != sorted[j].occurrence {
      assert RowsAgree(rows, sorted[i], sorted[j]) && sorted[i] != sorted[j];
    }
    forall i: nat, j: nat | i < |sorted| && j < |sorted| && sorted[i].status.Open? && sorted[i].key == sorted[j].key
      ensures sorted[j].occurrence <= sorted[i].occurrence
    {
      assert RowsAgree(rows, sorted[i], sorted[j]);
    }
  }

  lemma PermutedCounted(rows: seq<Review>, sorted: seq<Review>)
    requires Counted(rows, rows) && (forall r | r in rows :: r in sorted) && (forall r | r in sorted :: r in rows)
    ensures Counted(sorted, sorted)
  {
    forall i: nat | i < |sorted|
      ensures 1 <= sorted[i].occurrence
        && (1 < sorted[i].occurrence ==> HasOccurrence(sorted, sorted[i].key, sorted[i].occurrence - 1))
    {
      var r := sorted[i];
      assert r in sorted;
      var k: nat :| k < |rows| && rows[k] == r;
      assert 1 <= rows[k].occurrence
        && (1 < rows[k].occurrence ==> HasOccurrence(rows, rows[k].key, rows[k].occurrence - 1));
      if 1 < r.occurrence {
        var j: nat :| j < |rows| && rows[j].key == r.key && rows[j].occurrence == r.occurrence - 1;
        assert rows[j] in sorted;
        var m: nat :| m < |sorted| && sorted[m] == rows[j];
      }
    }
  }

  // ---- the theorems ----

  /** Every publication keeps the ledger invariant. */
  lemma ReconcileKeepsValid(previous: seq<Review>, current: seq<Candidate>, revision: int, supply: Supply)
    requires LedgerValid(previous)
    ensures LedgerValid(Reconciled(previous, current, revision, supply))
  {
    var taken := Taken(previous, current, revision, supply).rows;
    TakeAllValid(Progress(previous, 0), {}, SortBy(current, CandidateRank), revision, supply);
    CloseSlots(taken, Keys(current), revision);
    SlotsValid(taken, Closed(previous, current, revision, supply));
    SortMultiset(Closed(previous, current, revision, supply), ReviewRank);
    PermutedValid(Closed(previous, current, revision, supply), Reconciled(previous, current, revision, supply));
  }

  /** Resolved rows never change again, open rows keep their identity, and a row's version rises by
      one exactly when the row changed. */
  lemma ReconcileEvolves(previous: seq<Review>, current: seq<Candidate>, revision: int, supply: Supply)
    ensures Grows(previous, Closed(previous, current, revision, supply), revision)
    ensures multiset(Reconciled(previous, current, revision, supply))
      == multiset(Closed(previous, current, revision, supply))
  {
    var taken := Taken(previous, current, revision, supply).rows;
    TakeAllEvolves(previous, Progress(previous, 0), {}, SortBy(current, CandidateRank), revision, supply);
    SortedKeys(current);
    var closed := Closed(previous, current, revision, supply);
    forall i: nat | i < |previous| ensures Evolves(previous[i], closed[i], revision) {
      assert taken[i].key == previous[i].key;
      if previous[i].key !in Keys(current) {
        assert previous[i].key !in {} + Keys(current);
        assert taken[i] == previous[i];
      }
    }
    SortMultiset(closed, ReviewRank);
  }

  lemma CloseShows(rows: seq<Review>, active: set<nat>, revision: int, c: Candidate)
    requires Shows(rows, c) && c.key in active
    ensures Shows(Map(rows, Close(active, revision)), c)
  {
    var i :| 0 <= i < |rows| && rows[i].key == c.key && rows[i].status.Open? && Matches(rows[i], c);
    assert Map(rows, Close(active, revision))[i] == rows[i];
  }

  lemma SortShows(rows: seq<Review>, c: Candidate)
    requires Shows(rows, c)
    ensures Shows(SortBy(rows, ReviewRank), c)
  {
    SortElements(rows, ReviewRank);
    var i :| 0 <= i < |rows| && rows[i].key == c.key && rows[i].status.Open? && Matches(rows[i], c);
    var sorted := SortBy(rows, ReviewRank);
    assert rows[i] in sorted;
    var j :| 0 <= j < |sorted| && sorted[j] == rows[i];
  }

  /** Each current issue has an open row that says what its first candidate says. */
  lemma ReconcileShows(previous: seq<Review>, current: seq<Candidate>, revision: int, supply: Supply, key: nat)
    requires key in Keys(current)
    ensures FirstOf(SortBy(current, CandidateRank), key).Some?
    ensures Shows(Reconciled(previous, current, revision, supply), FirstOf(SortBy(current, CandidateRank), key).value)
  {
    var sorted := SortBy(current, CandidateRank);
    SortedKeys(current);
    FirstExists(sorted, key);
    var c := FirstOf(sorted, key).value;
    TakeAllShows(Progress(previous, 0), {}, sorted, revision, supply, key);
    CloseShows(Taken(previous, current, revision, supply).rows, Keys(current), revision, c);
    SortShows(Closed(previous, current, revision, supply), c);
  }

  ghost function OpenKeys(rows: seq<Review>): set<nat> {
    set r | r in rows && r.status.Open? :: r.key
  }

  /** The open keys are exactly the keys of the current issues. */
  lemma OpenKeysAreCurrent(previous: seq<Review>, current: seq<Candidate>, revision: int, supply: Supply)
    ensures OpenKeys(Reconciled(previous, current, revision, supply)) == Keys(current)
  {
    var rows, closed := Reconciled(previous, current, revision, supply), Closed(previous, current, revision, supply);
    SortElements(closed, ReviewRank);
    forall r | r in rows && r.status.Open? ensures r.key in Keys(current) {
      var i :| 0 <= i < |closed| && closed[i] == r;
    }
    forall key | key in Keys(current) ensures key in OpenKeys(rows) {
      ReconcileShows(previous, current, revision, supply, key);
      FirstExists(SortBy(current, CandidateRank), key);
      var c := FirstOf(SortBy(current, CandidateRank), key).value;
      var i :| 0 <= i < |rows| && rows[i].key == c.key && rows[i].status.Open? && Matches(rows[i], c);
      assert rows[i] in rows;
    }
  }

  // ---- nothing new ----

  lemma ShownIsLatest(rows: seq<Review>, c: Candidate)
    requires LedgerValid(rows) && Shows(rows, c)
    ensures var i := Latest(rows, c.key); i.Some? && rows[i.value].status.Open? && Matches(rows[i.value], c)
  {
    var k: nat :| k < |rows| && rows[k].key == c.key && rows[k].status.Open? && Matches(rows[k], c);
    var i := Latest(rows, c.key).value;
    assert rows[i].occurrence <= rows[k].occurrence && rows[k].occurrence <= rows[i].occurrence;
    assert i == k;
  }

  lemma {:induction false} TakeNothing(p: Progress, seen: set<nat>, todo: seq<Candidate>, revision: int, supply: Supply)
    requires LedgerValid(p.rows)
    requires forall key | key in Keys(todo) && key !in seen ::
      FirstOf(todo, key).Some? && Shows(p.rows, FirstOf(todo, key).value)
    ensures TakeAll(p, seen, todo, revision, supply) == p
    decreases |todo|
  {
    if todo != [] {
      assert todo == [todo[0]] + todo[1..];
      forall key | key in Keys(todo[1..]) && key !in seen && key != todo[0].key
        ensures FirstOf(todo[1..], key).Some? && Shows(p.rows, FirstOf(todo[1..], key).value)
      {
        assert key in Keys(todo) && FirstOf(todo, key) == FirstOf(todo[1..], key);
      }
      if todo[0].key in seen {
        TakeNothing(p, seen, todo[1..], revision, supply);
      } else {
        assert todo[0].key in Keys(todo) && FirstOf(todo, todo[0].key) == Some(todo[0]);
        ShownIsLatest(p.rows, todo[0]);
        TakeNothing(p, seen + {todo[0].key}, todo[1..], revision, supply);
      }
    }
  }

  /** Reconciling with the same issues again changes no row and draws no id. */
  lemma ReconcileAgain(previous: seq<Review>, current: seq<Candidate>, revision: int, supply: Supply, later: int,
      next: Supply)
    requires LedgerValid(previous)
    ensures var rows := Reconciled(previous, current, revision, supply);
      Reconciled(rows, current, later, next) == rows && Taken(rows, current, later, next).drawn == 0
  {
    var rows, sorted := Reconciled(previous, current, revision, supply), SortBy(current, CandidateRank);
    ReconcileKeepsValid(previous, current, revision, supply);
    SortedKeys(current);
    forall key | key in Keys(sorted) ensures FirstOf(sorted, key).Some? && Shows(rows, FirstOf(sorted, key).value) {
      ReconcileShows(previous, current, revision, supply, key);
    }
    TakeNothing(Progress(rows, 0), {}, sorted, later, next);
    OpenKeysAreCurrent(previous, current, revision, supply);
    forall i | 0 <= i < |rows| ensures Close(Keys(current), later)(rows[i]) == rows[i] {
      assert rows[i] in rows;
      assert rows[i].status.Open? ==> rows[i].key in OpenKeys(rows);
    }
    assert Map(rows, Close(Keys(current), later)) == rows;
    SortSorted(Closed(previous, current, revision, supply), ReviewRank);
    SortIdempotent(rows, ReviewRank);
  }

  // ---- over whole runs ----

  /** What one publication brings to the ledger. */
  datatype Round = Round(issues: seq<Candidate>, revision: int, supply: Supply)

  function Played(rows: seq<Review>, round: Round): seq<Review> {
    Reconciled(rows, round.issues, round.revision, round.supply)
  }

  function RunRounds(rows: seq<Review>, rounds: seq<Round>): seq<Review>
    decreases |rounds|
  {
    if rounds == [] then rows else RunRounds(Played(rows, rounds[0]), rounds[1..])
  }

  lemma {:induction false} RunKeepsValid(rows: seq<Review>, rounds: seq<Round>)
    requires LedgerValid(rows)
    ensures LedgerValid(RunRounds(rows, rounds))
    decreases |rounds|
  {
    if rounds != [] {
      ReconcileKeepsValid(rows, rounds[0].issues, rounds[0].revision, rounds[0].supply);
      RunKeepsValid(Played(rows, rounds[0]), rounds[1..]);
    }
  }

  lemma {:induction false} RunAppend(rows: seq<Review>, rounds: seq<Round>, more: seq<Round>)
    ensures RunRounds(rows, rounds + more) == RunRounds(RunRounds(rows, rounds), more)
    decreases |rounds|
  {
    if rounds == [] {
      assert rounds + more == more;
    } else {
      assert (rounds + more)[1..] == rounds[1..] + more;
      RunAppend(Played(rows, rounds[0]), rounds[1..], more);
    }
  }

  /** How many occurrences of a key the ledger holds. */
  function Top(rows: seq<Review>, key: nat): int {
    var latest := Latest(rows, key);
    if latest.Some? then rows[latest.value].occurrence else 0
  }

  lemma {:induction false} OccurrencesDown(rows: seq<Review>, key: nat, top: int, n: int)
    requires Counted(rows, rows) && HasOccurrence(rows, key, top) && 1 <= n <= top
    ensures HasOccurrence(rows, key, n)
    decreases top - n
  {
    if n < top {
      OccurrencesDown(rows, key, top, n + 1);
      var i: nat :| i < |rows| && rows[i].key == key && rows[i].occurrence == n + 1;
      assert 1 < rows[i].occurrence;
    }
  }

  /** The occurrences of a key are 1, 2, … up to the top, each in one row. */
  lemma OccurrencesCount(rows: seq<Review>, key: nat, n: int)
    requires LedgerValid(rows)
    ensures HasOccurrence(rows, key, n) <==> 1 <= n <= Top(rows, key)
    ensures forall i: nat, j: nat | i < |rows| && j < |rows| && rows[i].key == rows[j].key
      && rows[i].occurrence == rows[j].occurrence :: i == j
  {
    var latest := Latest(rows, key);
    if latest.Some? {
      assert HasOccurrence(rows, key, Top(rows, key));
      if 1 <= n <= Top(rows, key) { OccurrencesDown(rows, key, Top(rows, key), n); }
    }
    if HasOccurrence(rows, key, n) {
      var i: nat :| i < |rows| && rows[i].key == key && rows[i].occurrence == n;
      assert 1 <= rows[i].occurrence;
    }
  }

  lemma ResolvedStays(rows: seq<Review>, round: Round, r: Review)
    requires r in rows && r.status.Resolved?
    ensures r in Played(rows, round)
  {
    var closed := Closed(rows, round.issues, round.revision, round.supply);
    ReconcileEvolves(rows, round.issues, round.revision, round.supply);
    var i: nat :| i < |rows| && rows[i] == r;
    assert Evolves(rows[i], closed[i], round.revision);
    assert closed[i] == r;
    SortElements(closed, ReviewRank);
  }

  /** A row resolved at any time is the same row in every later ledger. */
  lemma {:induction false} ResolvedForever(rows: seq<Review>, rounds: seq<Round>, r: Review)
    requires r in rows && r.status.Resolved?
    ensures r in RunRounds(rows, rounds)
    decreases |rounds|
  {
    if rounds != [] {
      ResolvedStays(rows, rounds[0], r);
      ResolvedForever(Played(rows, rounds[0]), rounds[1..], r);
    }
  }

  /** Over every run from no reviews: the occurrences of a key are 1 to some k, rows once resolved
      stay as they are, and the open keys are those of the last issues. */
  lemma RunFromEmpty(rounds: seq<Round>, later: seq<Round>, key: nat, n: int, r: Review)
    ensures LedgerValid(RunRounds([], rounds))
    ensures HasOccurrence(RunRounds([], rounds), key, n) <==> 1 <= n <= Top(RunRounds([], rounds), key)
    ensures r in RunRounds([], rounds) && r.status.Resolved? ==> r in RunRounds([], rounds + later)
    ensures rounds != [] ==> OpenKeys(RunRounds([], rounds)) == Keys(rounds[|rounds| - 1].issues)
  {
    RunKeepsValid([], rounds);
    OccurrencesCount(RunRounds([], rounds), key, n);
    RunAppend([], rounds, later);
    if r in RunRounds([], rounds) && r.status.Resolved? {
      ResolvedForever(RunRounds([], rounds), later, r);
    }
    if rounds != [] { LastRoundOpens([], rounds); }
  }

  lemma OneRound(rows: seq<Review>, round: Round)
    ensures RunRounds(rows, [round]) == Played(rows, round)
  {
    assert [round][1..] == [];
    assert RunRounds(Played(rows, round), []) == Played(rows, round);
  }

  lemma LastRound(rows: seq<Review>, rounds: seq<Round>)
    requires rounds != []
    ensures RunRounds(rows, rounds) == Played(RunRounds(rows, rounds[..|rounds| - 1]), rounds[|rounds| - 1])
  {
    var first, last := rounds[..|rounds| - 1], rounds[|rounds| - 1];
    assert rounds == first + [last];
    RunAppend(rows, first, [last]);
    OneRound(RunRounds(rows, first), last);
  }

  lemma LastRoundOpens(rows: seq<Review>, rounds: seq<Round>)
    requires rounds != []
    ensures OpenKeys(RunRounds(rows, rounds)) == Keys(rounds[|rounds| - 1].issues)
  {
    var last := rounds[|rounds| - 1];
    LastRound(rows, rounds);
    OpenKeysAreCurrent(RunRounds(rows, rounds[..|rounds| - 1]), last.issues, last.revision, last.supply);
  }
}
