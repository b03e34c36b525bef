/** The review ledger after a publication, row by row and in plain words. */
module ReviewLaws {
  import opened Prelude
  import opened Sorting
  import opened Types
  import opened Reviews

  /** The candidate of the key that comes first is at `i`. */
  predicate FirstWith(current: seq<Candidate>, key: nat, i: int) {
    0 <= i < |current| && current[i].key == key && forall j | 0 <= j < i :: current[j].key != key
  }

  predicate Raised(current: seq<Candidate>, key: nat) {
    exists i :: 0 <= i < |current| && current[i].key == key
  }

  predicate SaysSame(r: Review, c: Candidate) {
    r.severity == c.severity && r.reason == c.reason && r.subjects == c.subjects && r.summary == c.summary
  }

  /** `n` is an earlier row once `r` is an earlier one and `c` the issue's first candidate, if any. */
  predicate Follows(r: Review, n: Review, c: Option<Candidate>, revision: int) {
    n == if r.status == Resolved then r
         else if c.None? then
           Review.Review(r.id, r.key, r.occurrence, Resolved, r.severity, r.reason, r.subjects, r.summary,
             r.openedAt, Some(revision), revision, r.version + 1)
         else if SaysSame(r, c.value) then r
         else
           Review.Review(r.id, r.key, r.occurrence, Open, c.value.severity, c.value.reason, c.value.subjects,
             c.value.summary, r.openedAt, r.resolved, revision, r.version + 1)
  }

  /** The greatest occurrence of the issue so far, or 0. */
  predicate LastOccurrence(rows: seq<Review>, key: nat, n: int) {
    && (forall i | 0 <= i < |rows| && rows[i].key == key :: rows[i].occurrence <= n)
    && (if forall i | 0 <= i < |rows| :: rows[i].key != key then n == 0
        else exists i :: 0 <= i < |rows| && rows[i].key == key && rows[i].occurrence == n)
  }

  predicate HasOpen(rows: seq<Review>, key: nat) {
    exists i :: 0 <= i < |rows| && rows[i].key == key && rows[i].status == Open
  }

  /** A row opened for the candidate, one occurrence after the last. */
  ghost predicate OpenedFor(previous: seq<Review>, n: Review, c: Candidate, revision: int, id: Id) {
    exists last :: LastOccurrence(previous, c.key, last)
      && n == Review.Review(id, c.key, last + 1, Open, c.severity, c.reason, c.subjects, c.summary,
                revision, None, revision, 1)
  }

  // ---- what the takes have done so far ----

  /** The row once its issue is taken in, if it has been. */
  predicate Held(r: Review, n: Review, c: Candidate, seen: bool, revision: int) {
    n == if r.status == Resolved || !seen || SaysSame(r, c) then r
         else Review.Review(r.id, r.key, r.occurrence, Open, c.severity, c.reason, c.subjects, c.summary,
                r.openedAt, r.resolved, revision, r.version + 1)
  }

  type Pick = nat -> Candidate

  ghost predicate HeldAll(previous: seq<Review>, rows: seq<Review>, pick: Pick, seen: set<nat>, revision: int) {
    |previous| <= |rows| && forall i: nat {:trigger rows[i]} | i < |previous| ::
      Held(previous[i], rows[i], pick(previous[i].key), previous[i].key in seen, revision)
  }

  ghost predicate AddedAll(previous: seq<Review>, added: seq<Review>, pick: Pick, seen: set<nat>, revision: int,
      supply: Supply)
  {
    && (forall j: nat {:trigger added[j]} | j < |added| ::
          && OpenedFor(previous, added[j], pick(added[j].key), revision, supply(j))
          && added[j].key in seen && !HasOpen(previous, added[j].key))
    && (forall i: nat, j: nat {:trigger added[i], added[j]} | i < j < |added| :: added[i].key < added[j].key)
    && (forall key | key in seen && !HasOpen(previous, key) :: exists j: nat :: j < |added| && added[j].key == key)
  }

  ghost predicate Underway(previous: seq<Review>, p: Progress, pick: Pick, seen: set<nat>, revision: int,
      supply: Supply)
  {
    && HeldAll(previous, p.rows, pick, seen, revision)
    && |p.rows| == |previous| + p.drawn
    && AddedAll(previous, p.rows[|previous|..], pick, seen, revision, supply)
  }

  /** Until its issue is taken in, an issue's last row is where it was. */
  lemma LatestBefore(previous: seq<Review>, p: Progress, pick: Pick, seen: set<nat>, revision: int, supply: Supply,
      key: nat)
    requires Underway(previous, p, pick, seen, revision, supply) && key !in seen
    ensures forall i: nat | i < |p.rows| && p.rows[i].key == key :: i < |previous| && p.rows[i] == previous[i]
    ensures forall i: nat | i < |previous| && previous[i].key == key :: p.rows[i] == previous[i]
  {
    forall j: nat | |previous| <= j < |p.rows| ensures p.rows[j].key in seen {
      assert p.rows[|previous|..][j - |previous|] == p.rows[j];
    }
  }

  lemma OneOccurrence(rows: seq<Review>, i: nat, k: nat)
    requires OncePerOccurrence(rows) && i < |rows| && k < |rows|
    requires rows[i].key == rows[k].key && rows[i].occurrence == rows[k].occurrence
    ensures i == k
  {
  }

  lemma OneOpen(rows: seq<Review>, i: nat, k: nat)
    requires LedgerValid(rows) && i < |rows| && k < |rows|
    requires rows[i].key == rows[k].key && rows[i].status == Open == rows[k].status
    ensures i == k
  {
    assert rows[i].occurrence <= rows[k].occurrence <= rows[i].occurrence;
    OneOccurrence(rows, i, k);
  }

  lemma LatestIsOpen(previous: seq<Review>, p: Progress, pick: Pick, seen: set<nat>, revision: int, supply: Supply,
      key: nat, i: nat)
    requires LedgerValid(previous) && Underway(previous, p, pick, seen, revision, supply) && key !in seen
    requires i < |previous| && previous[i].key == key && previous[i].status == Open
    ensures Latest(p.rows, key) == Some(i)
  {
    LatestBefore(previous, p, pick, seen, revision, supply, key);
    assert p.rows[i] == previous[i];
    var k := Latest(p.rows, key).value;
    assert previous[k].occurrence <= previous[i].occurrence <= previous[k].occurrence;
    OneOccurrence(previous, i, k);
  }

  lemma HeldNext(previous: seq<Review>, rows: seq<Review>, next: seq<Review>, pick: Pick, seen: set<nat>, revision: int,
      c: Candidate)
    requires HeldAll(previous, rows, pick, seen, revision) && |rows| <= |next| && pick(c.key) == c
    requires forall k: nat | k < |previous| ::
      if previous[k].key == c.key && previous[k].status == Open then Held(previous[k], next[k], c, true, revision)
      else next[k] == rows[k]
    ensures HeldAll(previous, next, pick, seen + {c.key}, revision)
  {
    forall k: nat | k < |previous|
      ensures Held(previous[k], next[k], pick(previous[k].key), previous[k].key in seen + {c.key}, revision)
    {
      assert Held(previous[k], rows[k], pick(previous[k].key), previous[k].key in seen, revision);
    }
  }

  lemma AddedStay(previous: seq<Review>, added: seq<Review>, pick: Pick, seen: set<nat>, revision: int, supply: Supply,
      key: nat)
    requires AddedAll(previous, added, pick, seen, revision, supply) && HasOpen(previous, key)
    ensures AddedAll(previous, added, pick, seen + {key}, revision, supply)
  {
  }

  lemma TakesUpdate(previous: seq<Review>, p: Progress, pick: Pick, seen: set<nat>, revision: int, supply: Supply,
      c: Candidate, i: nat)
    requires LedgerValid(previous) && Underway(previous, p, pick, seen, revision, supply)
    requires c.key !in seen && pick(c.key) == c
    requires i < |previous| && previous[i].key == c.key && previous[i].status == Open
    ensures Underway(previous, Take(p, c, revision, supply), pick, seen + {c.key}, revision, supply)
  {
    LatestIsOpen(previous, p, pick, seen, revision, supply, c.key, i);
    LatestBefore(previous, p, pick, seen, revision, supply, c.key);
    var n := Take(p, c, revision, supply);
    assert n.rows[|previous|..] == p.rows[|previous|..];
    AddedStay(previous, p.rows[|previous|..], pick, seen, revision, supply, c.key);
    forall k: nat | k < |previous|
      ensures if previous[k].key == c.key && previous[k].status == Open
        then Held(previous[k], n.rows[k], c, true, revision) else n.rows[k] == p.rows[k]
    {
      if previous[k].key == c.key && previous[k].status == Open { OneOpen(previous, i, k); }
    }
    HeldNext(previous, p.rows, n.rows, pick, seen, revision, c);
  }

  lemma OpensNext(previous: seq<Review>, p: Progress, pick: Pick, seen: set<nat>, revision: int, supply: Supply,
      c: Candidate)
    requires Underway(previous, p, pick, seen, revision, supply) && c.key !in seen && !HasOpen(previous, c.key)
    ensures Latest(p.rows, c.key).None? || p.rows[Latest(p.rows, c.key).value].status.Resolved?
    ensures OpenedFor(previous, NextRow(p.rows, c, revision, supply(p.drawn)), c, revision, supply(p.drawn))
  {
    LatestBefore(previous, p, pick, seen, revision, supply, c.key);
    var latest := Latest(p.rows, c.key);
    var last := if latest.Some? then p.rows[latest.value].occurrence else 0;
    forall i | 0 <= i < |previous| && previous[i].key == c.key ensures previous[i].occurrence <= last {
      assert p.rows[i] == previous[i];
    }
    assert LastOccurrence(previous, c.key, last);
  }

  lemma TakesOpen(previous: seq<Review>, p: Progress, pick: Pick, seen: set<nat>, revision: int, supply: Supply,
      c: Candidate)
    requires Underway(previous, p, pick, seen, revision, supply) && c.key !in seen && pick(c.key) == c
    requires !HasOpen(previous, c.key) && forall key | key in seen :: key < c.key
    ensures Underway(previous, Take(p, c, revision, supply), pick, seen + {c.key}, revision, supply)
  {
    OpensNext(previous, p, pick, seen, revision, supply, c);
    var row := NextRow(p.rows, c, revision, supply(p.drawn));
    var n := Take(p, c, revision, supply);
    var before, after := p.rows[|previous|..], n.rows[|previous|..];
    assert n.rows == p.rows + [row] && after == before + [row];
    HeldNext(previous, p.rows, n.rows, pick, seen, revision, c);
    AddsNext(previous, before, pick, seen, revision, supply, c, row);
  }

  lemma AddsNext(previous: seq<Review>, added: seq<Review>, pick: Pick, seen: set<nat>, revision: int, supply: Supply,
      c: Candidate, row: Review)
    requires AddedAll(previous, added, pick, seen, revision, supply) && pick(c.key) == c && !HasOpen(previous, c.key)
    requires OpenedFor(previous, row, c, revision, supply(|added|)) && forall key | key in seen :: key < c.key
    ensures AddedAll(previous, added + [row], pick, seen + {c.key}, revision, supply)
  {
    var after := added + [row];
    forall j: nat | j < |after|
      ensures OpenedFor(previous, after[j], pick(after[j].key), revision, supply(j))
      ensures after[j].key in seen + {c.key} && !HasOpen(previous, after[j].key)
    {
      if j < |added| { assert after[j] == added[j]; }
    }
    forall i: nat, j: nat | i < j < |after| ensures after[i].key < after[j].key {
      assert after[i] == added[i];
      if j < |added| { assert after[j] == added[j]; }
    }
    forall key | key in seen + {c.key} && !HasOpen(previous, key)
      ensures exists j: nat :: j < |after| && after[j].key == key
    {
      if key in seen {
        var j: nat :| j < |added| && added[j].key == key;
        assert after[j] == added[j];
      } else {
        assert after[|added|] == row;
      }
    }
  }

  ghost predicate Rising(todo: seq<Candidate>, seen: set<nat>) {
    && (forall i, j | 0 <= i < j < |todo| :: todo[i].key <= todo[j].key)
    && (forall key, i | key in seen && 0 <= i < |todo| :: key <= todo[i].key)
  }

  lemma TakesOne(previous: seq<Review>, p: Progress, pick: Pick, seen: set<nat>, revision: int, supply: Supply,
      c: Candidate)
    requires LedgerValid(previous) && Underway(previous, p, pick, seen, revision, supply)
    requires c.key !in seen && pick(c.key) == c && forall key | key in seen :: key < c.key
    ensures Underway(previous, Take(p, c, revision, supply), pick, seen + {c.key}, revision, supply)
  {
    if HasOpen(previous, c.key) {
      var i: nat :| i < |previous| && previous[i].key == c.key && previous[i].status == Open;
      TakesUpdate(previous, p, pick, seen, revision, supply, c, i);
    } else {
      TakesOpen(previous, p, pick, seen, revision, supply, c);
    }
  }

  /** Of the issues not yet seen the candidate picked is the first. */
  ghost predicate Picks(todo: seq<Candidate>, pick: Pick, seen: set<nat>) {
    forall key | key !in seen && FirstOf(todo, key).Some? :: FirstOf(todo, key) == Some(pick(key))
  }

  lemma PicksOn(todo: seq<Candidate>, pick: Pick, seen: set<nat>)
    requires todo != [] && Rising(todo, seen) && Picks(todo, pick, seen)
    ensures Rising(todo[1..], seen + {todo[0].key}) && Picks(todo[1..], pick, seen + {todo[0].key})
    ensures seen + {todo[0].key} + Keys(todo[1..]) == seen + Keys(todo)
  {
    assert todo == [todo[0]] + todo[1..];
    forall key | key !in seen + {todo[0].key} && FirstOf(todo[1..], key).Some?
      ensures FirstOf(todo[1..], key) == Some(pick(key))
    {
      assert FirstOf(todo, key) == FirstOf(todo[1..], key);
    }
  }

  lemma {:induction false} TakesAll(previous: seq<Review>, p: Progress, pick: Pick, seen: set<nat>,
      todo: seq<Candidate>, revision: int, supply: Supply)
    requires LedgerValid(previous) && Underway(previous, p, pick, seen, revision, supply)
    requires Rising(todo, seen) && Picks(todo, pick, seen)
    ensures Underway(previous, TakeAll(p, seen, todo, revision, supply), pick, seen + Keys(todo), revision, supply)
    decreases |todo|
  {
    if todo == [] {
      assert seen + Keys(todo) == seen;
    } else {
      PicksOn(todo, pick, seen);
      if todo[0].key in seen {
        assert seen + {todo[0].key} == seen;
        TakesAll(previous, p, pick, seen, todo[1..], revision, supply);
      } else {
        assert FirstOf(todo, todo[0].key) == Some(todo[0]);
        TakesOne(previous, p, pick, seen, revision, supply, todo[0]);
        TakesAll(previous, Take(p, todo[0], revision, supply), pick, seen + {todo[0].key}, todo[1..], revision, supply);
      }
    }
  }

  // ---- the first candidate of an issue ----

  lemma {:induction false} SortAlike(s: seq<Candidate>)
    requires forall x, y | x in s && y in s :: x.key == y.key
    ensures SortBy(s, CandidateRank) == s
  {
    if s != [] {
      SortAlike(s[1..]);
      assert s == [s[0]] + s[1..];
      LexTotal(CandidateRank(s[0]), CandidateRank(s[0]));
      if |s| > 1 { assert s[1] in s; }
    }
  }

  lemma {:induction false} FirstFiltered(s: seq<Candidate>, key: nat)
    ensures var mine := Filter(s, (c: Candidate) => c.key == key);
      FirstOf(s, key) == if mine == [] then None else Some(mine[0])
  {
    if s != [] {
      FirstFiltered(s[1..], key);
    }
  }

  /** Sorting by key is stable, so an issue's first candidate stays first. */
  lemma SortKeepsFirst(current: seq<Candidate>, key: nat)
    ensures FirstOf(SortBy(current, CandidateRank), key) == FirstOf(current, key)
  {
    var keep := (c: Candidate) => c.key == key;
    FirstFiltered(current, key);
    FirstFiltered(SortBy(current, CandidateRank), key);
    SortFilter(current, CandidateRank, keep);
    SortAlike(Filter(current, keep));
  }

  lemma {:induction false} FirstIs(current: seq<Candidate>, key: nat)
    ensures match FirstOf(current, key)
      case Some(c) => exists i :: FirstWith(current, key, i) && current[i] == c
      case None => !Raised(current, key)
  {
    if current != [] {
      if current[0].key == key {
        assert FirstWith(current, key, 0);
      } else {
        FirstIs(current[1..], key);
        if i :| FirstWith(current[1..], key, i) {
          forall j | 0 <= j < i + 1 ensures current[j].key != key {
            if j > 0 { assert current[j] == current[1..][j - 1]; }
          }
          assert FirstWith(current, key, i + 1);
        }
        if i :| 0 <= i < |current| && current[i].key == key {
          assert current[1..][i - 1] == current[i];
        }
      }
    }
  }

  // ---- the whole ledger ----

  /** Every earlier row follows its issue's first candidate. */
  ghost predicate KeptRows(previous: seq<Review>, kept: seq<Review>, current: seq<Candidate>, revision: int) {
    |kept| == |previous| && forall i: nat {:trigger kept[i]} | i < |kept| ::
      if Raised(current, previous[i].key) then
        exists k :: FirstWith(current, previous[i].key, k) && Follows(previous[i], kept[i], Some(current[k]), revision)
      else Follows(previous[i], kept[i], None, revision)
  }

  /** One row opens for each issue raised that had none open, in the order of the issues, with the next id. */
  ghost predicate AddedRows(previous: seq<Review>, added: seq<Review>, current: seq<Candidate>, revision: int,
      supply: Supply)
  {
    && (forall j: nat {:trigger added[j]} | j < |added| :: exists k ::
          FirstWith(current, added[j].key, k) && OpenedFor(previous, added[j], current[k], revision, supply(j)))
    && (forall i: nat, j: nat {:trigger added[i], added[j]} | i < j < |added| :: added[i].key < added[j].key)
    && (forall key {:trigger Raised(current, key)} ::
          Raised(current, key) && !HasOpen(previous, key) <==> exists j: nat :: j < |added| && added[j].key == key)
  }

  /** By issue and occurrence. */
  predicate InOrder(rows: seq<Review>) {
    forall i, j | 0 <= i < j < |rows| ::
      rows[i].key < rows[j].key || (rows[i].key == rows[j].key && rows[i].occurrence <= rows[j].occurrence)
  }

  lemma RankInOrder(rows: seq<Review>)
    requires Sorted(rows, ReviewRank)
    ensures InOrder(rows)
  {
    forall i, j | 0 <= i < j < |rows|
      ensures rows[i].key < rows[j].key || (rows[i].key == rows[j].key && rows[i].occurrence <= rows[j].occurrence)
    {
      var a, b := rows[i], rows[j];
      LexPair(a.occurrence, b.occurrence, [], []);
      LexPair(a.key, b.key, [a.occurrence], [b.occurrence]);
      assert ReviewRank(a) == [a.key] + [a.occurrence] && ReviewRank(b) == [b.key] + [b.occurrence];
      assert [a.occurrence] == [a.occurrence] + [] && [b.occurrence] == [b.occurrence] + [];
    }
  }

  function PickFrom(current: seq<Candidate>): Pick {
    (key: nat) => match FirstOf(current, key) case Some(c) => c case None => Candidate(key, "", "", "", "")
  }

  lemma TakenUnderway(previous: seq<Review>, current: seq<Candidate>, revision: int, supply: Supply)
    requires LedgerValid(previous)
    ensures Underway(previous, Taken(previous, current, revision, supply), PickFrom(current), Keys(current), revision,
      supply)
  {
    var sorted := SortBy(current, CandidateRank);
    SortSorted(current, CandidateRank);
    forall i, j | 0 <= i < j < |sorted| ensures sorted[i].key <= sorted[j].key {
      assert LexLe(CandidateRank(sorted[i]), CandidateRank(sorted[j]));
    }
    forall key ensures FirstOf(sorted, key) == FirstOf(current, key) { SortKeepsFirst(current, key); }
    assert Underway(previous, Progress(previous, 0), PickFrom(current), {}, revision, supply);
    TakesAll(previous, Progress(previous, 0), PickFrom(current), {}, sorted, revision, supply);
    SortedKeys(current);
    assert {} + Keys(sorted) == Keys(current);
  }

  lemma RaisedMeans(current: seq<Candidate>, key: nat)
    ensures Raised(current, key) <==> key in Keys(current)
    ensures Raised(current, key) ==> exists k :: FirstWith(current, key, k) && PickFrom(current)(key) == current[k]
  {
    FirstIs(current, key);
    FirstExists(current, key);
  }

  /** After a publication the ledger holds the earlier rows, each as its issue now stands, and one new
      row for each issue that was raised with none open; nothing else. */
  lemma LedgerExplained(previous: seq<Review>, current: seq<Candidate>, revision: int, supply: Supply)
    returns (kept: seq<Review>, added: seq<Review>)
    requires LedgerValid(previous)
    ensures var rows := Reconciled(previous, current, revision, supply);
      multiset(rows) == multiset(kept) + multiset(added) && InOrder(rows)
    ensures KeptRows(previous, kept, current, revision)
    ensures AddedRows(previous, added, current, revision, supply)
    ensures |added| == Taken(previous, current, revision, supply).drawn
  {
    var closed := Closed(previous, current, revision, supply);
    SortMultiset(closed, ReviewRank);
    SortSorted(closed, ReviewRank);
    RankInOrder(Reconciled(previous, current, revision, supply));
    TakenUnderway(previous, current, revision, supply);
    kept, added := closed[..|previous|], closed[|previous|..];
    assert closed == kept + added;
    KeptFollow(previous, current, revision, supply);
    AddedFollow(previous, current, revision, supply);
  }

  lemma KeptFollow(previous: seq<Review>, current: seq<Candidate>, revision: int, supply: Supply)
    requires Underway(previous, Taken(previous, current, revision, supply), PickFrom(current), Keys(current), revision,
      supply)
    ensures |previous| <= |Closed(previous, current, revision, supply)|
    ensures KeptRows(previous, Closed(previous, current, revision, supply)[..|previous|], current, revision)
  {
    var rows, closed := Taken(previous, current, revision, supply).rows, Closed(previous, current, revision, supply);
    forall i: nat | i < |previous|
      ensures if Raised(current, previous[i].key) then
          exists k :: FirstWith(current, previous[i].key, k)
            && Follows(previous[i], closed[i], Some(current[k]), revision)
        else Follows(previous[i], closed[i], None, revision)
    {
      var key := previous[i].key;
      RaisedMeans(current, key);
      assert Held(previous[i], rows[i], PickFrom(current)(key), key in Keys(current), revision);
      assert closed[i] == Close(Keys(current), revision)(rows[i]);
    }
  }

  lemma AddedFollow(previous: seq<Review>, current: seq<Candidate>, revision: int, supply: Supply)
    requires Underway(previous, Taken(previous, current, revision, supply), PickFrom(current), Keys(current), revision,
      supply)
    ensures |previous| <= |Closed(previous, current, revision, supply)|
    ensures AddedRows(previous, Closed(previous, current, revision, supply)[|previous|..], current, revision, supply)
  {
    var rows, closed := Taken(previous, current, revision, supply).rows, Closed(previous, current, revision, supply);
    var added := rows[|previous|..];
    forall j: nat | j < |added| ensures closed[|previous|..][j] == added[j] {
      assert added[j].key in Keys(current);
      assert closed[|previous| + j] == Close(Keys(current), revision)(rows[|previous| + j]);
    }
    assert closed[|previous|..] == added;
    forall key ensures Raised(current, key) <==> key in Keys(current) { RaisedMeans(current, key); }
    forall j: nat | j < |added|
      ensures exists k ::
        FirstWith(current, added[j].key, k) && OpenedFor(previous, added[j], current[k], revision, supply(j))
    {
      RaisedMeans(current, added[j].key);
      assert OpenedFor(previous, added[j], PickFrom(current)(added[j].key), revision, supply(j));
    }
    assert AddedRows(previous, added, current, revision, supply);
  }
}
