/** Edit distance by two rows, against the least edit script. */
module Levenshtein {
  import opened Prelude

  const MAX_WORK: nat := 0xFFFF_FFFF_FFFF_FFFF

  // ---- edit scripts ----

  datatype Edit = Keep | Insert(c: char) | Delete | Replace(c: char)

  /** What a script makes of a string, if it fits: each edit consumes or produces the next character. */
  function Applied(script: seq<Edit>, s: string): Option<string>
    decreases |script|
  {
    if script == [] then (if s == [] then Some("") else None)
    else
      var n, rest := |s| - 1, script[..|script| - 1];
      match script[|script| - 1]
      case Insert(c) => Extended(Applied(rest, s), [c])
      case Keep => if s == [] then None else Extended(Applied(rest, s[..n]), [s[n]])
      case Replace(c) => if s == [] then None else Extended(Applied(rest, s[..n]), [c])
      case Delete => if s == [] then None else Applied(rest, s[..n])
  }

  function Extended(s: Option<string>, t: string): Option<string> {
    match s case None => None case Some(v) => Some(v + t)
  }

  /** The number of insertions, deletions and substitutions. */
  function Cost(script: seq<Edit>): nat {
    if script == [] then 0
    else Cost(script[..|script| - 1]) + (if script[|script| - 1].Keep? then 0 else 1)
  }

  // ---- the recurrence ----

  function Min(a: nat, b: nat): nat { if a <= b then a else b }

  /** The recurrence the rows follow: equal last characters always take the diagonal. */
  function Distance(a: string, b: string): nat
    decreases |a| + |b|
  {
    if a == [] then |b|
    else if b == [] then |a|
    else
      var m, n := |a| - 1, |b| - 1;
      if a[m] == b[n] then Distance(a[..m], b[..n])
      else 1 + Min(Min(Distance(a[..m], b[..n]), Distance(a[..m], b)), Distance(a, b[..n]))
  }

  lemma {:induction false} DistanceSymmetric(a: string, b: string)
    ensures Distance(a, b) == Distance(b, a)
    decreases |a| + |b|
  {
    if a != [] && b != [] {
      var m, n := |a| - 1, |b| - 1;
      DistanceSymmetric(a[..m], b[..n]);
      DistanceSymmetric(a[..m], b);
      DistanceSymmetric(a, b[..n]);
    }
  }

  lemma {:induction false} DistanceBounded(a: string, b: string)
    ensures Distance(a, b) <= (if |a| <= |b| then |b| else |a|)
    decreases |a| + |b|
  {
    if a != [] && b != [] {
      DistanceBounded(a[..|a| - 1], b[..|b| - 1]);
    }
  }

  lemma {:induction false} DistanceZero(a: string, b: string)
    ensures Distance(a, b) == 0 <==> a == b
    decreases |a| + |b|
  {
    if a != [] && b != [] {
      var m, n := |a| - 1, |b| - 1;
      DistanceZero(a[..m], b[..n]);
      assert a == a[..m] + [a[m]] && b == b[..n] + [b[n]];
    }
  }

  /** One more character on either side changes the distance by at most one. */
  lemma {:induction false} Neighbouring(a: string, b: string)
    ensures a != [] ==>
      Distance(a[..|a| - 1], b) <= Distance(a, b) + 1 && Distance(a, b) <= Distance(a[..|a| - 1], b) + 1
    ensures b != [] ==>
      Distance(a, b[..|b| - 1]) <= Distance(a, b) + 1 && Distance(a, b) <= Distance(a, b[..|b| - 1]) + 1
    decreases |a| + |b|
  {
    if a != [] && b != [] {
      var m, n := |a| - 1, |b| - 1;
      Neighbouring(a[..m], b);
      Neighbouring(a, b[..n]);
    } else if a != [] {
      assert Distance(a[..|a| - 1], b) == |a| - 1;
    } else if b != [] {
      assert Distance(a, b[..|b| - 1]) == |b| - 1;
    }
  }

  // ---- the recurrence is the least script ----

  lemma {:induction false} NoCheaperScript(script: seq<Edit>, a: string, b: string)
    requires Applied(script, a) == Some(b)
    ensures Distance(a, b) <= Cost(script)
    decreases |script|
  {
    if script != [] {
      var e, rest := script[|script| - 1], script[..|script| - 1];
      var m, n := |a| - 1, |b| - 1;
      Neighbouring(a, b);
      match e {
        case Insert(c) =>
          assert b[..n] == Applied(rest, a).value;
          NoCheaperScript(rest, a, b[..n]);
        case Delete =>
          NoCheaperScript(rest, a[..m], b);
        case Keep =>
          assert b[..n] == Applied(rest, a[..m]).value;
          NoCheaperScript(rest, a[..m], b[..n]);
        case Replace(c) =>
          assert b[..n] == Applied(rest, a[..m]).value;
          NoCheaperScript(rest, a[..m], b[..n]);
      }
    }
  }

  lemma Appended(script: seq<Edit>, e: Edit)
    ensures Cost(script + [e]) == Cost(script) + (if e.Keep? then 0 else 1)
    ensures (script + [e])[..|script + [e]| - 1] == script
  {
    assert (script + [e])[..|script|] == script;
  }

  lemma {:induction false} CheapestScript(a: string, b: string) returns (script: seq<Edit>)
    ensures Applied(script, a) == Some(b) && Cost(script) == Distance(a, b)
    decreases |a| + |b|
  {
    var m, n := |a| - 1, |b| - 1;
    if a == [] && b == [] {
      script := [];
    } else if a == [] || (b != [] && a[m] != b[n] && Distance(a, b) == 1 + Distance(a, b[..n])) {
      var rest := CheapestScript(a, b[..n]);
      Appended(rest, Insert(b[n]));
      assert b == b[..n] + [b[n]];
      script := rest + [Insert(b[n])];
    } else if b == [] || (a[m] != b[n] && Distance(a, b) == 1 + Distance(a[..m], b)) {
      var rest := CheapestScript(a[..m], b);
      Appended(rest, Delete);
      script := rest + [Delete];
    } else {
      var rest := CheapestScript(a[..m], b[..n]);
      var e := if a[m] == b[n] then Keep else Replace(b[n]);
      Appended(rest, e);
      assert b == b[..n] + [b[n]];
      script := rest + [e];
    }
  }

  /** The distance is the least number of edits that turn `a` into `b`. */
  lemma DistanceIsLeast(a: string, b: string, k: nat)
    ensures Distance(a, b) <= k <==> exists script :: Applied(script, a) == Some(b) && Cost(script) <= k
  {
    if Distance(a, b) <= k {
      var script := CheapestScript(a, b);
    }
    if script :| Applied(script, a) == Some(b) && Cost(script) <= k {
      NoCheaperScript(script, a, b);
    }
  }

  // ---- the score ----

  function MaxLength(a: string, b: string): nat { if |a| <= |b| then |b| else |a| }

  /** `kept` of `whole`, in ten-thousandths, rounded down. */
  function Share(kept: nat, whole: nat): nat
    requires 0 < whole
  {
    kept * 10_000 / whole
  }

  /** The share of the longer string left unedited. */
  function Score(a: string, b: string): nat {
    if a == [] && b == [] then 10_000
    else
      DistanceBounded(a, b);
      Share(MaxLength(a, b) - Distance(a, b), MaxLength(a, b))
  }

  lemma Quotient(x: nat, w: nat)
    requires 0 < w
    ensures var q := x / w; q * w <= x < q * w + w
  {
  }

  lemma Multiple(q: nat, k: nat, w: nat)
    requires q >= k
    ensures q * w >= k * w
  {
  }

  lemma ShareBounds(kept: nat, whole: nat)
    requires kept <= whole && 0 < whole
    ensures Share(kept, whole) <= 10_000
    ensures Share(kept, whole) == 10_000 <==> kept == whole
  {
    var q := Share(kept, whole);
    Quotient(kept * 10_000, whole);
    if q >= 10_000 { Multiple(q, 10_000, whole); }
    if q >= 10_001 { Multiple(q, 10_001, whole); }
    if q <= 9_999 { Multiple(9_999, q, whole); }
  }

  /** A score is at most 10000, and is 10000 for equal strings only. */
  lemma ScoreBounds(a: string, b: string)
    ensures 0 <= Score(a, b) <= 10_000
    ensures Score(a, b) == 10_000 <==> a == b
    ensures Score(a, b) == Score(b, a)
  {
    DistanceSymmetric(a, b);
    DistanceZero(a, b);
    DistanceBounded(a, b);
    if a != [] || b != [] {
      ShareBounds(MaxLength(a, b) - Distance(a, b), MaxLength(a, b));
    }
  }

  /** `d` is the least number of edits that turn `a` into `b`. */
  ghost predicate LeastEdits(a: string, b: string, d: nat) {
    && (exists script :: Applied(script, a) == Some(b) && Cost(script) == d)
    && (forall script | Applied(script, a) == Some(b) :: d <= Cost(script))
  }

  /** The score is the share of the longer string that a cheapest edit leaves alone, in ten-thousandths,
      rounded down. */
  lemma ScoreIsShare(a: string, b: string, d: nat)
    requires LeastEdits(a, b, d) && (a != [] || b != [])
    ensures var whole := if |a| < |b| then |b| else |a|;
      d <= whole && Score(a, b) * whole <= (whole - d) * 10_000 < (Score(a, b) + 1) * whole
  {
    var script := CheapestScript(a, b);
    var best :| Applied(best, a) == Some(b) && Cost(best) == d;
    NoCheaperScript(best, a, b);
    DistanceBounded(a, b);
    var whole := MaxLength(a, b);
    Quotient((whole - d) * 10_000, whole);
  }

  // ---- the two-row loop ----

  /** The row for the prefix `a` of the long string. */
  ghost predicate Row(row: seq<nat>, a: string, b: string, n: nat)
    requires n <= |row| && n <= |b| + 1
  {
    forall j: nat {:trigger row[j]} | j < n :: row[j] == Distance(a, b[..j])
  }

  /** Fills the row of `long[..i + 1]` from the row of `long[..i]`. */
  method NextRow(previous: array<nat>, current: array<nat>, long: string, short: string, i: nat)
    requires previous != current && previous.Length == |short| + 1 == current.Length && i < |long|
    requires Row(previous[..], long[..i], short, |short| + 1)
    modifies current
    ensures Row(current[..], long[..i + 1], short, |short| + 1)
  {
    var a := long[..i + 1];
    assert a[..i] == long[..i];
    current[0] := i + 1;
    for j := 0 to |short|
      invariant previous[..] == old(previous[..])
      invariant Row(current[..], a, short, j + 1)
    {
      var b := short[..j + 1];
      assert b[..j] == short[..j];
      assert previous[..][j] == Distance(long[..i], short[..j]);
      assert previous[..][j + 1] == Distance(long[..i], short[..j + 1]);
      assert current[..][j] == Distance(a, short[..j]);
      ghost var before := current[..];
      current[j + 1] := if long[i] == short[j] then previous[j]
                        else 1 + Min(Min(previous[j], previous[j + 1]), current[j]);
      assert current[..] == before[j + 1 := Distance(a, b)];
    }
  }

  method RowDistance(long: string, short: string) returns (distance: nat)
    ensures distance == Distance(long, short)
  {
    var previous := new nat[|short| + 1](j => j);
    var current := new nat[|short| + 1](_ => 0);
    for i := 0 to |long|
      invariant previous != current && previous.Length == |short| + 1 == current.Length
      invariant fresh(previous) && fresh(current)
      invariant Row(previous[..], long[..i], short, |short| + 1)
    {
      NextRow(previous, current, long, short, i);
      previous, current := current, previous;
    }
    assert long[..|long|] == long && short[..|short|] == short;
    assert previous[..][|short|] == Distance(long, short);
    distance := previous[|short|];
  }

  lemma NothingShared(left: string, right: string)
    requires (left == [] || right == []) && (left != [] || right != [])
    ensures Score(left, right) == 0
  {
    assert Distance(left, right) == MaxLength(left, right);
  }

  datatype ComparatorError = WorkLimit(work: nat, limit: nat)

  /** Whether the comparison may be made. */
  predicate Affordable(left: string, right: string, maxWork: nat) {
    (left == [] && right == []) || (|left| * |right| <= MAX_WORK && |left| * |right| <= maxWork)
  }

  /** The similarity of two strings, if the work allows it. */
  method Similarity(left: string, right: string, maxWork: nat) returns (r: Result<nat, ComparatorError>)
    ensures r.Ok? <==> Affordable(left, right, maxWork)
    ensures r.Ok? ==> r.value == Score(left, right)
  {
    if |left| == 0 && |right| == 0 { return Ok(10_000); }
    var work := |left| * |right|;
    if work > MAX_WORK { return Err(WorkLimit(MAX_WORK, maxWork)); }
    if work > maxWork { return Err(WorkLimit(work, maxWork)); }
    if |left| == 0 || |right| == 0 {
      NothingShared(left, right);
      return Ok(0);
    }
    var short, long := if |left| <= |right| then left else right, if |left| <= |right| then right else left;
    var distance := RowDistance(long, short);
    DistanceSymmetric(left, right);
    DistanceBounded(left, right);
    var whole := MaxLength(left, right);
    r := Ok(Share(whole - distance, whole));
  }

  datatype Class = NoEvidence | Agree | Disagree

  /** Compares two values when both are present. */
  method Compare(left: Option<string>, right: Option<string>, threshold: nat, maxWork: nat)
    returns (r: Result<(Class, Option<nat>), ComparatorError>)
    ensures left.None? || right.None? ==> r == Ok((NoEvidence, None))
    ensures left.Some? && right.Some? ==> (r.Ok? <==> Affordable(left.value, right.value, maxWork))
    ensures left.Some? && right.Some? && r.Ok? ==>
      r.value == (if Score(left.value, right.value) >= threshold then Agree
        else Disagree, Some(Score(left.value, right.value)))
  {
    if left.None? || right.None? { return Ok((NoEvidence, None)); }
    var score := Similarity(left.value, right.value, maxWork);
    if score.Err? { return Err(score.error); }
    r := Ok((if score.value >= threshold then Agree else Disagree, Some(score.value)));
  }
}
