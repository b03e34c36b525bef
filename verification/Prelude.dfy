/** Failure-carrying datatypes and sequence utilities shared by all components. */
module Prelude {

  datatype Option<+T> = None | Some(value: T)

  datatype Result<+T, +E> = Ok(value: T) | Err(error: E)

  /** The subsequence of the elements that satisfy `keep`, in their original order. */
  function Filter<T>(s: seq<T>, keep: T -> bool): (r: seq<T>)
    ensures |r| <= |s|
    ensures forall x | x in r :: x in s && keep(x)
    ensures forall x | x in s && keep(x) :: x in r
  {
    if s == [] then []
    else if keep(s[0]) then [s[0]] + Filter(s[1..], keep)
    else Filter(s[1..], keep)
  }

  lemma FilterCons<T>(x: T, s: seq<T>, keep: T -> bool)
    ensures Filter([x] + s, keep) == if keep(x) then [x] + Filter(s, keep) else Filter(s, keep)
  {
    assert ([x] + s)[1..] == s;
  }

  lemma FilterConcat<T>(s: seq<T>, t: seq<T>, keep: T -> bool)
    ensures Filter(s + t, keep) == Filter(s, keep) + Filter(t, keep)
  {
    if s == [] {
      assert s + t == t;
    } else {
      assert (s + t)[1..] == s[1..] + t;
      FilterConcat(s[1..], t, keep);
    }
  }

  lemma FilterAppend<T>(s: seq<T>, x: T, keep: T -> bool)
    ensures Filter(s + [x], keep) == if keep(x) then Filter(s, keep) + [x] else Filter(s, keep)
  {
    FilterConcat(s, [x], keep);
    assert [x] == [x] + [];
  }

  /** Filtering by two predicates that agree on the elements gives the same sequence. */
  lemma FilterCongruent<T>(s: seq<T>, f: T -> bool, g: T -> bool)
    requires forall x | x in s :: f(x) == g(x)
    ensures Filter(s, f) == Filter(s, g)
  {
    if s != [] {
      FilterCongruent(s[1..], f, g);
    }
  }

  lemma {:induction false} FilterCommutes<T>(s: seq<T>, f: T -> bool, g: T -> bool)
    ensures Filter(Filter(s, f), g) == Filter(Filter(s, g), f)
  {
    if s != [] {
      FilterCommutes(s[1..], f, g);
      assert s == [s[0]] + s[1..];
      FilterCons(s[0], s[1..], f);
      FilterCons(s[0], s[1..], g);
      FilterCons(s[0], Filter(s[1..], f), g);
      FilterCons(s[0], Filter(s[1..], g), f);
    }
  }

  lemma FilterAll<T>(s: seq<T>, f: T -> bool)
    requires forall x | x in s :: f(x)
    ensures Filter(s, f) == s
  {
  }

  lemma FilterNone<T>(s: seq<T>, f: T -> bool)
    requires forall x | x in s :: !f(x)
    ensures Filter(s, f) == []
  {
  }

  /** Filtering by a weaker condition first changes nothing. */
  lemma FilterNested<T>(s: seq<T>, f: T -> bool, g: T -> bool)
    requires forall x | x in s && g(x) :: f(x)
    ensures Filter(Filter(s, f), g) == Filter(s, g)
  {
    if s != [] {
      FilterNested(s[1..], f, g);
      FilterCons(s[0], Filter(s[1..], f), g);
    }
  }

  lemma FilterMultiset<T>(s: seq<T>, keep: T -> bool, x: T)
    ensures multiset(Filter(s, keep))[x] == if keep(x) then multiset(s)[x] else 0
  {
    if s != [] {
      assert s == [s[0]] + s[1..];
      FilterMultiset(s[1..], keep, x);
    }
  }

  function Map<T, U>(s: seq<T>, f: T -> U): (r: seq<U>)
    ensures |r| == |s|
    ensures forall i | 0 <= i < |s| :: r[i] == f(s[i])
  {
    if s == [] then [] else [f(s[0])] + Map(s[1..], f)
  }

  /** Where in the list the condition holds. */
  function Places<T>(s: seq<T>, good: T -> bool): set<int> {
    set i | 0 <= i < |s| && good(s[i])
  }

  lemma PlacesAppend<T>(s: seq<T>, x: T, good: T -> bool)
    ensures Places(s + [x], good) == Places(s, good) + if good(x) then {|s|} else {}
  {
  }

  lemma {:induction false} FilterSize<T>(s: seq<T>, good: T -> bool)
    ensures |Filter(s, good)| == |Places(s, good)|
  {
    if s != [] {
      var n := |s| - 1;
      FilterSize(s[..n], good);
      assert s == s[..n] + [s[n]];
      FilterAppend(s[..n], s[n], good);
      PlacesAppend(s[..n], s[n], good);
    }
  }

  lemma {:induction false} FilterBoth<T>(s: seq<T>, f: T -> bool, g: T -> bool, both: T -> bool)
    requires forall x :: both(x) <==> f(x) && g(x)
    ensures Filter(Filter(s, f), g) == Filter(s, both)
  {
    if s != [] {
      FilterBoth(s[1..], f, g, both);
      FilterCons(s[0], Filter(s[1..], f), g);
    }
  }

  /** How many elements are mapped to `u`. */
  lemma {:induction false} CountMapped<T, U>(s: seq<T>, f: T -> U, u: U, good: T -> bool)
    requires forall x :: good(x) <==> f(x) == u
    ensures multiset(Map(s, f))[u] == |Places(s, good)|
  {
    if s != [] {
      var n := |s| - 1;
      CountMapped(s[..n], f, u, good);
      assert s == s[..n] + [s[n]];
      PlacesAppend(s[..n], s[n], good);
      assert Map(s, f) == Map(s[..n], f) + [f(s[n])];
    }
  }

  /** Elements of a sequence as a set. */
  function Elements<T>(s: seq<T>): set<T> {
    set x | x in s
  }

  lemma SameMultisetSameElements<T>(s: seq<T>, t: seq<T>)
    requires multiset(s) == multiset(t)
    ensures |s| == |t|
    ensures Elements(s) == Elements(t)
    ensures forall x | x in s :: x in t
    ensures forall x | x in t :: x in s
  {
    assert |s| == |multiset(s)| && |t| == |multiset(t)|;
    forall x | x in s ensures x in t {
      assert x in multiset(s) && x in multiset(t);
    }
    forall x | x in t ensures x in s {
      assert x in multiset(t) && x in multiset(s);
    }
  }

  lemma DistinctSize<T>(s: seq<T>)
    requires Distinct(s)
    ensures |Elements(s)| == |s|
  {
    if s != [] {
      DistinctSize(s[1..]);
      assert s == [s[0]] + s[1..];
      assert Elements(s) == Elements(s[1..]) + {s[0]};
    }
  }

  lemma CountDistinct<T>(s: seq<T>, x: T)
    requires Distinct(s)
    ensures multiset(s)[x] <= 1
  {
    if s != [] {
      assert s == [s[0]] + s[1..];
      CountDistinct(s[1..], x);
      if x == s[0] {
        assert x !in s[1..];
      }
    }
  }

  lemma DistinctPermuted<T>(s: seq<T>, t: seq<T>)
    requires Distinct(s) && multiset(s) == multiset(t)
    ensures Distinct(t)
  {
    forall i, j | 0 <= i < j < |t| ensures t[i] != t[j] {
      CountDistinct(s, t[i]);
      assert t == t[..i] + [t[i]] + t[i + 1..j] + [t[j]] + t[j + 1..];
    }
  }

  lemma SubsetSize<T>(a: set<T>, b: set<T>)
    requires a <= b
    ensures |a| <= |b|
  {
    assert b == a + (b - a);
  }

  lemma SubsetFull<T>(a: set<T>, b: set<T>)
    requires a <= b
    ensures |a| == |b| <==> a == b
  {
    assert b == a + (b - a);
  }

  lemma DistinctSameElements<T>(s: seq<T>, t: seq<T>)
    requires Distinct(s) && Distinct(t) && Elements(s) == Elements(t)
    ensures multiset(s) == multiset(t)
  {
    forall x ensures multiset(s)[x] == multiset(t)[x] {
      CountDistinct(s, x);
      CountDistinct(t, x);
      assert x in s <==> x in Elements(s);
      assert x in t <==> x in Elements(t);
      assert x in s <==> x in multiset(s);
      assert x in t <==> x in multiset(t);
    }
  }

  /** Where the head of one arrangement sits in another, and what is left without it. */
  lemma WithoutHead<T>(s: seq<T>, t: seq<T>) returns (i: nat)
    requires multiset(s) == multiset(t) && s != []
    ensures i < |t| && t[i] == s[0]
    ensures t == (t[..i] + [s[0]]) + t[i + 1..]
    ensures multiset(s[1..]) == multiset(t[..i] + t[i + 1..])
  {
    SameMultisetSameElements(s, t);
    assert s[0] in t;
    i :| 0 <= i < |t| && t[i] == s[0];
    assert t == (t[..i] + [s[0]]) + t[i + 1..];
    assert multiset(t[..i] + t[i + 1..]) == multiset(t) - multiset{s[0]};
    assert s == [s[0]] + s[1..];
    assert multiset(s[1..]) == multiset(s) - multiset{s[0]};
  }

  lemma {:induction false} FilterPermuted<T>(a: seq<T>, b: seq<T>, keep: T -> bool)
    requires multiset(a) == multiset(b)
    ensures multiset(Filter(a, keep)) == multiset(Filter(b, keep))
    ensures |Filter(a, keep)| == |Filter(b, keep)|
    decreases |a|
  {
    if a == [] {
      assert |b| == |multiset(b)| == 0;
    } else {
      var k := WithoutHead(a, b);
      var rest := b[..k] + b[k + 1..];
      FilterPermuted(a[1..], rest, keep);
      FilterCons(a[0], a[1..], keep);
      assert a == [a[0]] + a[1..];
      FilterConcat(b[..k], b[k + 1..], keep);
      FilterConcat(b[..k] + [a[0]], b[k + 1..], keep);
      FilterAppend(b[..k], a[0], keep);
    }
    SameMultisetSameElements(Filter(a, keep), Filter(b, keep));
  }

  /** Drops what equals its predecessor. */
  function Dedup<T(==)>(s: seq<T>): seq<T> {
    if |s| <= 1 then s
    else if s[0] == s[1] then Dedup(s[1..])
    else [s[0]] + Dedup(s[1..])
  }

  lemma DedupElements<T>(s: seq<T>)
    ensures forall x :: x in Dedup(s) <==> x in s
  {
    if |s| > 1 {
      DedupElements(s[1..]);
      assert s == [s[0]] + s[1..];
      assert s[1] in s[1..];
    }
  }

  predicate Distinct<T(==)>(s: seq<T>) {
    forall i, j | 0 <= i < j < |s| :: s[i] != s[j]
  }
}

/** Stable sorting by a lexicographically ordered tuple of integers. */
module Sorting {
  import opened Prelude

  /** Lexicographic order, a proper prefix first. */
  predicate LexLe(a: seq<int>, b: seq<int>) {
    a == [] || (b != [] && (a[0] < b[0] || (a[0] == b[0] && LexLe(a[1..], b[1..]))))
  }

  lemma LexPair(x: int, y: int, a: seq<int>, b: seq<int>)
    ensures LexLe([x] + a, [y] + b) <==> x < y || (x == y && LexLe(a, b))
  {
    assert ([x] + a)[1..] == a && ([y] + b)[1..] == b;
  }

  /** At the first difference the lesser number, and an end before a number. */
  ghost predicate ComesBefore(x: seq<int>, y: seq<int>) {
    exists n: nat :: n <= |x| && n < |y| && SameUpTo(x, y, n) && (n == |x| || x[n] < y[n])
  }

  ghost predicate SameUpTo<T>(x: seq<T>, y: seq<T>, n: nat)
    requires n <= |x| && n <= |y|
  {
    forall i | 0 <= i < n :: x[i] == y[i]
  }

  lemma {:induction false} LexMeans(x: seq<int>, y: seq<int>)
    ensures LexLe(x, y) <==> x == y || ComesBefore(x, y)
  {
    if x == [] {
      if y != [] { assert SameUpTo(x, y, 0); }
    } else if y != [] {
      var v, w := x[1..], y[1..];
      assert x == [x[0]] + v && y == [y[0]] + w;
      LexMeans(v, w);
      if x[0] < y[0] { assert SameUpTo(x, y, 0); }
      if x[0] == y[0] { BehindHead(x, y); }
      if n: nat :| n <= |x| && n < |y| && SameUpTo(x, y, n) && (n == |x| || x[n] < y[n]) {
        assert n > 0 ==> x[0] == y[0];
      }
    }
  }

  lemma BehindHead(x: seq<int>, y: seq<int>)
    requires x != [] && y != [] && x[0] == y[0]
    ensures ComesBefore(x, y) <==> ComesBefore(x[1..], y[1..])
  {
    var v, w := x[1..], y[1..];
    if n: nat :| n <= |v| && n < |w| && SameUpTo(v, w, n) && (n == |v| || v[n] < w[n]) {
      forall i | 0 <= i < n + 1 ensures x[i] == y[i] {
        if i > 0 { assert v[i - 1] == w[i - 1]; }
      }
      assert SameUpTo(x, y, n + 1);
    }
    if n: nat :| n <= |x| && n < |y| && SameUpTo(x, y, n) && (n == |x| || x[n] < y[n]) {
      assert n > 0;
      forall i | 0 <= i < n - 1 ensures v[i] == w[i] {
        assert v[i] == x[i + 1] && w[i] == y[i + 1];
      }
      assert SameUpTo(v, w, n - 1);
    }
  }

  lemma LexTriple(a: int, b: int, c: int, x: int, y: int, z: int)
    ensures LexLe([a, b, c], [x, y, z]) <==> a < x || (a == x && (b < y || (b == y && c <= z)))
  {
    LexPair(c, z, [], []);
    LexPair(b, y, [c], [z]);
    LexPair(a, x, [b, c], [y, z]);
    assert [c] == [c] + [] && [z] == [z] + [];
    assert [b, c] == [b] + [c] && [y, z] == [y] + [z];
    assert [a, b, c] == [a] + [b, c] && [x, y, z] == [x] + [y, z];
  }

  lemma LexTotal(a: seq<int>, b: seq<int>)
    ensures LexLe(a, b) || LexLe(b, a)
  {
  }

  lemma LexAntisymmetric(a: seq<int>, b: seq<int>)
    requires LexLe(a, b) && LexLe(b, a)
    ensures a == b
  {
    if a != [] {
      LexAntisymmetric(a[1..], b[1..]);
      assert a == [a[0]] + a[1..] && b == [b[0]] + b[1..];
    }
  }

  lemma LexTransitive(a: seq<int>, b: seq<int>, c: seq<int>)
    requires LexLe(a, b) && LexLe(b, c)
    ensures LexLe(a, c)
  {
  }

  function Insert<T>(x: T, s: seq<T>, rank: T -> seq<int>): seq<T> {
    if s == [] || LexLe(rank(x), rank(s[0])) then [x] + s
    else [s[0]] + Insert(x, s[1..], rank)
  }

  /** The stable library sort: equal ranks keep their input order. */
  function SortBy<T>(s: seq<T>, rank: T -> seq<int>): seq<T> {
    if s == [] then [] else Insert(s[0], SortBy(s[1..], rank), rank)
  }

  lemma InsertMultiset<T>(x: T, s: seq<T>, rank: T -> seq<int>)
    ensures multiset(Insert(x, s, rank)) == multiset(s) + multiset{x}
  {
    if s != [] {
      assert s == [s[0]] + s[1..];
    }
  }

  /** Sorting permutes. */
  lemma SortMultiset<T>(s: seq<T>, rank: T -> seq<int>)
    ensures multiset(SortBy(s, rank)) == multiset(s)
    ensures |SortBy(s, rank)| == |s|
  {
    if s != [] {
      assert s == [s[0]] + s[1..];
      SortMultiset(s[1..], rank);
      InsertMultiset(s[0], SortBy(s[1..], rank), rank);
    }
    SameMultisetSameElements(SortBy(s, rank), s);
  }

  ghost predicate Sorted<T>(s: seq<T>, rank: T -> seq<int>) {
    forall i, j | 0 <= i < j < |s| :: LexLe(rank(s[i]), rank(s[j]))
  }

  lemma SortElements<T>(s: seq<T>, rank: T -> seq<int>)
    ensures forall x | x in SortBy(s, rank) :: x in s
    ensures forall x | x in s :: x in SortBy(s, rank)
  {
    SortMultiset(s, rank);
    SameMultisetSameElements(SortBy(s, rank), s);
  }

  lemma InsertSorted<T>(x: T, s: seq<T>, rank: T -> seq<int>)
    requires Sorted(s, rank)
    ensures Sorted(Insert(x, s, rank), rank)
  {
    var r := Insert(x, s, rank);
    if s == [] {
    } else if LexLe(rank(x), rank(s[0])) {
      forall j | 0 < j < |r| ensures LexLe(rank(r[0]), rank(r[j])) {
        if j > 1 { LexTransitive(rank(x), rank(s[0]), rank(s[j - 1])); }
      }
    } else {
      var t := Insert(x, s[1..], rank);
      InsertSorted(x, s[1..], rank);
      InsertMultiset(x, s[1..], rank);
      LexTotal(rank(x), rank(s[0]));
      forall j | 0 <= j < |t| ensures LexLe(rank(s[0]), rank(t[j])) {
        assert t[j] in multiset(t);
        assert t[j] in multiset(s[1..]) || t[j] == x;
      }
    }
  }

  lemma SortSorted<T>(s: seq<T>, rank: T -> seq<int>)
    ensures Sorted(SortBy(s, rank), rank)
  {
    if s != [] {
      SortSorted(s[1..], rank);
      InsertSorted(s[0], SortBy(s[1..], rank), rank);
    }
  }

  lemma {:induction false} InsertFilter<T>(x: T, s: seq<T>, rank: T -> seq<int>, keep: T -> bool)
    requires Sorted(s, rank)
    ensures Filter(Insert(x, s, rank), keep)
         == if keep(x) then Insert(x, Filter(s, keep), rank) else Filter(s, keep)
  {
    if s == [] {
      FilterCons(x, s, keep);
    } else if LexLe(rank(x), rank(s[0])) {
      FilterCons(x, s, keep);
      InsertBeforeFiltered(x, s, rank, keep);
    } else {
      var t := s[1..];
      assert s == [s[0]] + t;
      FilterCons(s[0], Insert(x, t, rank), keep);
      FilterCons(s[0], t, keep);
      InsertFilter(x, t, rank, keep);
      if keep(x) && keep(s[0]) {
        InsertAfter(x, s[0], Filter(t, keep), rank);
      }
    }
  }

  lemma InsertAfter<T>(x: T, y: T, s: seq<T>, rank: T -> seq<int>)
    requires !LexLe(rank(x), rank(y))
    ensures Insert(x, [y] + s, rank) == [y] + Insert(x, s, rank)
  {
    assert ([y] + s)[1..] == s;
  }

  lemma InsertBeforeFiltered<T>(x: T, s: seq<T>, rank: T -> seq<int>, keep: T -> bool)
    requires s != [] && Sorted(s, rank) && LexLe(rank(x), rank(s[0]))
    ensures Insert(x, Filter(s, keep), rank) == [x] + Filter(s, keep)
  {
    var f := Filter(s, keep);
    if f != [] {
      assert f[0] in s;
      var k :| 0 <= k < |s| && s[k] == f[0];
      if k > 0 { LexTransitive(rank(x), rank(s[0]), rank(s[k])); }
    }
  }

  /** Stability: sorting and taking a subsequence commute. */
  lemma {:induction false} SortFilter<T>(s: seq<T>, rank: T -> seq<int>, keep: T -> bool)
    ensures Filter(SortBy(s, rank), keep) == SortBy(Filter(s, keep), rank)
  {
    if s != [] {
      var t := s[1..];
      assert s == [s[0]] + t;
      FilterCons(s[0], t, keep);
      SortSorted(t, rank);
      InsertFilter(s[0], SortBy(t, rank), rank, keep);
      SortFilter(t, rank, keep);
      if keep(s[0]) {
        assert ([s[0]] + Filter(t, keep))[1..] == Filter(t, keep);
      }
    }
  }

  /** Two sorted arrangements of the same elements agree when ranks identify elements. */
  lemma {:induction false} SortedUnique<T>(s: seq<T>, t: seq<T>, rank: T -> seq<int>)
    requires Sorted(s, rank) && Sorted(t, rank) && multiset(s) == multiset(t)
    requires forall x, y | x in s && y in s && rank(x) == rank(y) :: x == y
    ensures s == t
  {
    SameMultisetSameElements(s, t);
    if s != [] {
      SameHead(s, t, rank);
      SameTail(s, t);
      assert s == [s[0]] + s[1..] && t == [t[0]] + t[1..];
      SortedUnique(s[1..], t[1..], rank);
    }
  }

  lemma SameTail<T>(s: seq<T>, t: seq<T>)
    requires multiset(s) == multiset(t) && s != [] && t != [] && s[0] == t[0]
    ensures multiset(s[1..]) == multiset(t[1..])
  {
    assert s == [s[0]] + s[1..] && t == [t[0]] + t[1..];
    assert multiset(s[1..]) == multiset(s) - multiset{s[0]};
    assert multiset(t[1..]) == multiset(t) - multiset{t[0]};
  }

  lemma SameHead<T>(s: seq<T>, t: seq<T>, rank: T -> seq<int>)
    requires Sorted(s, rank) && Sorted(t, rank) && multiset(s) == multiset(t) && s != [] && t != []
    requires forall x, y | x in s && y in s && rank(x) == rank(y) :: x == y
    ensures s[0] == t[0]
  {
    SameMultisetSameElements(s, t);
    assert s[0] in t && t[0] in s;
    var i :| 0 <= i < |t| && t[i] == s[0];
    var j :| 0 <= j < |s| && s[j] == t[0];
    if i != 0 && j != 0 {
      LexAntisymmetric(rank(s[0]), rank(t[0]));
    }
  }

  lemma SortPermutation<T>(s: seq<T>, t: seq<T>, rank: T -> seq<int>)
    requires multiset(s) == multiset(t)
    requires forall x, y | x in s && y in s && rank(x) == rank(y) :: x == y
    ensures SortBy(s, rank) == SortBy(t, rank)
  {
    SortSorted(s, rank);
    SortSorted(t, rank);
    SortMultiset(s, rank);
    SortMultiset(t, rank);
    SortElements(s, rank);
    SortedUnique(SortBy(s, rank), SortBy(t, rank), rank);
  }

  /** A least element of a finite set. */
  lemma LeastByRank<T>(s: set<T>, rank: T -> seq<int>) returns (x: T)
    requires s != {}
    ensures x in s && forall y | y in s :: LexLe(rank(x), rank(y))
  {
    var first :| first in s;
    var rest := s - {first};
    LexTotal(rank(first), rank(first));
    if rest == {} {
      assert s == {first};
      x := first;
    } else {
      var y := LeastByRank(rest, rank);
      LexTotal(rank(first), rank(y));
      x := if LexLe(rank(first), rank(y)) then first else y;
      forall z | z in s ensures LexLe(rank(x), rank(z)) {
        if z != first && x == first { LexTransitive(rank(x), rank(y), rank(z)); }
      }
    }
  }

  /** A sequence already in order is left alone. */
  lemma SortIdempotent<T>(s: seq<T>, rank: T -> seq<int>)
    requires Sorted(s, rank)
    ensures SortBy(s, rank) == s
  {
    if s != [] {
      SortIdempotent(s[1..], rank);
      assert s == [s[0]] + s[1..];
    }
  }
}

/** Undirected connectivity by explicit walks. */
module Connectivity {
  predicate Linked<N(==)>(edges: set<(N, N)>, a: N, b: N) {
    (a, b) in edges || (b, a) in edges
  }

  ghost predicate IsWalk<N>(edges: set<(N, N)>, p: seq<N>) {
    p != [] && forall i | 0 <= i < |p| - 1 :: Linked(edges, p[i], p[i + 1])
  }

  ghost predicate WalkBetween<N>(edges: set<(N, N)>, p: seq<N>, a: N, b: N) {
    IsWalk(edges, p) && p[0] == a && p[|p| - 1] == b
  }

  /** `a` and `b` are joined by a walk of zero or more edges. */
  ghost predicate Connected<N(!new)>(edges: set<(N, N)>, a: N, b: N) {
    exists p: seq<N> :: WalkBetween(edges, p, a, b)
  }

  lemma ConnectedRefl<N(!new)>(edges: set<(N, N)>, a: N)
    ensures Connected(edges, a, a)
  {
    assert WalkBetween(edges, [a], a, a);
  }

  lemma ConnectedEdge<N(!new)>(edges: set<(N, N)>, a: N, b: N)
    requires Linked(edges, a, b)
    ensures Connected(edges, a, b)
  {
    assert WalkBetween(edges, [a, b], a, b);
  }

  lemma ConnectedTrans<N(!new)>(edges: set<(N, N)>, a: N, b: N, c: N)
    requires Connected(edges, a, b) && Connected(edges, b, c)
    ensures Connected(edges, a, c)
  {
    var p :| WalkBetween(edges, p, a, b);
    var q :| WalkBetween(edges, q, b, c);
    var r := p + q[1..];
    forall i | 0 <= i < |r| - 1 ensures Linked(edges, r[i], r[i + 1]) {
      if i < |p| - 1 {
      } else {
        assert r[i] == q[i - |p| + 1] && r[i + 1] == q[i - |p| + 2];
      }
    }
    assert WalkBetween(edges, r, a, c);
  }

  lemma WalkReversed<N>(edges: set<(N, N)>, p: seq<N>, a: N, b: N) returns (q: seq<N>)
    requires WalkBetween(edges, p, a, b)
    ensures WalkBetween(edges, q, b, a)
  {
    q := seq(|p|, i requires 0 <= i < |p| => p[|p| - 1 - i]);
    forall i | 0 <= i < |q| - 1 ensures Linked(edges, q[i], q[i + 1]) {
      assert Linked(edges, p[|p| - 2 - i], p[|p| - 2 - i + 1]);
    }
  }

  lemma ConnectedSym<N(!new)>(edges: set<(N, N)>, a: N, b: N)
    requires Connected(edges, a, b)
    ensures Connected(edges, b, a)
  {
    var p :| WalkBetween(edges, p, a, b);
    var q := WalkReversed(edges, p, a, b);
  }

  lemma ConnectedMono<N(!new)>(small: set<(N, N)>, big: set<(N, N)>, a: N, b: N)
    requires forall e | e in small :: Linked(big, e.0, e.1)
    requires Connected(small, a, b)
    ensures Connected(big, a, b)
  {
    var p :| WalkBetween(small, p, a, b);
    forall i | 0 <= i < |p| - 1 ensures Linked(big, p[i], p[i + 1]) {
      assert Linked(small, p[i], p[i + 1]);
      assert (p[i], p[i + 1]) in small || (p[i + 1], p[i]) in small;
    }
    assert WalkBetween(big, p, a, b);
  }

  /** A labelling constant along edges is constant along walks. */
  lemma WalkInvariant<N, L>(edges: set<(N, N)>, p: seq<N>, tag: N -> L)
    requires IsWalk(edges, p)
    requires forall a, b | (a, b) in edges :: tag(a) == tag(b)
    ensures tag(p[0]) == tag(p[|p| - 1])
  {
    if |p| > 1 {
      assert Linked(edges, p[0], p[1]);
      var q := p[1..];
      forall i | 0 <= i < |q| - 1 ensures Linked(edges, q[i], q[i + 1]) {
        assert Linked(edges, p[i + 1], p[i + 2]);
      }
      WalkInvariant(edges, q, tag);
    }
  }

  lemma ConnectedInvariant<N(!new), L>(edges: set<(N, N)>, a: N, b: N, tag: N -> L)
    requires Connected(edges, a, b)
    requires forall a, b | (a, b) in edges :: tag(a) == tag(b)
    ensures tag(a) == tag(b)
  {
    var p :| WalkBetween(edges, p, a, b);
    WalkInvariant(edges, p, tag);
  }
}

/** Left folds that may fail, and the two ways runs of them are compared. */
module Folding {
  import opened Prelude

  /** Applies `step` to the elements in order, counting them from `n`, until one fails. */
  function Fold<S, E, R>(step: (S, E, nat) -> Result<S, R>, s: S, todo: seq<E>, n: nat): Result<S, R>
    decreases |todo|
  {
    if todo == [] then Ok(s)
    else match step(s, todo[0], n)
      case Err(e) => Err(e)
      case Ok(t) => Fold(step, t, todo[1..], n + 1)
  }

  lemma FoldCons<S, E, R>(step: (S, E, nat) -> Result<S, R>, s: S, e: E, rest: seq<E>, n: nat)
    ensures Fold(step, s, [e] + rest, n)
         == match step(s, e, n) case Err(x) => Err(x) case Ok(t) => Fold(step, t, rest, n + 1)
  {
    assert ([e] + rest)[1..] == rest;
  }

  /** A property kept by every step holds at the end. */
  lemma {:induction false} FoldInvariant<S(!new), E(!new), R>(
    step: (S, E, nat) -> Result<S, R>, s: S, todo: seq<E>, n: nat, good: E -> bool, inv: S -> bool)
    requires inv(s) && Fold(step, s, todo, n).Ok?
    requires forall e | e in todo :: good(e)
    requires forall t, e, k: nat | inv(t) && good(e) && step(t, e, k).Ok? :: inv(step(t, e, k).value)
    ensures inv(Fold(step, s, todo, n).value)
    decreases |todo|
  {
    if todo != [] {
      assert good(todo[0]);
      FoldInvariant(step, step(s, todo[0], n).value, todo[1..], n + 1, good, inv);
    }
  }

  /** A kept element moves both runs and keeps them related, whatever the counts. */
  ghost predicate Tandem<S(!new), E(!new), R>(
    first: (S, E, nat) -> Result<S, R>, second: (S, E, nat) -> Result<S, R>,
    good: E -> bool, keep: E -> bool, rel: (S, S) -> bool)
  {
    forall u, v, e, i: nat, j: nat | rel(u, v) && good(e) && keep(e) && j <= i && first(u, e, i).Ok? ::
      second(v, e, j).Ok? && rel(first(u, e, i).value, second(v, e, j).value)
  }

  /** Any other element moves the first run alone and keeps the runs related. */
  ghost predicate Idle<S(!new), E(!new), R>(
    first: (S, E, nat) -> Result<S, R>, good: E -> bool, keep: E -> bool, rel: (S, S) -> bool)
  {
    forall u, v, e, i: nat | rel(u, v) && good(e) && !keep(e) && first(u, e, i).Ok? :: rel(first(u, e, i).value, v)
  }

  /** Two runs stay related when kept elements move both and other elements only the first; the
      second run then sees just the kept elements, and never counts further. */
  lemma {:induction false} FoldSimulation<S(!new), E(!new), R>(
    first: (S, E, nat) -> Result<S, R>, second: (S, E, nat) -> Result<S, R>,
    s: S, t: S, todo: seq<E>, n: nat, m: nat, good: E -> bool, keep: E -> bool, rel: (S, S) -> bool)
    requires rel(s, t) && m <= n && Fold(first, s, todo, n).Ok?
    requires forall e | e in todo :: good(e)
    requires Tandem(first, second, good, keep, rel) && Idle(first, good, keep, rel)
    ensures Fold(second, t, Filter(todo, keep), m).Ok?
    ensures rel(Fold(first, s, todo, n).value, Fold(second, t, Filter(todo, keep), m).value)
    decreases |todo|
  {
    if todo != [] {
      var e, rest := todo[0], todo[1..];
      assert todo == [e] + rest && good(e);
      FilterCons(e, rest, keep);
      var u := first(s, e, n).value;
      if keep(e) {
        TandemStep(first, second, s, t, e, n, m, good, keep, rel);
        FoldCons(second, t, e, Filter(rest, keep), m);
        FoldSimulation(first, second, u, second(t, e, m).value, rest, n + 1, m + 1, good, keep, rel);
      } else {
        IdleStep(first, s, t, e, n, good, keep, rel);
        FoldSimulation(first, second, u, t, rest, n + 1, m, good, keep, rel);
      }
    }
  }

  lemma TandemStep<S(!new), E(!new), R>(
    first: (S, E, nat) -> Result<S, R>, second: (S, E, nat) -> Result<S, R>,
    s: S, t: S, e: E, n: nat, m: nat, good: E -> bool, keep: E -> bool, rel: (S, S) -> bool)
    requires Tandem(first, second, good, keep, rel)
    requires rel(s, t) && good(e) && keep(e) && m <= n && first(s, e, n).Ok?
    ensures second(t, e, m).Ok? && rel(first(s, e, n).value, second(t, e, m).value)
  {
  }

  lemma IdleStep<S(!new), E(!new), R>(
    first: (S, E, nat) -> Result<S, R>,
    s: S, t: S, e: E, n: nat, good: E -> bool, keep: E -> bool, rel: (S, S) -> bool)
    requires Idle(first, good, keep, rel) && rel(s, t) && good(e) && !keep(e) && first(s, e, n).Ok?
    ensures rel(first(s, e, n).value, t)
  {
  }

  /** Two folds over the same elements, on different states, succeed together and end related when
      every step below `bound` does. */
  lemma {:induction false} FoldAgree<S(!new), T(!new), E(!new), R>(
    first: (S, E, nat) -> Result<S, R>, second: (T, E, nat) -> Result<T, R>,
    s: S, t: T, todo: seq<E>, n: nat, bound: nat, good: E -> bool, rel: (S, T) -> bool)
    requires rel(s, t) && n + |todo| <= bound && forall e | e in todo :: good(e)
    requires forall u, v, e, i: nat | rel(u, v) && good(e) && i < bound ::
      (first(u, e, i).Ok? <==> second(v, e, i).Ok?)
        && (first(u, e, i).Ok? ==> rel(first(u, e, i).value, second(v, e, i).value))
    ensures Fold(first, s, todo, n).Ok? <==> Fold(second, t, todo, n).Ok?
    ensures Fold(first, s, todo, n).Ok? ==> rel(Fold(first, s, todo, n).value, Fold(second, t, todo, n).value)
    decreases |todo|
  {
    if todo != [] {
      assert good(todo[0]);
      if first(s, todo[0], n).Ok? {
        FoldAgree(first, second, first(s, todo[0], n).value, second(t, todo[0], n).value, todo[1..], n + 1, bound,
          good, rel);
      }
    }
  }
}
