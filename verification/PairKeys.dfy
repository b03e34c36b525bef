/** The sort key of an automatic edge: bytes whose order is the order of preference. */
module PairKeys {
  import opened Prelude
  import opened Sorting
  import opened Types
  import opened Candidates

  type Score = n: nat | n <= 0xFFFF

  datatype Item = Item(group: Group, agrees: bool, score: Option<Score>)

  /** A decided pair as far as its key looks at it. */
  datatype Edge = Edge(result: PairResult, items: seq<Item>, left: seq<int>, right: seq<int>)

  // ---- what counts ----

  /** The scores of the agreeing rules; a rule without one counts in full. */
  function Scores(items: seq<Item>): seq<Score> {
    if items == [] then []
    else
      (if items[0].agrees then [if items[0].score.Some? then items[0].score.value else 10000] else [])
      + Scores(items[1..])
  }

  function Descending(s: Score): seq<int> { [-(s as int)] }

  function Ranked(e: Edge): seq<Score> { SortBy(Scores(e.items), Descending) }

  function Groups(items: seq<Item>): set<Group> {
    set i | i in items && i.agrees :: i.group
  }

  function Tier(r: PairResult): nat {
    if r.AutomaticIdentity? then 0 else if r.AutomaticStrong? then 1 else 255
  }

  // ---- the order of preference ----

  /** At the first difference, the higher score. */
  ghost predicate Higher(s: seq<Score>, t: seq<Score>)
    requires |s| == |t|
  {
    s != [] && (s[0] > t[0] || (s[0] == t[0] && Higher(s[1..], t[1..])))
  }

  ghost predicate Less(a: seq<int>, b: seq<int>) {
    a != b && LexLe(a, b)
  }

  /** Shorter first, then by bytes. */
  ghost predicate ShortLess(a: seq<int>, b: seq<int>) {
    |a| < |b| || (|a| == |b| && Less(a, b))
  }

  /** Identity edges first, then more groups, fewer agreeing rules, higher scores, smaller sort keys. */
  ghost predicate Preferred(a: Edge, b: Edge) {
    if Tier(a.result) != Tier(b.result) then Tier(a.result) < Tier(b.result)
    else if |Groups(a.items)| != |Groups(b.items)| then |Groups(a.items)| > |Groups(b.items)|
    else if |Ranked(a)| != |Ranked(b)| then |Ranked(a)| < |Ranked(b)|
    else if Ranked(a) != Ranked(b) then Higher(Ranked(a), Ranked(b))
    else if a.left != b.left then ShortLess(a.left, b.left)
    else ShortLess(a.right, b.right)
  }

  // ---- the key ----

  function Half(n: nat): seq<int> { [n / 256, n % 256] }

  function ScoreBytes(scores: seq<Score>): seq<int> {
    if scores == [] then [] else Half(0xFFFF - scores[0]) + ScoreBytes(scores[1..])
  }

  function Sized(key: seq<int>): seq<int> { Header(|key|) + key }

  function Capped(n: nat, cap: nat): nat { if n <= cap then n else cap }

  function KeyOf(e: Edge): seq<int> {
    [1, Tier(e.result)] + (Half(0xFFFF - Capped(|Groups(e.items)|, 0xFFFF))
      + ([Capped(|Ranked(e)|, 0xFF)] + (ScoreBytes(Ranked(e)) + (Sized(e.left) + Sized(e.right)))))
  }

  lemma ScoreBytesAppend(scores: seq<Score>, s: Score)
    ensures ScoreBytes(scores + [s]) == ScoreBytes(scores) + Half(0xFFFF - s)
  {
    if scores == [] {
      assert [s][1..] == [];
    } else {
      assert (scores + [s])[1..] == scores[1..] + [s];
      ScoreBytesAppend(scores[1..], s);
    }
  }

  method PushScores(front: seq<int>, scores: seq<Score>) returns (key: seq<int>)
    ensures key == front + ScoreBytes(scores)
  {
    key := front;
    for i := 0 to |scores|
      invariant key == front + ScoreBytes(scores[..i])
    {
      assert scores[..i + 1] == scores[..i] + [scores[i]];
      ScoreBytesAppend(scores[..i], scores[i]);
      key := key + Half(0xFFFF - scores[i]);
    }
    assert scores[..|scores|] == scores;
  }

  /** Builds the key piece by piece. */
  method AutomaticSortKey(e: Edge) returns (key: seq<int>)
    ensures key == KeyOf(e)
  {
    var scores := Ranked(e);
    key := [1, Tier(e.result)];
    key := key + Half(0xFFFF - Capped(|Groups(e.items)|, 0xFFFF));
    key := key + [Capped(|scores|, 0xFF)];
    key := PushScores(key, scores);
    key := key + Sized(e.left);
    key := key + Sized(e.right);
    Regroup([1, Tier(e.result)], Half(0xFFFF - Capped(|Groups(e.items)|, 0xFFFF)), [Capped(|scores|, 0xFF)],
      ScoreBytes(scores), Sized(e.left), Sized(e.right));
  }

  lemma Regroup(a: seq<int>, b: seq<int>, c: seq<int>, d: seq<int>, e: seq<int>, f: seq<int>)
    ensures a + b + c + d + e + f == a + (b + (c + (d + (e + f))))
  {
  }

  // ---- byte order, piece by piece ----

  lemma {:induction false} LexPieces(x: seq<int>, y: seq<int>, a: seq<int>, b: seq<int>)
    requires |x| == |y|
    ensures LexLe(x + a, y + b) <==> if x == y then LexLe(a, b) else LexLe(x, y)
  {
    if x == [] {
      assert x + a == a && y + b == b;
    } else {
      assert (x + a)[1..] == x[1..] + a && (y + b)[1..] == y[1..] + b;
      assert x == [x[0]] + x[1..] && y == [y[0]] + y[1..];
      LexPieces(x[1..], y[1..], a, b);
    }
  }

  lemma LessPieces(x: seq<int>, y: seq<int>, a: seq<int>, b: seq<int>)
    requires |x| == |y|
    ensures Less(x + a, y + b) <==> if x == y then Less(a, b) else Less(x, y)
    ensures x + a == y + b <==> x == y && a == b
  {
    LexPieces(x, y, a, b);
    assert (x + a)[..|x|] == x && (y + b)[..|y|] == y;
    assert (x + a)[|x|..] == a && (y + b)[|y|..] == b;
  }

  lemma LessByte(m: int, n: int)
    ensures Less([m], [n]) <==> m < n
  {
    assert [m][1..] == [] && [n][1..] == [];
    assert [m][0] == m && [n][0] == n;
  }

  lemma LessHalf(m: nat, n: nat)
    ensures Less(Half(m), Half(n)) <==> m < n
    ensures Half(m) == Half(n) <==> m == n
  {
    LessPieces([m / 256], [n / 256], [m % 256], [n % 256]);
    LessByte(m / 256, n / 256);
    LessByte(m % 256, n % 256);
    assert Half(m) == [m / 256] + [m % 256] && Half(n) == [n / 256] + [n % 256];
    assert Half(m)[0] == m / 256 && Half(m)[1] == m % 256;
    assert Half(n)[0] == n / 256 && Half(n)[1] == n % 256;
  }

  lemma LessHeader(m: nat, n: nat)
    requires m < WORD && n < WORD
    ensures Less(Header(m), Header(n)) <==> m < n
    ensures Header(m) == Header(n) <==> m == n
  {
    HeaderIsHalves(m);
    HeaderIsHalves(n);
    LessHalves(m / 256 / 256, m % 0x1_0000, n / 256 / 256, n % 0x1_0000);
    HighThenLow(m, n);
    HighThenLow(n, m);
  }

  lemma LessHalves(a: nat, b: nat, c: nat, d: nat)
    ensures Less(Half(a) + Half(b), Half(c) + Half(d)) <==> a < c || (a == c && b < d)
    ensures Half(a) + Half(b) == Half(c) + Half(d) <==> a == c && b == d
  {
    LessPieces(Half(a), Half(c), Half(b), Half(d));
    LessHalf(a, c);
    LessHalf(b, d);
  }

  lemma HeaderIsHalves(m: nat)
    requires m < WORD
    ensures Header(m) == Half(m / 256 / 256) + Half(m % 0x1_0000)
  {
    LowHalf(m);
    assert m % WORD == m;
    assert Header(m) == [m / 256 / 256 / 256, m / 256 / 256 % 256, m / 256 % 256, m % 256];
  }

  /** The lower half of a word, byte by byte. */
  lemma LowHalf(m: nat)
    ensures m % 0x1_0000 % 256 == m % 256 && m % 0x1_0000 / 256 == m / 256 % 256
  {
    var high, middle, low := m / 256 / 256, m / 256 % 256, m % 256;
    assert m == 0x1_0000 * high + (256 * middle + low);
    assert m % 0x1_0000 == 256 * middle + low;
  }

  lemma HighThenLow(m: nat, n: nat)
    ensures m < n <==> m / 256 / 256 < n / 256 / 256 || (m / 256 / 256 == n / 256 / 256 && m % 0x1_0000 < n % 0x1_0000)
  {
    assert m / 256 / 256 == m / 0x1_0000 && n / 256 / 256 == n / 0x1_0000;
  }

  lemma ScoreBytesSize(s: seq<Score>)
    ensures |ScoreBytes(s)| == 2 * |s|
  {
  }

  lemma {:induction false} LessScores(s: seq<Score>, t: seq<Score>)
    requires |s| == |t|
    ensures Less(ScoreBytes(s), ScoreBytes(t)) <==> Higher(s, t)
    ensures ScoreBytes(s) == ScoreBytes(t) <==> s == t
  {
    if s != [] {
      LessPieces(Half(0xFFFF - s[0]), Half(0xFFFF - t[0]), ScoreBytes(s[1..]), ScoreBytes(t[1..]));
      LessHalf(0xFFFF - s[0], 0xFFFF - t[0]);
      LessScores(s[1..], t[1..]);
      assert s == [s[0]] + s[1..] && t == [t[0]] + t[1..];
    }
  }

  lemma LessSized(l: seq<int>, m: seq<int>, a: seq<int>, b: seq<int>)
    requires |l| < WORD && |m| < WORD
    ensures Less(Sized(l) + a, Sized(m) + b) <==> if l == m then Less(a, b) else ShortLess(l, m)
    ensures Sized(l) + a == Sized(m) + b <==> l == m && a == b
  {
    assert Sized(l) + a == Header(|l|) + (l + a) && Sized(m) + b == Header(|m|) + (m + b);
    LessPieces(Header(|l|), Header(|m|), l + a, m + b);
    LessHeader(|l|, |m|);
    if |l| == |m| { LessPieces(l, m, a, b); }
  }

  // ---- key order is preference ----

  /** Fewer than 256 agreeing rules, and sort keys whose length fits 32 bits. */
  ghost predicate Countable(e: Edge) {
    |Ranked(e)| <= 0xFF && |e.left| < WORD && |e.right| < WORD
  }

  lemma GroupsFew(items: seq<Item>)
    ensures |Groups(items)| <= |Scores(items)|
  {
    if items != [] {
      GroupsFew(items[1..]);
      assert items == [items[0]] + items[1..];
      assert Groups(items) == Groups(items[1..]) + if items[0].agrees then {items[0].group} else {};
    }
  }

  lemma RankedSize(e: Edge)
    ensures |Ranked(e)| == |Scores(e.items)| && |Groups(e.items)| <= |Ranked(e)|
  {
    SortMultiset(Scores(e.items), Descending);
    GroupsFew(e.items);
  }

  ghost function Tail(e: Edge): seq<int> { ScoreBytes(Ranked(e)) + (Sized(e.left) + Sized(e.right)) }

  lemma LessTail(a: Edge, b: Edge)
    requires Countable(a) && Countable(b) && |Ranked(a)| == |Ranked(b)|
    ensures Less(Tail(a), Tail(b)) <==>
      if Ranked(a) != Ranked(b) then Higher(Ranked(a), Ranked(b))
      else if a.left != b.left then ShortLess(a.left, b.left) else ShortLess(a.right, b.right)
    ensures Tail(a) == Tail(b) ==> a.left == b.left && a.right == b.right
  {
    ScoreBytesSize(Ranked(a));
    ScoreBytesSize(Ranked(b));
    LessPieces(ScoreBytes(Ranked(a)), ScoreBytes(Ranked(b)), Sized(a.left) + Sized(a.right),
      Sized(b.left) + Sized(b.right));
    LessScores(Ranked(a), Ranked(b));
    LessSized(a.left, b.left, Sized(a.right), Sized(b.right));
    LessSized(a.right, b.right, [], []);
    assert Sized(a.right) + [] == Sized(a.right) && Sized(b.right) + [] == Sized(b.right);
  }

  lemma KeyPieces(a: Edge, b: Edge)
    requires Countable(a) && Countable(b)
    ensures var g, h := |Groups(a.items)|, |Groups(b.items)|;
      var m, n := |Ranked(a)|, |Ranked(b)|;
      Less(KeyOf(a), KeyOf(b)) <==>
        if Tier(a.result) != Tier(b.result) then Tier(a.result) < Tier(b.result)
        else if g != h then g > h else if m != n then m < n else Less(Tail(a), Tail(b))
    ensures KeyOf(a) == KeyOf(b) ==> |Ranked(a)| == |Ranked(b)| && Tail(a) == Tail(b)
  {
    RankedSize(a);
    RankedSize(b);
    var g, h := 0xFFFF - |Groups(a.items)|, 0xFFFF - |Groups(b.items)|;
    var m, n := |Ranked(a)|, |Ranked(b)|;
    LessPieces([m], [n], Tail(a), Tail(b));
    LessByte(m, n);
    LessPieces(Half(g), Half(h), [m] + Tail(a), [n] + Tail(b));
    LessHalf(g, h);
    LessPieces([1, Tier(a.result)], [1, Tier(b.result)], Half(g) + ([m] + Tail(a)), Half(h) + ([n] + Tail(b)));
    LessTier(Tier(a.result), Tier(b.result));
    assert KeyOf(a) == [1, Tier(a.result)] + (Half(g) + ([m] + Tail(a)));
    assert KeyOf(b) == [1, Tier(b.result)] + (Half(h) + ([n] + Tail(b)));
  }

  lemma LessTier(s: nat, t: nat)
    ensures Less([1, s], [1, t]) <==> s < t
    ensures [1, s] == [1, t] <==> s == t
  {
    LessPieces([1], [1], [s], [t]);
    LessByte(s, t);
    assert [1] + [s] == [1, s] && [1] + [t] == [1, t];
  }

  /** Keys order edges by preference. */
  lemma KeysOrderEdges(a: Edge, b: Edge)
    requires Countable(a) && Countable(b)
    ensures Less(KeyOf(a), KeyOf(b)) <==> Preferred(a, b)
  {
    KeyPieces(a, b);
    if |Ranked(a)| == |Ranked(b)| { LessTail(a, b); }
  }

  /** Edges of different pairs have different keys. */
  lemma KeysIdentifyPairs(a: Edge, b: Edge)
    requires Countable(a) && Countable(b) && KeyOf(a) == KeyOf(b)
    ensures a.left == b.left && a.right == b.right
  {
    KeyPieces(a, b);
    LessTail(a, b);
  }

  // ---- past 255 agreeing rules ----

  function Agreeing(n: nat, score: Score): seq<Item> {
    if n == 0 then [] else [Item(0, true, Some(score))] + Agreeing(n - 1, score)
  }

  function Repeated(n: nat, score: Score): seq<Score> {
    if n == 0 then [] else [score] + Repeated(n - 1, score)
  }

  lemma AgreeingScores(n: nat, score: Score)
    ensures Scores(Agreeing(n, score)) == Repeated(n, score) && |Repeated(n, score)| == n
    ensures SortBy(Repeated(n, score), Descending) == Repeated(n, score)
    ensures Groups(Agreeing(n, score)) == if n == 0 then {} else {0}
  {
    if n > 0 {
      AgreeingScores(n - 1, score);
      var items := Agreeing(n, score);
      assert items[1..] == Agreeing(n - 1, score);
      assert items == [items[0]] + items[1..];
      assert Groups(items) == Groups(items[1..]) + {0};
      var scores := Repeated(n, score);
      assert scores[1..] == Repeated(n - 1, score);
      LexTotal(Descending(score), Descending(score));
    }
  }

  /** The count saturates at 255: beyond, an edge with more agreeing rules can come first. */
  lemma SaturatedCountMisorders(m: nat, n: nat)
    requires 255 <= m < n
    ensures var many, few :=
      Edge(AutomaticStrong, Agreeing(n, 10000), [], []), Edge(AutomaticStrong, Agreeing(m, 9999), [], []);
      Less(KeyOf(many), KeyOf(few)) && Preferred(few, many) && !Preferred(many, few)
  {
    var many, few :=
      Edge(AutomaticStrong, Agreeing(n, 10000), [], []), Edge(AutomaticStrong, Agreeing(m, 9999), [], []);
    AgreeingScores(n, 10000);
    AgreeingScores(m, 9999);
    SaturatedKey(n, 10000);
    SaturatedKey(m, 9999);
    LessPieces(Front(), Front(), Half(0xFFFF - 10000) + Back(n - 1, 10000), Half(0xFFFF - 9999) + Back(m - 1, 9999));
    LessPieces(Half(0xFFFF - 10000), Half(0xFFFF - 9999), Back(n - 1, 10000), Back(m - 1, 9999));
    LessHalf(0xFFFF - 10000, 0xFFFF - 9999);
  }

  /** At most `limit` agreeing rules, and sort keys whose length fits 32 bits. */
  ghost predicate Within(e: Edge, limit: nat) {
    |Ranked(e)| <= limit && |e.left| < WORD && |e.right| < WORD
  }

  ghost predicate OrdersWithin(limit: nat) {
    forall a, b | Within(a, limit) && Within(b, limit) :: Less(KeyOf(a), KeyOf(b)) <==> Preferred(a, b)
  }

  /** Key order is preference exactly as far as 255 agreeing rules. */
  lemma KeysOrderExactly(limit: nat)
    ensures OrdersWithin(limit) <==> limit <= 255
  {
    if limit <= 255 {
      forall a, b | Within(a, limit) && Within(b, limit) ensures Less(KeyOf(a), KeyOf(b)) <==> Preferred(a, b) {
        KeysOrderEdges(a, b);
      }
    } else {
      Misordered(255, limit);
    }
  }

  lemma Misordered(m: nat, limit: nat)
    requires 255 <= m < limit
    ensures !OrdersWithin(limit)
  {
    var many, few :=
      Edge(AutomaticStrong, Agreeing(limit, 10000), [], []), Edge(AutomaticStrong, Agreeing(m, 9999), [], []);
    SaturatedCountMisorders(m, limit);
    AgreeingScores(limit, 10000);
    AgreeingScores(m, 9999);
    assert Within(many, limit) && Within(few, limit);
  }

  // ---- keys identify pairs at any number of rules ----

  /** Scores as comparators give them, and sort keys too short for their length to look like a score. */
  const SHORT_KEY: nat := 0xD8EF_0000

  ghost predicate Ordinary(e: Edge) {
    (forall s | s in Ranked(e) :: s <= 10000) && |e.left| < SHORT_KEY && |e.right| < SHORT_KEY
  }

  lemma ScoreBytesAt(s: seq<Score>, i: nat)
    requires i < |s|
    ensures |ScoreBytes(s)| == 2 * |s| && ScoreBytes(s)[2 * i..2 * i + 2] == Half(0xFFFF - s[i])
  {
    ScoreBytesSize(s);
    if i > 0 {
      ScoreBytesAt(s[1..], i - 1);
      ScoreBytesSize(s[1..]);
      assert ScoreBytes(s)[2 * i..2 * i + 2] == ScoreBytes(s[1..])[2 * (i - 1)..2 * (i - 1) + 2];
    }
  }

  lemma SizedStarts(key: seq<int>, rest: seq<int>)
    requires |key| < SHORT_KEY
    ensures |key| / 256 / 256 < 0xD8EF && (Sized(key) + rest)[..2] == Half(|key| / 256 / 256)
  {
    HeaderIsHalves(|key|);
    TopHalf(|key|);
  }

  lemma TopHalf(n: nat)
    requires n < SHORT_KEY
    ensures n / 256 / 256 < 0xD8EF
  {
    assert n / 256 / 256 == n / 0x1_0000;
  }

  /** An edge with more scores has a score where the other has the length of its first sort key. */
  lemma MoreScoresShow(a: Edge, b: Edge)
    requires Ordinary(a) && Ordinary(b) && |Ranked(a)| < |Ranked(b)|
    ensures Tail(a) != Tail(b)
  {
    var n := |Ranked(a)|;
    ScoreBytesSize(Ranked(a));
    ScoreBytesAt(Ranked(b), n);
    SizedStarts(a.left, Sized(a.right));
    var score := Ranked(b)[n];
    assert score in Ranked(b);
    assert Tail(b)[2 * n..2 * n + 2] == Half(0xFFFF - score);
    assert Tail(a)[2 * n..2 * n + 2] == (Sized(a.left) + Sized(a.right))[..2];
    LessHalf(|a.left| / 256 / 256, 0xFFFF - score);
  }

  lemma SameTailSameEnds(a: Edge, b: Edge)
    requires |Ranked(a)| == |Ranked(b)| && Tail(a) == Tail(b)
    requires |a.left| < WORD && |b.left| < WORD && |a.right| < WORD && |b.right| < WORD
    ensures a.left == b.left && a.right == b.right
  {
    ScoreBytesSize(Ranked(a));
    ScoreBytesSize(Ranked(b));
    LessPieces(ScoreBytes(Ranked(a)), ScoreBytes(Ranked(b)), Sized(a.left) + Sized(a.right),
      Sized(b.left) + Sized(b.right));
    LessSized(a.left, b.left, Sized(a.right), Sized(b.right));
    LessSized(a.right, b.right, [], []);
    assert Sized(a.right) + [] == Sized(a.right) && Sized(b.right) + [] == Sized(b.right);
  }

  lemma SameKeySameTail(a: Edge, b: Edge)
    requires KeyOf(a) == KeyOf(b)
    ensures Tail(a) == Tail(b)
  {
    KeyEndsInTail(a);
    KeyEndsInTail(b);
  }

  lemma KeyEndsInTail(e: Edge)
    ensures |KeyOf(e)| >= 5 && KeyOf(e)[5..] == Tail(e)
  {
    var front := [1, Tier(e.result)] + Half(0xFFFF - Capped(|Groups(e.items)|, 0xFFFF)) + [Capped(|Ranked(e)|, 0xFF)];
    assert |front| == 5 && KeyOf(e) == front + Tail(e);
  }

  /** However many rules agree, edges of different pairs have different keys. */
  lemma KeysAlwaysIdentifyPairs(a: Edge, b: Edge)
    requires Ordinary(a) && Ordinary(b) && KeyOf(a) == KeyOf(b)
    ensures a.left == b.left && a.right == b.right
  {
    SameKeySameTail(a, b);
    if |Ranked(a)| < |Ranked(b)| {
      MoreScoresShow(a, b);
    } else if |Ranked(b)| < |Ranked(a)| {
      MoreScoresShow(b, a);
    } else {
      SameTailSameEnds(a, b);
    }
  }

  function Front(): seq<int> { [1, 1] + Half(0xFFFF - 1) + [0xFF] }

  function Back(n: nat, score: Score): seq<int> { ScoreBytes(Repeated(n, score)) + (Sized([]) + Sized([])) }

  lemma SaturatedCounts(n: nat, score: Score)
    requires 255 <= n
    ensures var e := Edge(AutomaticStrong, Agreeing(n, score), [], []);
      Ranked(e) == Repeated(n, score) && Capped(|Groups(e.items)|, 0xFFFF) == 1 && Capped(|Ranked(e)|, 0xFF) == 0xFF
  {
    AgreeingScores(n, score);
    assert |{0}| == 1;
  }

  lemma RepeatedBytes(n: nat, score: Score)
    requires n > 0
    ensures ScoreBytes(Repeated(n, score)) == Half(0xFFFF - score) + ScoreBytes(Repeated(n - 1, score))
  {
    assert Repeated(n, score)[1..] == Repeated(n - 1, score);
  }

  lemma SaturatedKey(n: nat, score: Score)
    requires 255 <= n
    ensures KeyOf(Edge(AutomaticStrong, Agreeing(n, score), [], [])) == Front()
      + (Half(0xFFFF - score) + Back(n - 1, score))
  {
    SaturatedCounts(n, score);
    RepeatedBytes(n, score);
    Shift([1, 1], Half(0xFFFF - 1), [0xFF], Half(0xFFFF - score), ScoreBytes(Repeated(n - 1, score)),
      Sized([]) + Sized([]));
  }

  lemma Shift(a: seq<int>, b: seq<int>, c: seq<int>, d: seq<int>, e: seq<int>, f: seq<int>)
    ensures a + (b + (c + ((d + e) + f))) == (a + b + c) + (d + (e + f))
  {
  }
}
