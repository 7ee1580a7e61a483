/** The ranking metric of a daily game and the "correct order" sort that the
    server (api/index.ts:127-130), the seeder (prisma/seed.ts:91-97) and the
    client (src/hooks/useDailyChallenge.ts:39-42) each apply with the same
    comparator. */
module RankingOrder {
  import opened Common

  /** The Prisma enum `RankingBy`. */
  datatype Metric = Ranking | StudentCount

  /** The value the API sends for a metric. */
  function ApiName(m: Metric): string
  {
    match m
    case Ranking => "RANKING"
    case StudentCount => "STUDENT_COUNT"
  }

  /** The sort comparator: a negative result puts `a` before `b`. */
  function Compare(m: Metric, a: University, b: University): (c: int)
    ensures c == Key(m, a) - Key(m, b)
  {
    match m
    case StudentCount => b.studentCount - a.studentCount
    case Ranking => a.ranking - b.ranking
  }

  /** The quantity the comparator orders by, ascending. */
  function Key(m: Metric, u: University): int
  {
    match m
    case StudentCount => -u.studentCount
    case Ranking => u.ranking
  }

  predicate SortedByKey(m: Metric, s: seq<University>)
  {
    forall i, j :: 0 <= i < j < |s| ==> Key(m, s[i]) <= Key(m, s[j])
  }

  /** Best first: the largest student count, or the smallest rank number. */
  predicate InMetricOrder(m: Metric, s: seq<University>)
  {
    match m
    case StudentCount => forall i, j :: 0 <= i < j < |s| ==> s[i].studentCount >= s[j].studentCount
    case Ranking => forall i, j :: 0 <= i < j < |s| ==> s[i].ranking <= s[j].ranking
  }

  /** Prepending an element no greater than the head keeps a list sorted. */
  lemma SortedCons(m: Metric, a: University, s: seq<University>)
    requires SortedByKey(m, s) && (s != [] ==> Key(m, a) <= Key(m, s[0]))
    ensures SortedByKey(m, [a] + s)
  {
    var r := [a] + s;
    forall i, j | 0 <= i < j < |r| ensures Key(m, r[i]) <= Key(m, r[j]) {
      if i == 0 {
        assert r[j] == s[j - 1];
        assert Key(m, s[0]) <= Key(m, s[j - 1]) || j == 1;
      } else {
        assert r[i] == s[i - 1] && r[j] == s[j - 1];
      }
    }
  }

  /** Puts `x` into `t` after every element that does not compare above it,
      so that ties keep their earlier order. */
  function Insert(m: Metric, x: University, t: seq<University>): (r: seq<University>)
    ensures |r| == |t| + 1
  {
    if t == [] then [x]
    else if Compare(m, x, t[0]) < 0 then [x] + t
    else [t[0]] + Insert(m, x, t[1..])
  }

  /** Inserting into a sorted list keeps it sorted; the new head is `x` or the
      old head. */
  lemma {:induction false} InsertSorted(m: Metric, x: University, t: seq<University>)
    requires SortedByKey(m, t)
    ensures SortedByKey(m, Insert(m, x, t))
    ensures Insert(m, x, t)[0] == x || (t != [] && Insert(m, x, t)[0] == t[0])
  {
    if t == [] {
    } else if Compare(m, x, t[0]) < 0 {
      SortedCons(m, x, t);
    } else {
      InsertSorted(m, x, t[1..]);
      SortedCons(m, t[0], Insert(m, x, t[1..]));
    }
  }

  /** Inserting adds exactly `x`. */
  lemma {:induction false} InsertPermutes(m: Metric, x: University, t: seq<University>)
    ensures multiset(Insert(m, x, t)) == multiset(t) + multiset{x}
  {
    if t != [] && Compare(m, x, t[0]) >= 0 {
      InsertPermutes(m, x, t[1..]);
      assert t == [t[0]] + t[1..];
    }
  }

  /** `[...list].sort(comparator)`: JavaScript's sort is stable, and so is this
      insertion sort. The result is a permutation of the input, ordered best
      first under the metric. */
  function SortBy(m: Metric, s: seq<University>): (r: seq<University>)
    ensures |r| == |s| && multiset(r) == multiset(s)
    ensures SortedByKey(m, r)
    ensures InMetricOrder(m, r)
  {
    if s == [] then []
    else
      assert s == s[..|s| - 1] + [s[|s| - 1]];
      InsertSorted(m, s[|s| - 1], SortBy(m, s[..|s| - 1]));
      InsertPermutes(m, s[|s| - 1], SortBy(m, s[..|s| - 1]));
      Insert(m, s[|s| - 1], SortBy(m, s[..|s| - 1]))
  }

  /** Sorting keeps exactly the input's elements, and distinct ids stay distinct. */
  lemma SortByKeepsIds(m: Metric, s: seq<University>)
    requires Distinct(Ids(s))
    ensures Distinct(Ids(SortBy(m, s)))
    ensures forall u :: u in SortBy(m, s) <==> u in s
  {
    var r := SortBy(m, s);
    forall u ensures u in r <==> u in s {
      assert u in r <==> u in multiset(r);
      assert u in s <==> u in multiset(s);
    }
    DistinctIdsPermutation(s, r);
  }

  // ---- stability ----

  /** The elements of `s` whose key is `k`, in their order in `s`. */
  function WithKey(m: Metric, k: int, s: seq<University>): (r: seq<University>)
    ensures |r| <= |s|
  {
    if s == [] then []
    else (if Key(m, s[0]) == k then [s[0]] else []) + WithKey(m, k, s[1..])
  }

  lemma {:induction false} WithKeyAppend(m: Metric, k: int, a: seq<University>, b: seq<University>)
    ensures WithKey(m, k, a + b) == WithKey(m, k, a) + WithKey(m, k, b)
  {
    if a != [] {
      assert (a + b)[1..] == a[1..] + b;
      WithKeyAppend(m, k, a[1..], b);
    } else {
      assert a + b == b;
    }
  }

  lemma {:induction false} WithKeyNone(m: Metric, k: int, s: seq<University>)
    requires forall i :: 0 <= i < |s| ==> Key(m, s[i]) != k
    ensures WithKey(m, k, s) == []
  {
    if s != [] {
      WithKeyNone(m, k, s[1..]);
    }
  }

  lemma WithKeyCons(m: Metric, k: int, a: University, s: seq<University>)
    ensures WithKey(m, k, [a] + s) == (if Key(m, a) == k then [a] else []) + WithKey(m, k, s)
  {
    assert ([a] + s)[1..] == s;
  }

  lemma SortedTail(m: Metric, t: seq<University>)
    requires SortedByKey(m, t) && t != []
    ensures SortedByKey(m, t[1..])
  {
    forall i, j | 0 <= i < j < |t| - 1 ensures Key(m, t[1..][i]) <= Key(m, t[1..][j]) {
      assert t[1..][i] == t[i + 1] && t[1..][j] == t[j + 1];
    }
  }

  /** No element of a sorted list whose head's key exceeds `Key(m, x)` has
      the key of `x`. */
  lemma NoTiesAbove(m: Metric, x: University, t: seq<University>)
    requires SortedByKey(m, t) && t != [] && Key(m, x) < Key(m, t[0])
    ensures WithKey(m, Key(m, x), t) == []
  {
    forall i | 0 <= i < |t| ensures Key(m, t[i]) != Key(m, x) {
      assert i == 0 || Key(m, t[0]) <= Key(m, t[i]);
    }
    WithKeyNone(m, Key(m, x), t);
  }

  /** `x` alone when its key is `k`, otherwise nothing. */
  function Tie(m: Metric, k: int, x: University): (r: seq<University>)
    ensures r == WithKey(m, k, [x])
  {
    if Key(m, x) == k then [x] else []
  }

  /** Putting `x` in front of a sorted list whose head's key is above it adds
      `x` after the elements of its key. */
  lemma InsertBeforeHead(m: Metric, k: int, x: University, t: seq<University>)
    requires SortedByKey(m, t) && t != [] && Key(m, x) < Key(m, t[0])
    ensures WithKey(m, k, [x] + t) == WithKey(m, k, t) + Tie(m, k, x)
  {
    WithKeyCons(m, k, x, t);
    if Key(m, x) == k {
      NoTiesAbove(m, x, t);
    }
  }

  /** Keeping the head in front of a list that gained `tail` after the
      elements of key `k` of the rest. */
  lemma KeepHead(m: Metric, k: int, t: seq<University>, r: seq<University>, tail: seq<University>)
    requires t != [] && WithKey(m, k, r) == WithKey(m, k, t[1..]) + tail
    ensures WithKey(m, k, [t[0]] + r) == WithKey(m, k, t) + tail
  {
    WithKeyCons(m, k, t[0], r);
    WithKeyCons(m, k, t[0], t[1..]);
    assert [t[0]] + t[1..] == t;
  }

  /** Inserting into a sorted list puts `x` after the elements of its key. */
  lemma {:induction false} InsertAfterTies(m: Metric, k: int, x: University, t: seq<University>)
    requires SortedByKey(m, t)
    ensures WithKey(m, k, Insert(m, x, t)) == WithKey(m, k, t) + Tie(m, k, x)
  {
    if t == [] {
      assert Insert(m, x, t) == [x];
    } else if Compare(m, x, t[0]) < 0 {
      InsertBeforeHead(m, k, x, t);
    } else {
      SortedTail(m, t);
      InsertAfterTies(m, k, x, t[1..]);
      KeepHead(m, k, t, Insert(m, x, t[1..]), Tie(m, k, x));
    }
  }

  lemma SplitLast(s: seq<University>)
    requires s != []
    ensures s == s[..|s| - 1] + [s[|s| - 1]]
  {
  }

  /** The sort is stable: universities with equal keys keep their relative
      order, as `Array.prototype.sort` guarantees. */
  lemma {:induction false} SortByStable(m: Metric, k: int, s: seq<University>)
    ensures WithKey(m, k, SortBy(m, s)) == WithKey(m, k, s)
  {
    if s != [] {
      var init, last := s[..|s| - 1], s[|s| - 1];
      assert SortBy(m, s) == Insert(m, last, SortBy(m, init));
      SortByStable(m, k, init);
      InsertAfterTies(m, k, last, SortBy(m, init));
      SplitLast(s);
      WithKeyAppend(m, k, init, [last]);
    }
  }
}
