/** The client's list utilities (src/utils/dndUtils.ts): moving one element of
    the ranking to another position, the partial-credit score of a ranking
    against the correct order, and the maximum score formula. */
module DndUtils {
  import opened Common

  // ---- arrayMove ----

  /** Reference meaning of a move: the element at `from` lands at `to`, the
      elements strictly between shift by one towards `from`'s old place, and
      every other position keeps its element. */
  function Moved<T>(s: seq<T>, from: nat, to: nat): (r: seq<T>)
    requires from < |s| && to < |s|
  {
    seq(|s|, k requires 0 <= k < |s| =>
      if k == to then s[from]
      else if from < to && from <= k < to then s[k + 1]
      else if to < from && to < k <= from then s[k - 1]
      else s[k])
  }

  /** `arrayMove(items, fromIndex, toIndex)`: copies the list, removes the element
      at `fromIndex` and inserts it at `toIndex`. The argument is a value, so the
      caller's list is left as it was. */
  method ArrayMove<T>(items: seq<T>, from: nat, to: nat) returns (r: seq<T>)
    requires from < |items| && to < |items|
    ensures r == Moved(items, from, to)
  {
    var newArray := items;
    var element := newArray[from];
    newArray := newArray[..from] + newArray[from + 1..];
    assert forall k :: 0 <= k < from ==> newArray[k] == items[k];
    assert forall k :: from <= k < |newArray| ==> newArray[k] == items[k + 1];
    newArray := newArray[..to] + [element] + newArray[to..];
    r := newArray;
  }

  /** A move is the removal of the element at `from` followed by its
      insertion at `to`. */
  lemma MovedIsSplice<T>(s: seq<T>, from: nat, to: nat)
    requires from < |s| && to < |s|
    ensures var rest := s[..from] + s[from + 1..];
      Moved(s, from, to) == rest[..to] + [s[from]] + rest[to..]
  {
    var rest := s[..from] + s[from + 1..];
    assert forall k :: 0 <= k < |rest| ==> rest[k] == if k < from then s[k] else s[k + 1];
    var spliced := rest[..to] + [s[from]] + rest[to..];
    forall k | 0 <= k < |s| ensures Moved(s, from, to)[k] == spliced[k] {
      if k < to {
        assert spliced[k] == rest[k];
      } else if k > to {
        assert spliced[k] == rest[k - 1];
      }
    }
  }

  /** A move only rearranges the list. */
  lemma MovedPermutes<T>(s: seq<T>, from: nat, to: nat)
    requires from < |s| && to < |s|
    ensures multiset(Moved(s, from, to)) == multiset(s)
  {
    var x := s[from];
    var rest := s[..from] + s[from + 1..];
    assert s == s[..from] + [x] + s[from + 1..];
    assert multiset(s) == multiset(rest) + multiset{x};
    MovedIsSplice(s, from, to);
    assert rest == rest[..to] + rest[to..];
  }

  /** The moved element lands at `to`, outside the range between `from` and
      `to` nothing moves, and a move onto the same position changes nothing. */
  lemma MovedPositions<T>(s: seq<T>, from: nat, to: nat, k: nat)
    requires from < |s| && to < |s| && k < |s|
    ensures |Moved(s, from, to)| == |s| && Moved(s, from, to)[to] == s[from]
    ensures (k < from && k < to) || (k > from && k > to) ==> Moved(s, from, to)[k] == s[k]
    ensures from == to ==> Moved(s, from, to) == s
  {
  }

  /** Moving the element back to where it came from restores the list. */
  lemma MoveBack<T>(s: seq<T>, from: nat, to: nat)
    requires from < |s| && to < |s|
    ensures Moved(Moved(s, from, to), to, from) == s
  {
    var r := Moved(s, from, to);
    var b := Moved(r, to, from);
    forall k | 0 <= k < |s| ensures b[k] == s[k] {
      if k == from {
      } else if from < to && from < k <= to {
        assert b[k] == r[k - 1];
      } else if to < from && from < k {
      } else if to < from && to <= k < from {
        assert b[k] == r[k + 1];
      }
    }
  }

  // ---- calculateScore ----

  /** The points the item at `userIndex` earns: `N - 1 - |userIndex - correctIndex|`
      when positive, else nothing, with N the length of the user's list and the
      correct index -1 for an id the correct order lacks. */
  function ItemPoints(userRanks: seq<University>, correctOrder: seq<University>, userIndex: nat): (p: nat)
    requires userIndex < |userRanks|
    ensures p <= |userRanks| - 1
    ensures p == |userRanks| - 1 <==> (|userRanks| == 1 || FindIndex(correctOrder, userRanks[userIndex].id) == userIndex)
  {
    var correctIndex := FindIndex(correctOrder, userRanks[userIndex].id);
    var points := |userRanks| - 1 - Abs(userIndex - correctIndex);
    if points > 0 then points else 0
  }

  /** The sum of the points of the first `k` items. */
  function PartialCredit(userRanks: seq<University>, correctOrder: seq<University>, k: nat): nat
    requires k <= |userRanks|
  {
    if k == 0 then 0
    else PartialCredit(userRanks, correctOrder, k - 1) + ItemPoints(userRanks, correctOrder, k - 1)
  }

  /** `calculateScore(userRanks, correctOrder)`: accumulates the points of each
      item of the user's list in order. */
  method CalculateScore(userRanks: seq<University>, correctOrder: seq<University>) returns (currentScore: nat)
    ensures currentScore == PartialCredit(userRanks, correctOrder, |userRanks|)
    ensures currentScore <= |userRanks| * (|userRanks| - 1)
  {
    currentScore := 0;
    var userIndex := 0;
    while userIndex < |userRanks|
      invariant 0 <= userIndex <= |userRanks|
      invariant currentScore == PartialCredit(userRanks, correctOrder, userIndex)
    {
      var correctIndex := FindIndex(correctOrder, userRanks[userIndex].id);
      var difference := Abs(userIndex - correctIndex);
      var points := |userRanks| - 1 - difference;
      assert ItemPoints(userRanks, correctOrder, userIndex) == if points > 0 then points else 0;
      if points > 0 {
        currentScore := currentScore + points;
      }
      userIndex := userIndex + 1;
    }
    PartialCreditBound(userRanks, correctOrder, |userRanks|);
  }

  /** Each of the first `k` items earns at most N - 1. */
  lemma {:induction false} PartialCreditBound(userRanks: seq<University>, correctOrder: seq<University>, k: nat)
    requires k <= |userRanks|
    ensures PartialCredit(userRanks, correctOrder, k) <= k * (|userRanks| - 1)
  {
    if k > 0 {
      var m := |userRanks| - 1;
      PartialCreditBound(userRanks, correctOrder, k - 1);
      MulStep(k, m);
    }
  }

  /** Each of the first `k` items sits at its index in the correct order. */
  predicate AllPlaced(userRanks: seq<University>, correctOrder: seq<University>, k: nat)
    requires k <= |userRanks|
  {
    forall i :: 0 <= i < k ==> FindIndex(correctOrder, userRanks[i].id) == i
  }

  /** The first `k` items all earn the full N - 1 exactly when each of them
      sits at its correct index (or the list has one element, where every item
      earns nothing). */
  lemma {:induction false} PartialCreditFull(userRanks: seq<University>, correctOrder: seq<University>, k: nat)
    requires k <= |userRanks|
    ensures PartialCredit(userRanks, correctOrder, k) == k * (|userRanks| - 1) <==>
      (|userRanks| == 1 || AllPlaced(userRanks, correctOrder, k))
  {
    var m := |userRanks| - 1;
    if k == 0 {
    } else if m == 0 {
      PartialCreditBound(userRanks, correctOrder, k);
      MulStep(k, m);
    } else {
      var before := PartialCredit(userRanks, correctOrder, k - 1);
      var last := ItemPoints(userRanks, correctOrder, k - 1);
      var placed := FindIndex(correctOrder, userRanks[k - 1].id) == k - 1;
      assert PartialCredit(userRanks, correctOrder, k) == k * m <==> before == (k - 1) * m && last == m by {
        PartialCreditBound(userRanks, correctOrder, k - 1);
        MulStep(k, m);
        SumAtBound(before, last, (k - 1) * m, m);
      }
      assert last == m <==> placed;
      PartialCreditFull(userRanks, correctOrder, k - 1);
      AllPlacedStep(userRanks, correctOrder, k);
    }
  }

  lemma AllPlacedStep(userRanks: seq<University>, correctOrder: seq<University>, k: nat)
    requires 0 < k <= |userRanks|
    ensures AllPlaced(userRanks, correctOrder, k) <==>
      AllPlaced(userRanks, correctOrder, k - 1) && FindIndex(correctOrder, userRanks[k - 1].id) == k - 1
  {
  }

  lemma SumAtBound(a: int, b: int, boundA: int, boundB: int)
    requires a <= boundA && b <= boundB
    ensures a + b == boundA + boundB <==> a == boundA && b == boundB
  {
  }

  lemma MulStep(k: nat, m: nat)
    requires k > 0
    ensures k * m == (k - 1) * m + m
  {
  }

  /** The best score: a list of N items scores N * (N - 1) exactly when every
      item is at its position in the correct order (for N >= 2). */
  lemma ScoreMaximalIff(userRanks: seq<University>, correctOrder: seq<University>)
    requires |userRanks| >= 2
    ensures PartialCredit(userRanks, correctOrder, |userRanks|) == |userRanks| * (|userRanks| - 1) <==>
      forall i :: 0 <= i < |userRanks| ==> FindIndex(correctOrder, userRanks[i].id) == i
  {
    PartialCreditFull(userRanks, correctOrder, |userRanks|);
  }

  /** Submitting the correct order itself (with distinct ids) earns N * (N - 1). */
  lemma PerfectOrderScore(correctOrder: seq<University>)
    requires Distinct(Ids(correctOrder))
    ensures PartialCredit(correctOrder, correctOrder, |correctOrder|) == |correctOrder| * (|correctOrder| - 1)
  {
    forall i | 0 <= i < |correctOrder| ensures FindIndex(correctOrder, correctOrder[i].id) == i {
      FindIndexOfDistinct(correctOrder, i);
    }
    PartialCreditFull(correctOrder, correctOrder, |correctOrder|);
  }

  // ---- calculateMaxScore ----

  /** `calculateMaxScore(N)`: `N * (N - 1) / 2`, which is always a whole number. */
  function CalculateMaxScore(n: nat): (r: nat)
    ensures 2 * r == n * (n - 1)
  {
    ProductOfConsecutiveIsEven(n);
    n * (n - 1) / 2
  }

  lemma {:induction false} ProductOfConsecutiveIsEven(n: nat)
    ensures n * (n - 1) % 2 == 0
  {
    if n > 0 {
      ProductOfConsecutiveIsEven(n - 1);
      assert n * (n - 1) == (n - 1) * (n - 2) + 2 * (n - 1);
    }
  }

  /** The maximum of the partial-credit score: N items of at most N - 1 points,
      attained by the correct order. */
  function MaxPartialCredit(n: nat): nat
  {
    n * (n - 1)
  }

  /** No ranking scores more than `MaxPartialCredit`, and the correct order
      reaches it. */
  lemma MaxPartialCreditIsMaximum(userRanks: seq<University>, correctOrder: seq<University>)
    ensures PartialCredit(userRanks, correctOrder, |userRanks|) <= MaxPartialCredit(|userRanks|)
    ensures Distinct(Ids(correctOrder)) ==>
      PartialCredit(correctOrder, correctOrder, |correctOrder|) == MaxPartialCredit(|correctOrder|)
  {
    PartialCreditBound(userRanks, correctOrder, |userRanks|);
    if Distinct(Ids(correctOrder)) {
      PerfectOrderScore(correctOrder);
    }
  }

  /** `calculateMaxScore` is not the maximum of `calculateScore`: the correct
      order of five universities scores 20, twice `calculateMaxScore(5) == 10`. */
  lemma PerfectScoreExceedsMaxScore(correctOrder: seq<University>)
    requires |correctOrder| == 5 && Distinct(Ids(correctOrder))
    ensures CalculateMaxScore(5) == 10
    ensures PartialCredit(correctOrder, correctOrder, 5) == 20
    ensures PartialCredit(correctOrder, correctOrder, 5) > CalculateMaxScore(|correctOrder|)
  {
    PerfectOrderScore(correctOrder);
  }
}
