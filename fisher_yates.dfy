/** The descending Fisher-Yates (Durstenfeld) swap loop
      for (let i = out.length - 1; i > 0; i--) { swap out[i] and out[j] }
    shared by prisma/seed.ts:35-38 and src/hooks/useDailyChallenge.ts:9-12.
    The two differ only in where `j` comes from, so the loop is specified here
    once, over the sequence of swap partners. */
module FisherYates {

  /** `[out[i], out[j]] = [out[j], out[i]]` */
  function Swap<T>(s: seq<T>, i: nat, j: nat): (r: seq<T>)
    requires i < |s| && j < |s|
    ensures |r| == |s| && r[i] == s[j] && r[j] == s[i]
  {
    s[i := s[j]][j := s[i]]
  }

  lemma SwapPermutes<T>(s: seq<T>, i: nat, j: nat)
    requires i < |s| && j < |s|
    ensures multiset(Swap(s, i, j)) == multiset(s)
  {
  }

  /** `js[i]` is the partner the loop swaps position `i` with; it lies in [0, i].
      (`js[0]` is never used: the loop stops before index 0.) */
  predicate ValidPicks(js: seq<int>, n: nat)
  {
    |js| == n && forall i :: 0 < i < n ==> 0 <= js[i] <= i
  }

  /** The list after the loop has run for every index from `i` down to 1. */
  function Shuffled<T>(s: seq<T>, js: seq<int>, i: int): (r: seq<T>)
    requires ValidPicks(js, |s|) && i < |s|
    ensures |r| == |s|
    decreases i
  {
    if i <= 0 then s else Shuffled(Swap(s, i, js[i]), js, i - 1)
  }

  /** Whatever the picks, the loop only permutes the list. */
  lemma {:induction false} ShuffledPermutes<T>(s: seq<T>, js: seq<int>, i: int)
    requires ValidPicks(js, |s|) && i < |s|
    ensures multiset(Shuffled(s, js, i)) == multiset(s)
    decreases i
  {
    if i > 0 {
      SwapPermutes(s, i, js[i]);
      ShuffledPermutes(Swap(s, i, js[i]), js, i - 1);
    }
  }

  /** Positions the loop has not reached yet are left alone. */
  lemma {:induction false} ShuffledAbove<T>(s: seq<T>, js: seq<int>, i: int, k: nat)
    requires ValidPicks(js, |s|) && i < k < |s|
    ensures Shuffled(s, js, i)[k] == s[k]
    decreases i
  {
    if i > 0 {
      ShuffledAbove(Swap(s, i, js[i]), js, i - 1, k);
    }
  }

  /** One turn of the loop on an array, in place: swapping `a[i]` with its
      partner leaves the rest of the loop, from `i - 1`, to reach the same
      result. */
  method SwapStep<T>(a: array<T>, i: nat, j: nat, ghost js: seq<int>, ghost target: seq<T>)
    requires 0 < i < a.Length && ValidPicks(js, a.Length) && j == js[i]
    requires Shuffled(a[..], js, i) == target
    modifies a
    ensures Shuffled(a[..], js, i - 1) == target
    ensures a[..] == Swap(old(a[..]), i, j)
  {
    ghost var before := a[..];
    a[i], a[j] := a[j], a[i];
    assert a[..] == Swap(before, i, j);
  }
}
