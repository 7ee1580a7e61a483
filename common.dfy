/** Values shared by the server, the seeder and the client: the university row
    (src/types/University.ts), optional and fallible results, lookups by id and
    the decimal text JavaScript prints for an integer. */
module Common {

  datatype Option<T> = None | Some(value: T)

  datatype Result<T, E> = Ok(value: T) | Err(error: E)

  /** A catalog row. Gameplay never changes it. */
  datatype University = University(
    id: string,
    name: string,
    ranking: int,
    studentCount: int,
    country: string,
    imageUrl: string)

  /** `list.map((u) => u.id)` */
  function Ids(us: seq<University>): seq<string>
  {
    seq(|us|, k requires 0 <= k < |us| => us[k].id)
  }

  predicate Distinct<T(==)>(s: seq<T>)
  {
    forall i, j :: 0 <= i < j < |s| ==> s[i] != s[j]
  }

  /** `list.findIndex((u) => u.id === id)`: the first position holding `id`, or -1. */
  function FindIndex(us: seq<University>, id: string): (r: int)
    ensures -1 <= r < |us|
    ensures r == -1 <==> forall k :: 0 <= k < |us| ==> us[k].id != id
    ensures 0 <= r ==> us[r].id == id && forall k :: 0 <= k < r ==> us[k].id != id
  {
    if us == [] then -1
    else if us[0].id == id then 0
    else
      var t := FindIndex(us[1..], id);
      if t == -1 then -1 else t + 1
  }

  /** With distinct ids, the position of the id stored at `k` is `k`. */
  lemma {:induction false} FindIndexOfDistinct(us: seq<University>, k: nat)
    requires Distinct(Ids(us)) && k < |us|
    ensures FindIndex(us, us[k].id) == k
  {
    if k > 0 {
      assert Ids(us)[0] != Ids(us)[k];
      assert Ids(us[1..]) == Ids(us)[1..];
      FindIndexOfDistinct(us[1..], k - 1);
    }
  }

  /** An id of the list is found. */
  function Lookup(us: seq<University>, id: string): (u: University)
    requires id in Ids(us)
    ensures u.id == id && u in us
  {
    var i :| 0 <= i < |us| && Ids(us)[i] == id;
    assert us[i].id == id;
    us[FindIndex(us, id)]
  }

  /** `Math.abs` on integers. */
  function Abs(x: int): nat
  {
    if x < 0 then -x else x
  }

  // ---- decimal text of integers, as a template literal prints them ----

  function DigitChar(d: nat): (c: char)
    requires d < 10
    ensures '0' <= c <= '9' && DigitValue(c) == d
  {
    ('0' as int + d) as char
  }

  function DigitValue(c: char): (d: nat)
    requires '0' <= c <= '9'
    ensures d < 10
  {
    (c as int) - ('0' as int)
  }

  /** `${n}` for a non-negative integer: its decimal digits, no leading zero. */
  function NatToString(n: nat): (r: string)
    ensures |r| >= 1 && forall k :: 0 <= k < |r| ==> '0' <= r[k] <= '9'
    ensures r[0] == '0' ==> n == 0
    decreases n
  {
    if n < 10 then [DigitChar(n)] else NatToString(n / 10) + [DigitChar(n % 10)]
  }

  /** `${i}` for any integer. */
  function IntToString(i: int): string
  {
    if i < 0 then "-" + NatToString(-i) else NatToString(i)
  }

  /** Reads back a string of decimal digits. */
  function DecimalValue(s: string): nat
    requires forall k :: 0 <= k < |s| ==> '0' <= s[k] <= '9'
  {
    if s == [] then 0 else DecimalValue(s[..|s| - 1]) * 10 + DigitValue(s[|s| - 1])
  }

  /** The decimal text of `n` reads back as `n`. */
  lemma {:induction false} NatToStringRoundTrip(n: nat)
    ensures DecimalValue(NatToString(n)) == n
    decreases n
  {
    var s := NatToString(n);
    if n < 10 {
      assert s[..|s| - 1] == [];
    } else {
      NatToStringRoundTrip(n / 10);
      assert s[..|s| - 1] == NatToString(n / 10);
    }
  }

  /** Different integers print differently. */
  lemma NatToStringInjective(m: nat, n: nat)
    requires NatToString(m) == NatToString(n)
    ensures m == n
  {
    NatToStringRoundTrip(m);
    NatToStringRoundTrip(n);
  }

  // ---- permutations of id-distinct lists ----

  /** A permutation of a list with distinct ids has distinct ids. */
  lemma DistinctIdsPermutation(s: seq<University>, r: seq<University>)
    requires multiset(r) == multiset(s) && Distinct(Ids(s))
    ensures Distinct(Ids(r))
  {
    forall i, j | 0 <= i < j < |r| ensures Ids(r)[i] != Ids(r)[j] {
      assert r[i] in multiset(s) && r[j] in multiset(s);
      var a :| 0 <= a < |s| && s[a] == r[i];
      var b :| 0 <= b < |s| && s[b] == r[j];
      if a == b {
        // r[i] == r[j] would occur twice in r but once in s
        OccursOnce(s, a);
        TwoPositions(r, i, j);
        assert false;
      } else if a < b {
        assert Ids(s)[a] != Ids(s)[b];
      } else {
        assert Ids(s)[b] != Ids(s)[a];
      }
    }
  }

  /** With distinct ids, each element of the list occurs once. */
  lemma OccursOnce(s: seq<University>, a: nat)
    requires Distinct(Ids(s)) && a < |s|
    ensures multiset(s)[s[a]] == 1
  {
    var x := s[a];
    var before, after := s[..a], s[a + 1..];
    assert s == before + [x] + after;
    assert x !in before by {
      forall k | 0 <= k < |before| ensures before[k] != x {
        assert Ids(s)[k] != Ids(s)[a];
      }
    }
    assert x !in after by {
      forall k | 0 <= k < |after| ensures after[k] != x {
        assert after[k] == s[a + 1 + k];
        assert Ids(s)[a] != Ids(s)[a + 1 + k];
      }
    }
  }

  /** An element found at two positions occurs at least twice. */
  lemma TwoPositions(r: seq<University>, i: nat, j: nat)
    requires i < j < |r| && r[i] == r[j]
    ensures multiset(r)[r[i]] >= 2
  {
    var x := r[i];
    assert r == r[..i] + [x] + r[i + 1..j] + [x] + r[j + 1..];
  }

  // ---- integer restatements of floating-point draws ----

  /** With a < d, the product a * n divided by d stays below n. */
  lemma MulDivBelow(a: nat, n: nat, d: nat)
    requires a < d && n > 0
    ensures (a * n) / d < n
  {
    var p, q := a * n, (a * n) / d;
    assert d * n - p == (d - a) * n;
    assert (d - a) * n > 0;
    assert d * q <= p;
    assert d * (n - q) > 0;
  }

  /** `Math.floor(value * len)` on exact reals. */
  function FloorOfProduct(value: real, len: nat): int
  {
    (value * len as real).Floor
  }

  /** A value in [0, 1) scaled by a positive `len` floors to an index below `len`. */
  lemma FloorOfProductBelow(value: real, len: nat)
    requires 0.0 <= value < 1.0 && len > 0
    ensures 0 <= FloorOfProduct(value, len) < len
  {
    var l := len as real;
    var p := value * l;
    assert 0.0 <= p by {
      assert 0.0 <= l;
    }
    assert p < l by {
      assert (1.0 - value) * l > 0.0;
      assert l - p == (1.0 - value) * l;
    }
    assert p.Floor as real <= p;
    assert (len - 1) as real + 1.0 == l;
  }

  /** Scaling the fraction n / d by `len` and taking the floor is the integer
      quotient of n * len by d. */
  lemma FloorOfScaled(n: nat, len: nat, d: nat)
    requires d > 0
    ensures (n as real / d as real * len as real).Floor == (n * len) / d
  {
    assert n as real / d as real * len as real == (n * len) as real / d as real;
    FloorOfQuotient(n * len, d);
  }

  /** The floor of an exact quotient is the integer quotient. */
  lemma FloorOfQuotient(a: nat, b: nat)
    requires b > 0
    ensures (a as real / b as real).Floor == a / b
  {
    var q, r := a / b, a % b;
    assert a == q * b + r;
    assert a as real / b as real == q as real + r as real / b as real;
  }
}
