/** The seeder's daily-game creation (prisma/seed.ts): a generator driven by the
    bytes of the date's SHA-256 digest, a seeded Fisher-Yates shuffle of the
    catalog, the metric chosen by the parity of the digest's first eight hex
    digits, the first five shuffled universities sorted into the correct order,
    and entry rows created unless the date already has a game.
    The digest itself (Node's `crypto.createHash('sha256')`) is an input. */
module Seed {
  import opened Common
  import opened RankingOrder
  import opened FisherYates
  import opened GameStore

  /** A SHA-256 digest. */
  type Digest = d: seq<bv8> | |d| == 32 witness seq(32, _ => 0 as bv8)

  // ---- the byte-indexed generator (seededRandomGenerator) ----

  /** The numerator of the k-th draw `n = (a * 256 + b) / 65536`, built from
      bytes k and k + 7 of the digest, both taken modulo its length. */
  function Word(hash: Digest, k: nat): (w: nat)
    ensures w < 65536
  {
    hash[k % |hash|] as nat * 256 + hash[(k + 7) % |hash|] as nat
  }

  /** The value a draw returns. It is below 1, so the source's `n % 1` is `n`. */
  function DrawValue(w: nat): (n: real)
    requires w < 65536
    ensures 0.0 <= n < 1.0
  {
    w as real / 65536.0
  }

  /** The generator: the digest and the counter `idx` its closure advances. */
  class ByteGenerator {
    const hash: Digest
    var idx: nat

    constructor (digest: Digest)
      ensures hash == digest && idx == 0
    {
      hash := digest;
      idx := 0;
    }

    /** One call of the returned closure, answering the numerator of its value. */
    method Next() returns (w: nat)
      modifies this
      ensures idx == old(idx) + 1
      ensures w == Word(hash, old(idx))
    {
      var a := hash[idx % |hash|];
      var b := hash[(idx + 7) % |hash|];
      idx := idx + 1;
      w := a as nat * 256 + b as nat;
    }
  }

  // ---- seededShuffle ----

  /** `Math.floor(rng() * (i + 1))` for a draw of numerator `w`, in integers. */
  function SwapIndex(w: nat, i: nat): (j: nat)
    requires w < 65536
    ensures j <= i
  {
    MulDivBelow(w, i + 1, 65536);
    (w * (i + 1)) / 65536
  }

  /** The integer formula is the floor of the exact product of the draw's value
      and `i + 1`. */
  lemma SwapIndexIsFloor(w: nat, i: nat)
    requires w < 65536
    ensures (DrawValue(w) * (i + 1) as real).Floor == SwapIndex(w, i)
  {
    assert DrawValue(w) * (i + 1) as real == (w * (i + 1)) as real / 65536.0;
    FloorOfQuotient(w * (i + 1), 65536);
  }

  /** The swap partner of loop index `i` of an n-element shuffle: the loop
      reaches index `i` on draw number n - 1 - i. */
  function SeedPick(hash: Digest, n: nat, i: nat): (j: nat)
    requires i < n
    ensures j <= i
  {
    if i == 0 then 0 else SwapIndex(Word(hash, n - 1 - i), i)
  }

  /** The swap partners of an n-element shuffle. */
  function SeedPicks(hash: Digest, n: nat): (js: seq<int>)
    ensures ValidPicks(js, n)
    ensures forall i :: 0 <= i < n ==> js[i] == SeedPick(hash, n, i)
  {
    seq(n, i requires 0 <= i < n => SeedPick(hash, n, i))
  }

  /** One turn of the shuffle loop at index `i`: draw, then swap `out[i]` with
      `out[j]`. What is left of the loop then yields the same result from
      index `i - 1`. */
  method ShuffleTurn<T>(rng: ByteGenerator, out: array<T>, i: nat, ghost js: seq<int>, ghost target: seq<T>)
    requires 0 < i < out.Length && js == SeedPicks(rng.hash, out.Length)
    requires rng.idx == out.Length - 1 - i && Shuffled(out[..], js, i) == target
    modifies rng, out
    ensures rng.idx == old(rng.idx) + 1 && Shuffled(out[..], js, i - 1) == target
  {
    ghost var before := out[..];
    assert js[i] == SeedPick(rng.hash, out.Length, i) == SwapIndex(Word(rng.hash, rng.idx), i);
    var w := rng.Next();
    assert out[..] == before;
    var j := SwapIndex(w, i);
    SwapStep(out, i, j, js, target);
  }

  /** `seededShuffle(arr, seed)`: shuffles a copy in place; the input is left as
      it was. The result is the Fisher-Yates permutation the digest selects. */
  method SeededShuffle<T>(arr: seq<T>, digest: Digest) returns (r: seq<T>)
    ensures r == Shuffled(arr, SeedPicks(digest, |arr|), |arr| - 1)
    ensures multiset(r) == multiset(arr)
  {
    ghost var js := SeedPicks(digest, |arr|);
    ghost var target := Shuffled(arr, js, |arr| - 1);
    var rng := new ByteGenerator(digest);
    var out := new T[|arr|](k requires 0 <= k < |arr| => arr[k]);
    assert out[..] == arr;
    var i := out.Length - 1;
    while i > 0
      invariant -1 <= i < out.Length == |arr|
      invariant rng.hash == digest
      invariant i >= 0 ==> rng.idx == |arr| - 1 - i
      invariant Shuffled(out[..], js, i) == target
    {
      ShuffleTurn(rng, out, i, js, target);
      i := i - 1;
    }
    r := out[..];
    ShuffledPermutes(arr, js, |arr| - 1);
  }

  // ---- the metric: parity of parseInt(hex.slice(0, 8), 16) ----

  function HexChar(n: nat): (c: char)
    requires n < 16
    ensures IsHexDigit(c) && HexValue(c) == n
  {
    if n < 10 then ('0' as int + n) as char else ('a' as int + n - 10) as char
  }

  predicate IsHexDigit(c: char)
  {
    '0' <= c <= '9' || 'a' <= c <= 'f'
  }

  function HexValue(c: char): (v: nat)
    requires IsHexDigit(c)
    ensures v < 16
  {
    if c <= '9' then (c as int) - ('0' as int) else (c as int) - ('a' as int) + 10
  }

  /** `digest('hex')`: two lower-case hex digits per byte, high nibble first. */
  function HexOf(d: seq<bv8>): (s: string)
    ensures |s| == 2 * |d|
    ensures forall k :: 0 <= k < |s| ==> IsHexDigit(s[k])
  {
    if d == [] then ""
    else
      var b := d[|d| - 1] as nat;
      HexOf(d[..|d| - 1]) + [HexChar(b / 16), HexChar(b % 16)]
  }

  /** `parseInt(s, 16)` on a string of hex digits. */
  function ParseHex(s: string): nat
    requires forall k :: 0 <= k < |s| ==> IsHexDigit(s[k])
  {
    if s == [] then 0 else ParseHex(s[..|s| - 1]) * 16 + HexValue(s[|s| - 1])
  }

  /** The bytes read as one unsigned big-endian number. */
  function BigEndian(d: seq<bv8>): nat
  {
    if d == [] then 0 else BigEndian(d[..|d| - 1]) * 256 + d[|d| - 1] as nat
  }

  /** Hex text of a byte prefix is the prefix of the hex text. */
  lemma {:induction false} HexOfPrefix(d: seq<bv8>, k: nat)
    requires k <= |d|
    ensures HexOf(d)[..2 * k] == HexOf(d[..k])
    decreases |d|
  {
    if k < |d| {
      HexOfPrefix(d[..|d| - 1], k);
      assert d[..|d| - 1][..k] == d[..k];
    } else {
      assert d[..k] == d;
    }
  }

  /** Reading the hex text back gives the big-endian value of the bytes. */
  lemma {:induction false} ParseHexOf(d: seq<bv8>)
    ensures ParseHex(HexOf(d)) == BigEndian(d)
    decreases |d|
  {
    if d != [] {
      var s := HexOf(d);
      var b := d[|d| - 1] as nat;
      var front := HexOf(d[..|d| - 1]);
      var hi, lo := HexChar(b / 16), HexChar(b % 16);
      ParseHexOf(d[..|d| - 1]);
      assert s == front + [hi, lo];
      assert s[..|s| - 1] == front + [hi];
      assert (front + [hi])[..|front|] == front;
      assert HexValue(hi) == b / 16 && HexValue(lo) == b % 16;
      calc {
        ParseHex(s);
        ParseHex(front + [hi]) * 16 + b % 16;
        (ParseHex(front) * 16 + b / 16) * 16 + b % 16;
        BigEndian(d[..|d| - 1]) * 256 + b;
      }
    }
  }

  /** `parseInt(choice.slice(0, 8), 16) % 2 === 0 ? RANKING : STUDENT_COUNT` */
  function SeedMetric(digest: Digest): Metric
  {
    HexOfPrefix(digest, 4);
    if ParseHex(HexOf(digest)[..8]) % 2 == 0 then Ranking else StudentCount
  }

  /** The first eight hex digits are the first four digest bytes as a 32-bit
      number, and the metric is RANKING exactly when the fourth byte is even. */
  lemma SeedMetricParity(digest: Digest)
    ensures ParseHex(HexOf(digest)[..8]) == BigEndian(digest[..4])
    ensures SeedMetric(digest) == Ranking <==> digest[3] as nat % 2 == 0
  {
    var d4 := digest[..4];
    HexOfPrefix(digest, 4);
    ParseHexOf(d4);
    var high, low := BigEndian(d4[..3]), d4[3] as nat;
    assert BigEndian(d4) == high * 256 + low;
    assert d4[3] == digest[3];
    ParityOfLastByte(high, low);
  }

  /** Shifting by a byte keeps the parity of the low byte. */
  lemma ParityOfLastByte(high: nat, low: nat)
    ensures (high * 256 + low) % 2 == low % 2
  {
    assert high * 256 + low == 2 * (high * 128) + low;
  }

  // ---- the daily game the seeder stores ----

  datatype SeedError = NotEnoughUniversities
  datatype SeedOutcome = Skipped | Created

  /** The game the seeder builds for `isoDate`, before the existence check. */
  function SeedGame(isoDate: string, digest: Digest, allUnis: seq<University>): Result<DailyGame, SeedError>
  {
    if |allUnis| < 5 then Err(NotEnoughUniversities)
    else
      var shuffled := Shuffled(allUnis, SeedPicks(digest, |allUnis|), |allUnis| - 1);
      var metric := SeedMetric(digest);
      Ok(DailyGame(isoDate, metric, EntriesOf(SortBy(metric, shuffled[..5]))))
  }

  /** With at least five universities the seeder builds a game of five entries
      drawn from the catalog, numbered by position, in the metric's order, and
      with distinct universities when the catalog's ids are distinct; with fewer
      it fails. */
  lemma SeedGameProperties(isoDate: string, digest: Digest, allUnis: seq<University>)
    ensures SeedGame(isoDate, digest, allUnis).Err? <==> |allUnis| < 5
    ensures SeedGame(isoDate, digest, allUnis).Ok? ==>
      var g := SeedGame(isoDate, digest, allUnis);
      var us := UniversitiesOf(g.value.entries);
      && g.value.dateKey == isoDate
      && g.value.rankingBy == SeedMetric(digest)
      && |g.value.entries| == 5
      && (forall k :: 0 <= k < 5 ==> g.value.entries[k].orderIndex == k)
      && InMetricOrder(g.value.rankingBy, us)
      && multiset(us) <= multiset(allUnis)
      && (Distinct(Ids(allUnis)) ==> Distinct(Ids(us)))
  {
    if |allUnis| >= 5 {
      var shuffled := Shuffled(allUnis, SeedPicks(digest, |allUnis|), |allUnis| - 1);
      var selected := shuffled[..5];
      var metric := SeedMetric(digest);
      var us := SortBy(metric, selected);
      EntriesRoundTrip(us);
      ShuffledPermutes(allUnis, SeedPicks(digest, |allUnis|), |allUnis| - 1);
      assert shuffled == selected + shuffled[5..];
      assert multiset(selected) <= multiset(shuffled);
      if Distinct(Ids(allUnis)) {
        DistinctIdsPermutation(allUnis, shuffled);
        assert Ids(selected) == Ids(shuffled)[..5];
        DistinctIdsPermutation(selected, us);
      }
    }
  }

  /** `prisma.dailyGame.create` followed by one `dailyGameEntry.create` per
      position of the correct list. */
  method CreateGameRows(db: Database, isoDate: string, rankingBy: Metric, correctList: seq<University>)
    modifies db
    ensures db.games == old(db.games)[isoDate := DailyGame(isoDate, rankingBy, EntriesOf(correctList))]
    ensures db.submissions == old(db.submissions)
  {
    db.games := db.games[isoDate := DailyGame(isoDate, rankingBy, [])];
    var idx := 0;
    while idx < |correctList|
      invariant 0 <= idx <= |correctList|
      invariant db.games == old(db.games)[isoDate := DailyGame(isoDate, rankingBy, EntriesOf(correctList[..idx]))]
      invariant db.submissions == old(db.submissions)
    {
      var g := db.games[isoDate];
      assert EntriesOf(correctList[..idx + 1]) == EntriesOf(correctList[..idx]) + [Entry(correctList[idx], idx)];
      db.games := db.games[isoDate := g.(entries := g.entries + [Entry(correctList[idx], idx)])];
      idx := idx + 1;
    }
    assert correctList[..idx] == correctList;
  }

  /** The daily-game part of the seeder's `main`, over the store: metric from the
      digest, the five-of-catalog selection in correct order, then either skip an
      existing game or create it and one entry row per position. */
  method SeedDailyGame(db: Database, isoDate: string, digest: Digest, allUnis: seq<University>)
    returns (r: Result<SeedOutcome, SeedError>)
    requires db.Valid()
    modifies db
    ensures db.Valid()
    ensures |allUnis| < 5 ==> r == Err(NotEnoughUniversities) && db.games == old(db.games)
    ensures |allUnis| >= 5 && isoDate in old(db.games) ==> r == Ok(Skipped) && db.games == old(db.games)
    ensures |allUnis| >= 5 && isoDate !in old(db.games) ==>
              r == Ok(Created) && db.games == old(db.games)[isoDate := SeedGame(isoDate, digest, allUnis).value]
    ensures db.submissions == old(db.submissions)
  {
    var rankingBy := SeedMetric(digest);
    if |allUnis| < 5 {
      return Err(NotEnoughUniversities);
    }
    var shuffled := SeededShuffle(allUnis, digest);
    var selected := shuffled[..5];
    var correctList := SortBy(rankingBy, selected);
    if isoDate in db.games {
      return Ok(Skipped);
    }
    assert SeedGame(isoDate, digest, allUnis).value == DailyGame(isoDate, rankingBy, EntriesOf(correctList));
    SeedGameProperties(isoDate, digest, allUnis);
    CreateGameRows(db, isoDate, rankingBy, correctList);
    return Ok(Created);
  }
}
