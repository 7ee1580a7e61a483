/** The game server (api/index.ts): the date-seeded generator, read-or-create
    of the daily game with its five picked universities, the `/daily` view and
    the scoring and storing of a submission. Requests, cookies and the
    relational store are replaced by parameters and the abstract `Database`. */
module ApiServer {
  import opened Common
  import opened RankingOrder
  import opened GameStore

  // ---- xorshift32(seedStr): the FNV-1a seed ----

  const FnvOffsetBasis: bv32 := 2166136261
  const FnvPrime: bv32 := 16777619

  /** A sequence of UTF-16 code units. */
  predicate IsUnits(units: seq<nat>)
  {
    forall k :: 0 <= k < |units| ==> units[k] < 0x10000
  }

  /** The UTF-16 code units `charCodeAt` reads for one character: itself below
      0x10000, else a high and a low surrogate that decode back to it. */
  function Utf16(c: char): (units: seq<nat>)
    ensures 1 <= |units| <= 2 && IsUnits(units)
    ensures (c as int) < 0x10000 ==> units == [c as int]
    ensures (c as int) >= 0x10000 ==>
      && |units| == 2
      && 0xD800 <= units[0] < 0xDC00 <= units[1] < 0xE000
      && (units[0] - 0xD800) * 0x400 + (units[1] - 0xDC00) + 0x10000 == c as int
  {
    var n := c as int;
    if n < 0x10000 then [n]
    else
      var v := n - 0x10000;
      [0xD800 + v / 0x400, 0xDC00 + v % 0x400]
  }

  /** The string as the `seedStr.length` code units the loop reads. */
  function CodeUnits(s: string): (units: seq<nat>)
    ensures |units| >= |s| && IsUnits(units)
  {
    if s == [] then [] else CodeUnits(s[..|s| - 1]) + Utf16(s[|s| - 1])
  }

  /** For a string without characters beyond 0x10000, such as a date key, the
      loop reads exactly its characters' codes. */
  lemma {:induction false} CodeUnitsOfBmp(s: string)
    requires forall k :: 0 <= k < |s| ==> (s[k] as int) < 0x10000
    ensures |CodeUnits(s)| == |s|
    ensures forall k :: 0 <= k < |s| ==> CodeUnits(s)[k] == s[k] as int
  {
    if s != [] {
      var front := s[..|s| - 1];
      CodeUnitsOfBmp(front);
      assert forall k :: 0 <= k < |front| ==> front[k] == s[k];
    }
  }

  /** One round of FNV-1a: `h ^= unit; h = Math.imul(h, 16777619)`, the product
      taken modulo 2^32. */
  function FnvStep(h: bv32, unit: nat): bv32
    requires unit < 0x10000
  {
    (h ^ (unit as bv32)) * FnvPrime
  }

  /** 32-bit FNV-1a of a sequence of code units. */
  function FnvHash(units: seq<nat>): bv32
    requires IsUnits(units)
  {
    if units == [] then FnvOffsetBasis
    else FnvStep(FnvHash(units[..|units| - 1]), units[|units| - 1])
  }

  /** The hashing loop of `xorshift32`. */
  method Fnv1a(seedStr: string) returns (h: bv32)
    ensures h == FnvHash(CodeUnits(seedStr))
  {
    var units := CodeUnits(seedStr);
    h := FnvOffsetBasis;
    for i := 0 to |units|
      invariant h == FnvHash(units[..i])
    {
      assert units[..i + 1][..i] == units[..i];
      h := FnvStep(h, units[i]);
    }
    assert units[..|units|] == units;
  }

  /** `let x = h || 1`: never zero. */
  function InitialState(seedStr: string): (x: bv32)
    ensures x != 0
    ensures FnvHash(CodeUnits(seedStr)) != 0 ==> x == FnvHash(CodeUnits(seedStr))
    ensures FnvHash(CodeUnits(seedStr)) == 0 ==> x == 1
  {
    var h := FnvHash(CodeUnits(seedStr));
    if h == 0 then 1 else h
  }

  // ---- the generator step ----

  function XorShiftLeft13(x: bv32): bv32 { x ^ (x << 13) }
  function XorShiftRight17(x: bv32): bv32 { x ^ (x >> 17) }
  function XorShiftLeft5(x: bv32): bv32 { x ^ (x << 5) }

  /** One call of the closure: `x ^= x << 13; x ^= x >>> 17; x ^= x << 5`. */
  function Step(x: bv32): bv32
  {
    XorShiftLeft5(XorShiftRight17(XorShiftLeft13(x)))
  }

  /** Undoes the three xor-shifts in reverse order. */
  function Unstep(y: bv32): bv32
  {
    UndoLeft13(UndoRight17(UndoLeft5(y)))
  }

  function UndoLeft13(a: bv32): bv32 { a ^ (a << 13) ^ (a << 26) }
  function UndoRight17(b: bv32): bv32 { b ^ (b >> 17) }
  function UndoLeft5(y: bv32): bv32 { y ^ (y << 5) ^ (y << 10) ^ (y << 15) ^ (y << 20) ^ (y << 25) ^ (y << 30) }

  /** The step is a bijection of the 32-bit states. */
  lemma StepInverse(x: bv32)
    ensures Unstep(Step(x)) == x
  {
    var a := XorShiftLeft13(x);
    var b := XorShiftRight17(a);
    var y := XorShiftLeft5(b);
    assert Step(x) == y;
    UndoLeft5Inverse(b);
    UndoRight17Inverse(a);
    UndoLeft13Inverse(x);
    assert Unstep(y) == UndoLeft13(UndoRight17(UndoLeft5(y)));
  }

  lemma UndoLeft13Inverse(x: bv32)
    ensures UndoLeft13(XorShiftLeft13(x)) == x
  {
    var a := x ^ (x << 13);
    assert XorShiftLeft13(x) == a;
    assert UndoLeft13(a) == a ^ (a << 13) ^ (a << 26);
  }

  lemma UndoRight17Inverse(a: bv32)
    ensures UndoRight17(XorShiftRight17(a)) == a
  {
    assert XorShiftRight17(a) == a ^ (a >> 17);
    assert UndoRight17(a ^ (a >> 17)) == (a ^ (a >> 17)) ^ ((a ^ (a >> 17)) >> 17);
  }

  lemma UndoLeft5Inverse(b: bv32)
    ensures UndoLeft5(XorShiftLeft5(b)) == b
  {
    assert XorShiftLeft5(b) == b ^ (b << 5);
    assert UndoLeft5(b ^ (b << 5)) ==
      (b ^ (b << 5)) ^ ((b ^ (b << 5)) << 5) ^ ((b ^ (b << 5)) << 10) ^ ((b ^ (b << 5)) << 15)
      ^ ((b ^ (b << 5)) << 20) ^ ((b ^ (b << 5)) << 25) ^ ((b ^ (b << 5)) << 30);
  }

  /** Zero is the only state the step sends to zero, so a nonzero state stays
      nonzero forever. */
  lemma StepNonzero(x: bv32)
    ensures Step(x) != 0 <==> x != 0
  {
    StepInverse(x);
    assert Unstep(0) == 0;
  }

  /** The state `x` the closure of `xorshift32(seedStr)` captures. */
  class Xorshift32 {
    var x: bv32

    constructor (seedStr: string)
      ensures x == InitialState(seedStr)
    {
      var h := Fnv1a(seedStr);
      x := if h == 0 then 1 else h;
    }

    /** One `rng()` call, answering the new state, whose value is `RngValue`. */
    method Next() returns (v: bv32)
      modifies this
      ensures x == Step(old(x)) && v == x
    {
      x := Step(x);
      v := x;
    }
  }

  /** The state read as an unsigned number, `x >>> 0`. */
  function Unsigned(v: bv32): (n: nat)
    ensures n < 0x1_0000_0000
  {
    Pow2Of32();
    LowBits(v, 32)
  }

  /** The number the lowest `k` bits of `v` spell, least significant first. */
  function LowBits(v: bv32, k: nat): (n: nat)
    ensures n < Pow2(k)
  {
    if k == 0 then 0 else (if v & 1 == 1 then 1 else 0) + 2 * LowBits(v >> 1, k - 1)
  }

  function Pow2(k: nat): (p: nat)
    ensures p >= 1
  {
    if k == 0 then 1 else 2 * Pow2(k - 1)
  }

  lemma {:induction false} Pow2Add(a: nat, b: nat)
    ensures Pow2(a + b) == Pow2(a) * Pow2(b)
    decreases a
  {
    if a > 0 {
      Pow2Add(a - 1, b);
      assert Pow2(a + b) == 2 * Pow2(a - 1 + b);
    }
  }

  lemma Pow2Of32()
    ensures Pow2(32) == 0x1_0000_0000
  {
    assert Pow2(8) == 256;
    Pow2Add(8, 8);
    Pow2Add(16, 16);
  }

  /** `(x >>> 0) / 4294967296` for the unsigned state `n`. */
  function RngValue(n: nat): (r: real)
    requires n < 0x1_0000_0000
    ensures 0.0 <= r < 1.0
  {
    n as real / 4294967296.0
  }

  /** `rng() < 0.5` holds exactly when the state is below 2^31. */
  lemma BelowHalfIff(n: nat)
    requires n < 0x1_0000_0000
    ensures RngValue(n) < 0.5 <==> n < 0x8000_0000
  {
  }

  /** `rng() < 0.5 ? 'RANKING' : 'STUDENT_COUNT'`, in integers. */
  function MetricOf(v: bv32): (m: Metric)
    ensures m == Ranking <==> RngValue(Unsigned(v)) < 0.5
  {
    BelowHalfIff(Unsigned(v));
    if Unsigned(v) < 0x8000_0000 then Ranking else StudentCount
  }

  /** `Math.floor(rng() * len)`, in integers. */
  function PickIndex(n: nat, len: nat): (idx: nat)
    requires n < 0x1_0000_0000 && len > 0
    ensures idx < len
  {
    MulDivBelow(n, len, 0x1_0000_0000);
    (n * len) / 0x1_0000_0000
  }

  /** The integer formula is the floor of the exact product. */
  lemma PickIndexIsFloor(n: nat, len: nat)
    requires n < 0x1_0000_0000 && len > 0
    ensures FloorOfProduct(RngValue(n), len) == PickIndex(n, len)
  {
    FloorOfScaled(n, len, 0x1_0000_0000);
  }

  // ---- ensureDailyGame ----

  datatype ServerError = NotEnoughUniversities | SelectionDidNotFinish

  /** `picked.add(id)` on an insertion-ordered set of ids. */
  function AddId(picked: seq<string>, id: string): (r: seq<string>)
    ensures forall x :: x in r <==> x in picked || x == id
    ensures picked <= r && |r| <= |picked| + 1
    ensures Distinct(picked) ==> Distinct(r)
  {
    if id in picked then picked else picked + [id]
  }

  /** The selection loop from generator state `x`: while fewer than five ids
      are picked, draw an index into `all` and add that id. `fuel` bounds the
      number of draws; `None` means the bound ran out first. */
  function SelectFrom(x: bv32, all: seq<string>, picked: seq<string>, fuel: nat): Option<seq<string>>
    requires |all| > 0
    decreases fuel
  {
    if |picked| >= 5 then Some(picked)
    else if fuel == 0 then None
    else
      var next := Step(x);
      SelectFrom(next, all, AddId(picked, all[PickIndex(Unsigned(next), |all|)]), fuel - 1)
  }

  /** A finished selection holds five distinct ids of the catalog and keeps the
      earlier picks in their places. */
  lemma {:induction false} SelectFromProperties(x: bv32, all: seq<string>, picked: seq<string>, fuel: nat)
    requires |all| > 0 && Distinct(picked) && |picked| <= 5
    requires forall id :: id in picked ==> id in all
    ensures SelectFrom(x, all, picked, fuel).Some? ==>
      var p := SelectFrom(x, all, picked, fuel).value;
      && |p| == 5 && Distinct(p)
      && (forall id :: id in p ==> id in all)
      && picked <= p
    decreases fuel
  {
    if |picked| < 5 && fuel > 0 {
      var next := Step(x);
      var id := all[PickIndex(Unsigned(next), |all|)];
      var added := AddId(picked, id);
      if id !in picked {
        assert forall i :: 0 <= i < |picked| ==> added[i] == picked[i];
      }
      SelectFromProperties(next, all, added, fuel - 1);
    }
  }

  /** More fuel does not change a selection that has finished. */
  lemma {:induction false} SelectFromFuel(x: bv32, all: seq<string>, picked: seq<string>, fuel: nat, more: nat)
    requires |all| > 0 && fuel <= more && SelectFrom(x, all, picked, fuel).Some?
    ensures SelectFrom(x, all, picked, more) == SelectFrom(x, all, picked, fuel)
    decreases fuel
  {
    if |picked| < 5 {
      var next := Step(x);
      SelectFromFuel(next, all, AddId(picked, all[PickIndex(Unsigned(next), |all|)]), fuel - 1, more - 1);
    }
  }

  /** The university rows of the picked ids, as the created entries include them. */
  function Join(catalog: seq<University>, ids: seq<string>): (us: seq<University>)
    requires forall id :: id in ids ==> id in Ids(catalog)
    ensures Ids(us) == ids
    ensures forall u :: u in us ==> u in catalog
  {
    seq(|ids|, k requires 0 <= k < |ids| => assert ids[k] in ids; Lookup(catalog, ids[k]))
  }

  /** The first generator output, which picks the metric. */
  function FirstDraw(dateKey: string): bv32
  {
    Step(InitialState(dateKey))
  }

  /** The game `ensureDailyGame` creates for `dateKey` from the catalog (the
      university table in id order) when none is stored yet. */
  function GenerateGame(dateKey: string, catalog: seq<University>, fuel: nat): Result<DailyGame, ServerError>
  {
    var first := FirstDraw(dateKey);
    if |catalog| < 5 then Err(NotEnoughUniversities)
    else
      SelectFromProperties(first, Ids(catalog), [], fuel);
      match SelectFrom(first, Ids(catalog), [], fuel)
      case None => Err(SelectionDidNotFinish)
      case Some(pickedIds) => Ok(DailyGame(dateKey, MetricOf(first), EntriesOf(Join(catalog, pickedIds))))
  }

  /** A generated game belongs to its date, uses the metric the first draw
      selects, and has five numbered entries of distinct catalog universities;
      it fails exactly for a catalog of fewer than five. */
  lemma GenerateGameProperties(dateKey: string, catalog: seq<University>, fuel: nat)
    ensures GenerateGame(dateKey, catalog, fuel) == Err(NotEnoughUniversities) <==> |catalog| < 5
    ensures GenerateGame(dateKey, catalog, fuel).Ok? ==>
      var g := GenerateGame(dateKey, catalog, fuel).value;
      var us := UniversitiesOf(g.entries);
      && g.dateKey == dateKey
      && (g.rankingBy == Ranking <==> RngValue(Unsigned(FirstDraw(dateKey))) < 0.5)
      && |g.entries| == 5
      && (forall k :: 0 <= k < 5 ==> g.entries[k].orderIndex == k)
      && Distinct(Ids(us))
      && (forall u :: u in us ==> u in catalog)
  {
    BelowHalfIff(Unsigned(FirstDraw(dateKey)));
    if |catalog| >= 5 {
      var first := FirstDraw(dateKey);
      SelectFromProperties(first, Ids(catalog), [], fuel);
      match SelectFrom(first, Ids(catalog), [], fuel)
      case None =>
      case Some(pickedIds) =>
        EntriesRoundTrip(Join(catalog, pickedIds));
    }
  }

  /** Given more fuel, a game that was generated stays the same game. */
  lemma GenerateGameFuel(dateKey: string, catalog: seq<University>, fuel: nat, more: nat)
    requires fuel <= more && GenerateGame(dateKey, catalog, fuel).Ok?
    ensures GenerateGame(dateKey, catalog, more) == GenerateGame(dateKey, catalog, fuel)
  {
    SelectFromFuel(FirstDraw(dateKey), Ids(catalog), [], fuel, more);
  }

  /** Read-or-create over the stored games: the stored game if there is one,
      otherwise the generated game, stored when it was generated. */
  function EnsureGames(games: map<string, DailyGame>, dateKey: string, catalog: seq<University>, fuel: nat)
    : (r: (Result<DailyGame, ServerError>, map<string, DailyGame>))
    ensures r.0.Ok? ==> dateKey in r.1 && r.1[dateKey] == r.0.value
    ensures r.0.Err? ==> r.1 == games && dateKey !in games
    ensures r.1.Keys == games.Keys + (if r.0.Ok? then {dateKey} else {})
    ensures forall d :: d in games ==> r.1[d] == games[d]
  {
    if dateKey in games then (Ok(games[dateKey]), games)
    else
      var r := GenerateGame(dateKey, catalog, fuel);
      (r, if r.Ok? then games[dateKey := r.value] else games)
  }

  /** Asking again for a date that has a game answers the same game and stores
      nothing, whatever the catalog then holds. */
  lemma EnsureIdempotent(games: map<string, DailyGame>, dateKey: string, catalog: seq<University>, fuel: nat,
                         laterCatalog: seq<University>, laterFuel: nat)
    requires EnsureGames(games, dateKey, catalog, fuel).0.Ok?
    ensures EnsureGames(EnsureGames(games, dateKey, catalog, fuel).1, dateKey, laterCatalog, laterFuel)
            == EnsureGames(games, dateKey, catalog, fuel)
    ensures dateKey in games ==> EnsureGames(games, dateKey, catalog, fuel) == (Ok(games[dateKey]), games)
  {
  }

  /** The selection loop `while (picked.size < 5) { ... }`, drawing from `rng`
      at most `fuel` times. */
  method PickIds(rng: Xorshift32, all: seq<string>, fuel: nat) returns (selection: Option<seq<string>>)
    requires |all| > 0
    modifies rng
    ensures selection == SelectFrom(old(rng.x), all, [], fuel)
  {
    var picked: seq<string> := [];
    var remaining := fuel;
    while |picked| < 5 && remaining > 0
      invariant SelectFrom(rng.x, all, picked, remaining) == SelectFrom(old(rng.x), all, [], fuel)
      decreases remaining
    {
      var w := rng.Next();
      var n := Unsigned(w);
      PickIndexIsFloor(n, |all|);
      var idx := FloorOfProduct(RngValue(n), |all|);
      picked := AddId(picked, all[idx]);
      remaining := remaining - 1;
    }
    selection := if |picked| < 5 then None else Some(picked);
  }

  /** The creating half of `ensureDailyGame`: seed the generator with the date
      key, choose the metric by the first draw, check the catalog size and run
      the selection. */
  method CreateGame(dateKey: string, catalog: seq<University>, fuel: nat) returns (r: Result<DailyGame, ServerError>)
    ensures r == GenerateGame(dateKey, catalog, fuel)
  {
    var rng := new Xorshift32(dateKey);
    var v := rng.Next();
    assert v == FirstDraw(dateKey);
    BelowHalfIff(Unsigned(v));
    var rankingBy := if RngValue(Unsigned(v)) < 0.5 then Ranking else StudentCount;
    assert rankingBy == MetricOf(v);
    if |catalog| < 5 {
      return Err(NotEnoughUniversities);
    }
    var all := Ids(catalog);
    SelectFromProperties(v, all, [], fuel);
    var selection := PickIds(rng, all, fuel);
    if selection.None? {
      return Err(SelectionDidNotFinish);
    }
    var pickedIds := selection.value;
    return Ok(DailyGame(dateKey, rankingBy, EntriesOf(Join(catalog, pickedIds))));
  }

  /** `ensureDailyGame(dateKey)`: the stored game, or a new one, stored. */
  method EnsureDailyGame(db: Database, dateKey: string, catalog: seq<University>, fuel: nat)
    returns (r: Result<DailyGame, ServerError>)
    requires db.Valid()
    modifies db
    ensures (r, db.games) == EnsureGames(old(db.games), dateKey, catalog, fuel)
    ensures db.submissions == old(db.submissions)
    ensures db.Valid()
  {
    if dateKey in db.games {
      return Ok(db.games[dateKey]);
    }
    r := CreateGame(dateKey, catalog, fuel);
    if r.Ok? {
      assert r.value.dateKey == dateKey && Numbered(r.value) by {
        GenerateGameProperties(dateKey, catalog, fuel);
      }
      db.games := db.games[dateKey := r.value];
    }
  }

  // ---- GET /daily ----

  /** The response body for a stored game. */
  function DailyView(g: DailyGame): (d: DailyResponse)
    ensures d.dateKey == g.dateKey && d.universities == UniversitiesOf(g.entries)
    ensures d.rankingBy == "RANKING" || d.rankingBy == "STUDENT_COUNT"
  {
    DailyResponse(g.dateKey, ApiName(g.rankingBy), UniversitiesOf(g.entries))
  }

  /** For a stored game (its entries numbered) the response lists the
      universities by `orderIndex`: each entry's university is at its
      `orderIndex`, and the indices ascend along the list. */
  lemma DailyViewInOrderIndexOrder(g: DailyGame)
    requires Numbered(g)
    ensures forall e :: e in g.entries ==>
      e.orderIndex < |DailyView(g).universities| && DailyView(g).universities[e.orderIndex] == e.university
    ensures forall i, j :: 0 <= i < j < |g.entries| ==> g.entries[i].orderIndex < g.entries[j].orderIndex
  {
    forall e | e in g.entries
      ensures e.orderIndex < |DailyView(g).universities| && DailyView(g).universities[e.orderIndex] == e.university
    {
      var k :| 0 <= k < |g.entries| && g.entries[k] == e;
    }
  }

  /** `GET /daily` for the date key of today. */
  method GetDaily(db: Database, dateKey: string, catalog: seq<University>, fuel: nat)
    returns (r: Result<DailyResponse, ServerError>)
    requires db.Valid()
    modifies db
    ensures var (g, games) := EnsureGames(old(db.games), dateKey, catalog, fuel);
      && db.games == games
      && (g.Ok? ==> r == Ok(DailyView(g.value)))
      && (g.Err? ==> r == Err(g.error))
    ensures db.submissions == old(db.submissions)
    ensures db.Valid()
  {
    var game := EnsureDailyGame(db, dateKey, catalog, fuel);
    match game
    case Err(e) => return Err(e);
    case Ok(g) => return Ok(DailyView(g));
  }

  // ---- POST /submissions ----

  /** The request body: a missing `dateKey` is `None`, an `order` that is not
      an array is `None`. */
  datatype SubmitPayload = SubmitPayload(dateKey: Option<string>, order: Option<seq<string>>)

  datatype SubmitReply =
    | InvalidPayload                                               // 400
    | GameNotFound                                                 // 404
    | Scored(score: nat, maxPossibleScore: nat, submissionsCount: nat)

  /** `!dateKey || !Array.isArray(order) || order.length !== 5` rejects. */
  predicate ValidPayload(p: SubmitPayload)
  {
    p.dateKey.Some? && p.dateKey.value != "" && p.order.Some? && |p.order.value| == 5
  }

  /** The entries sorted by the game's metric. */
  function CorrectOrder(g: DailyGame): (c: seq<University>)
    ensures multiset(c) == multiset(UniversitiesOf(g.entries))
    ensures InMetricOrder(g.rankingBy, c)
  {
    SortBy(g.rankingBy, UniversitiesOf(g.entries))
  }

  /** Position `i` of the submitted order names the id at position `i` of the
      correct order; a position past the end of `order` never does. */
  predicate MatchesAt(order: seq<string>, correct: seq<University>, i: nat)
    requires i < |correct|
  {
    i < |order| && order[i] == correct[i].id
  }

  /** How many of the first `k` positions match. */
  function ExactMatches(order: seq<string>, correct: seq<University>, k: nat): nat
    requires k <= |correct|
  {
    if k == 0 then 0
    else ExactMatches(order, correct, k - 1) + (if MatchesAt(order, correct, k - 1) then 1 else 0)
  }

  /** The matching positions. */
  function MatchSet(order: seq<string>, correct: seq<University>, k: nat): set<nat>
    requires k <= |correct|
  {
    set i: nat | i < k && MatchesAt(order, correct, i)
  }

  /** The count is the size of the set of matching positions. */
  lemma {:induction false} ExactMatchesCountsSet(order: seq<string>, correct: seq<University>, k: nat)
    requires k <= |correct|
    ensures ExactMatches(order, correct, k) == |MatchSet(order, correct, k)|
  {
    if k > 0 {
      ExactMatchesCountsSet(order, correct, k - 1);
      var s, t := MatchSet(order, correct, k - 1), MatchSet(order, correct, k);
      if MatchesAt(order, correct, k - 1) {
        assert t == s + {k - 1};
      } else {
        assert t == s;
      }
    }
  }

  /** The score is at most the number of positions, and reaches it exactly when
      every position matches. */
  lemma {:induction false} ExactMatchesBound(order: seq<string>, correct: seq<University>, k: nat)
    requires k <= |correct|
    ensures ExactMatches(order, correct, k) <= k
    ensures ExactMatches(order, correct, k) == k <==> forall i :: 0 <= i < k ==> MatchesAt(order, correct, i)
  {
    if k > 0 {
      ExactMatchesBound(order, correct, k - 1);
      if ExactMatches(order, correct, k) == k {
        assert MatchesAt(order, correct, k - 1);
      }
    }
  }

  /** A five-entry game scores in 0..5, and 5 exactly for the correct ids. */
  lemma ScoreOfFive(order: seq<string>, g: DailyGame)
    requires |order| == 5 && |g.entries| == 5
    ensures ExactMatches(order, CorrectOrder(g), 5) <= 5
    ensures ExactMatches(order, CorrectOrder(g), 5) == 5 <==> order == Ids(CorrectOrder(g))
  {
    var c := CorrectOrder(g);
    ExactMatchesBound(order, c, 5);
    if ExactMatches(order, c, 5) == 5 {
      forall i | 0 <= i < 5 ensures order[i] == Ids(c)[i] {
        assert MatchesAt(order, c, i);
      }
    }
  }

  /** The scoring loop. */
  method ExactMatchScore(order: seq<string>, correctOrder: seq<University>) returns (score: nat)
    ensures score == ExactMatches(order, correctOrder, |correctOrder|)
  {
    score := 0;
    for i := 0 to |correctOrder|
      invariant score == ExactMatches(order, correctOrder, i)
    {
      if i < |order| && order[i] == correctOrder[i].id {
        score := score + 1;
      }
    }
  }

  /** `POST /submissions` from the user whose cookie names `userId`. */
  method PostSubmission(db: Database, userId: string, payload: SubmitPayload) returns (reply: SubmitReply)
    requires db.Valid()
    modifies db
    ensures db.Valid()
    ensures !ValidPayload(payload) ==>
      reply == InvalidPayload && db.games == old(db.games) && db.submissions == old(db.submissions)
    ensures ValidPayload(payload) && payload.dateKey.value !in old(db.games) ==>
      reply == GameNotFound && db.games == old(db.games) && db.submissions == old(db.submissions)
    ensures ValidPayload(payload) && payload.dateKey.value in old(db.games) ==>
      var dateKey, order := payload.dateKey.value, payload.order.value;
      var correct := CorrectOrder(old(db.games)[dateKey]);
      var score := ExactMatches(order, correct, |correct|);
      && db.games == old(db.games)
      && db.submissions == old(db.submissions)[(dateKey, userId) := Submission(userId, order, score)]
      && reply == Scored(score, 5, CountFor(db.submissions, dateKey))
  {
    if !ValidPayload(payload) {
      return InvalidPayload;
    }
    var dateKey, order := payload.dateKey.value, payload.order.value;
    if dateKey !in db.games {
      return GameNotFound;
    }
    var game := db.games[dateKey];
    var correctOrder := CorrectOrder(game);
    var score := ExactMatchScore(order, correctOrder);
    db.UpsertSubmission(dateKey, Submission(userId, order, score));
    reply := Scored(score, 5, db.SubmissionCount(dateKey));
  }
}
