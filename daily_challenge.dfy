/** The client's derivation of the day's challenge (src/hooks/useDailyChallenge.ts):
    the metric key from the API name, the length guard, the correct order and
    a randomly shuffled display order. `Math.random` is an input: the sequence
    of values its successive calls return. */
module DailyChallenge {
  import opened Common
  import opened RankingOrder
  import opened FisherYates
  import opened GameStore
  import opened ApiServer

  /** `CHALLENGE_COUNT` */
  const ChallengeCount: nat := 5

  /** Values `Math.random()` may return. */
  predicate IsRandomStream(rolls: seq<real>)
  {
    forall k :: 0 <= k < |rolls| ==> 0.0 <= rolls[k] < 1.0
  }

  /** The swap partner of loop index `i` (of `n`): the loop reaches index `i`
      on call number n - 1 - i of `Math.random`, and takes
      `Math.floor(Math.random() * (i + 1))`. */
  function RollPick(rolls: seq<real>, n: nat, i: nat): (j: int)
    requires IsRandomStream(rolls) && |rolls| >= n - 1 && i < n
    ensures 0 <= j <= i
  {
    if i == 0 then 0
    else
      FloorOfProductBelow(rolls[n - 1 - i], i + 1);
      FloorOfProduct(rolls[n - 1 - i], i + 1)
  }

  /** The swap partners the shuffle draws, one per loop index. */
  function RollPicks(rolls: seq<real>, n: nat): (js: seq<int>)
    requires IsRandomStream(rolls) && |rolls| >= n - 1
    ensures ValidPicks(js, n)
    ensures forall i :: 0 <= i < n ==> js[i] == RollPick(rolls, n, i)
  {
    seq(n, i requires 0 <= i < n => RollPick(rolls, n, i))
  }

  /** `shuffleArray(array)`: Fisher-Yates on a copy, swapping in place; the
      caller's list is a value and stays as it was. */
  method ShuffleArray<T>(items: seq<T>, rolls: seq<real>) returns (r: seq<T>)
    requires IsRandomStream(rolls) && |rolls| >= |items| - 1
    ensures r == Shuffled(items, RollPicks(rolls, |items|), |items| - 1)
    ensures multiset(r) == multiset(items)
  {
    ghost var js := RollPicks(rolls, |items|);
    ghost var target := Shuffled(items, js, |items| - 1);
    var newArray := new T[|items|](k requires 0 <= k < |items| => items[k]);
    assert newArray[..] == items;
    var i := newArray.Length - 1;
    while i > 0
      invariant -1 <= i < newArray.Length == |items|
      invariant Shuffled(newArray[..], js, i) == target
    {
      RollTurn(newArray, i, rolls, js, target);
      i := i - 1;
    }
    r := newArray[..];
    ShuffledPermutes(items, js, |items| - 1);
  }

  /** One turn of the loop at index `i`, which reads call number n - 1 - i of
      `Math.random`. */
  method RollTurn<T>(a: array<T>, i: nat, rolls: seq<real>, ghost js: seq<int>, ghost target: seq<T>)
    requires IsRandomStream(rolls) && |rolls| >= a.Length - 1 && 0 < i < a.Length
    requires js == RollPicks(rolls, a.Length) && Shuffled(a[..], js, i) == target
    modifies a
    ensures Shuffled(a[..], js, i - 1) == target
  {
    var j := FloorOfProduct(rolls[a.Length - 1 - i], i + 1);
    assert j == RollPick(rolls, a.Length, i) == js[i];
    SwapStep(a, i, j, js, target);
  }

  /** `rankingByApi === 'STUDENT_COUNT' ? 'studentCount' : 'ranking'` */
  function RankingByKey(api: string): (key: string)
    ensures key == "studentCount" <==> api == "STUDENT_COUNT"
    ensures key == "ranking" <==> api != "STUDENT_COUNT"
  {
    if api == "STUDENT_COUNT" then "studentCount" else "ranking"
  }

  /** The metric the comparator sorts by: student count for `'studentCount'`,
      rank for anything else. */
  function SortMetric(key: string): Metric
  {
    if key == "studentCount" then StudentCount else Ranking
  }

  /** The client sorts by the metric the server chose for the game. */
  lemma ClientMetricMatchesServer(m: Metric)
    ensures SortMetric(RankingByKey(ApiName(m))) == m
  {
  }

  /** What the hook returns. */
  datatype Challenge = Challenge(
    dateKey: string,
    dailyUniversities: seq<University>,
    correctOrder: seq<University>,
    rankingBy: string)

  /** The hook once the `/daily` response (if any) is in: without one the state
      keeps its initial values 'RANKING', [] and ''. */
  function DeriveChallenge(response: Option<DailyResponse>, rolls: seq<real>): Challenge
    requires IsRandomStream(rolls) && |rolls| >= ChallengeCount - 1
  {
    var api := if response.Some? then response.value.rankingBy else "RANKING";
    var universities := if response.Some? then response.value.universities else [];
    var dateKey := if response.Some? then response.value.dateKey else "";
    var rankingBy := RankingByKey(api);
    if |universities| != ChallengeCount then Challenge(dateKey, [], [], rankingBy)
    else
      Challenge(dateKey,
                Shuffled(universities, RollPicks(rolls, ChallengeCount), ChallengeCount - 1),
                SortBy(SortMetric(rankingBy), universities),
                rankingBy)
  }

  /** What `fetch('/api/daily')` has delivered to the hook: nothing yet, the
      game's body, or the 500 body `{ error }`, which carries none of the
      game's fields. The hook does not look at `res.ok`. */
  datatype DailyFetch = Pending | Served(body: DailyResponse) | ErrorBody

  /** An error body stores `undefined` as the university list, and
      `universities.length` then throws while the hook renders. */
  datatype RenderError = UniversitiesUndefined

  /** The body the page receives from `GET /daily`: the view on success and
      the error body on any failure. */
  function FetchOf(reply: Result<DailyResponse, ServerError>): DailyFetch
  {
    match reply
    case Ok(d) => Served(d)
    case Err(_) => ErrorBody
  }

  /** The hook's render: before the response arrives it shows the initial
      state, a game body gives the derived challenge, and an error body makes
      the render throw. */
  function HookResult(fetched: DailyFetch, rolls: seq<real>): (r: Result<Challenge, RenderError>)
    requires IsRandomStream(rolls) && |rolls| >= ChallengeCount - 1
    ensures r.Err? <==> fetched.ErrorBody?
    ensures fetched.Pending? ==> r == Ok(Challenge("", [], [], "ranking"))
  {
    match fetched
    case Pending => Ok(DeriveChallenge(None, rolls))
    case Served(body) => Ok(DeriveChallenge(Some(body), rolls))
    case ErrorBody => Err(UniversitiesUndefined)
  }

  /** `useDailyChallenge()` once the fetch has delivered `fetched`. */
  method UseDailyChallenge(fetched: DailyFetch, rolls: seq<real>) returns (r: Result<Challenge, RenderError>)
    requires IsRandomStream(rolls) && |rolls| >= ChallengeCount - 1
    ensures r == HookResult(fetched, rolls)
  {
    var rankingByApi := "RANKING";
    var universities: seq<University> := [];
    var dateKey := "";
    match fetched {
      case Pending =>
      case ErrorBody =>
        return Err(UniversitiesUndefined);
      case Served(body) =>
        rankingByApi := body.rankingBy;
        universities := body.universities;
        dateKey := body.dateKey;
    }
    var rankingBy := RankingByKey(rankingByApi);
    var initialDisplayOrder: seq<University>, correctOrder: seq<University>;
    if |universities| != ChallengeCount {
      initialDisplayOrder, correctOrder := [], [];
    } else {
      correctOrder := SortBy(SortMetric(rankingBy), universities);
      initialDisplayOrder := ShuffleArray(universities, rolls);
    }
    r := Ok(Challenge(dateKey, initialDisplayOrder, correctOrder, rankingBy));
  }

  /** Without exactly five universities both lists are empty; with five, the
      correct order is the universities sorted best first under the metric and
      the display order is another arrangement of the same five. */
  lemma ChallengeProperties(response: Option<DailyResponse>, rolls: seq<real>)
    requires IsRandomStream(rolls) && |rolls| >= ChallengeCount - 1
    ensures var c := DeriveChallenge(response, rolls);
      var us := if response.Some? then response.value.universities else [];
      && (c.rankingBy == "studentCount" || c.rankingBy == "ranking")
      && (|us| != 5 ==> c.dailyUniversities == [] && c.correctOrder == [])
      && (|us| == 5 ==>
            && multiset(c.correctOrder) == multiset(us)
            && InMetricOrder(SortMetric(c.rankingBy), c.correctOrder)
            && multiset(c.dailyUniversities) == multiset(us))
  {
    var us := if response.Some? then response.value.universities else [];
    if |us| == 5 {
      ShuffledPermutes(us, RollPicks(rolls, 5), 4);
    }
  }

  /** For a served five-entry game, the client's correct order is the one the
      server scores against. */
  lemma ClientCorrectOrderIsServers(g: DailyGame, rolls: seq<real>)
    requires IsRandomStream(rolls) && |rolls| >= ChallengeCount - 1 && |g.entries| == 5
    ensures DeriveChallenge(Some(DailyView(g)), rolls).correctOrder == CorrectOrder(g)
  {
    ClientMetricMatchesServer(g.rankingBy);
  }

  /** The page crashes exactly when `GET /daily` fails: every server error
      (too few universities, a selection that did not finish) reaches the
      hook as an error body. */
  lemma ServerFailureCrashesPage(reply: Result<DailyResponse, ServerError>, rolls: seq<real>)
    requires IsRandomStream(rolls) && |rolls| >= ChallengeCount - 1
    ensures HookResult(FetchOf(reply), rolls).Err? <==> reply.Err?
    ensures reply.Ok? ==> HookResult(FetchOf(reply), rolls).value.dateKey == reply.value.dateKey
  {
  }
}
