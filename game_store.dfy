/** The persistent rows the game code reads and writes, held in an abstract
    in-memory store: daily games keyed by their date key, and submissions keyed
    by (date key, user id). The relational database behind them is not part of
    this model. */
module GameStore {
  import opened Common
  import opened RankingOrder

  /** A `DailyGameUniversity` row together with the university it joins to. */
  datatype Entry = Entry(university: University, orderIndex: nat)

  datatype DailyGame = DailyGame(dateKey: string, rankingBy: Metric, entries: seq<Entry>)

  datatype Submission = Submission(userId: string, finalOrder: seq<string>, score: nat)

  /** Rows numbered by their position: `list.map((u, orderIndex) => ...)`. */
  function EntriesOf(us: seq<University>): (es: seq<Entry>)
    ensures |es| == |us|
    ensures forall k :: 0 <= k < |us| ==> es[k] == Entry(us[k], k)
  {
    seq(|us|, k requires 0 <= k < |us| => Entry(us[k], k))
  }

  /** `game.entries.map((e) => e.university)` */
  function UniversitiesOf(es: seq<Entry>): (us: seq<University>)
    ensures |us| == |es|
    ensures forall k :: 0 <= k < |es| ==> us[k] == es[k].university
  {
    seq(|es|, k requires 0 <= k < |es| => es[k].university)
  }

  /** Numbering a list and reading the universities back gives the list. */
  lemma EntriesRoundTrip(us: seq<University>)
    ensures UniversitiesOf(EntriesOf(us)) == us
  {
  }

  /** The stored entries of a game are numbered 0, 1, ... in the order they are
      listed, so the list is the `orderBy: { orderIndex: 'asc' }` order every
      query reads them in. */
  predicate Numbered(g: DailyGame)
  {
    forall k :: 0 <= k < |g.entries| ==> g.entries[k].orderIndex == k
  }

  /** The body of `GET /daily` (src/types/api.ts `DailyResponse`): the metric as
      its API name and the universities in entry order. */
  datatype DailyResponse = DailyResponse(dateKey: string, rankingBy: string, universities: seq<University>)

  /** The submissions stored for the game of `dateKey`. */
  function CountFor(submissions: map<(string, string), Submission>, dateKey: string): nat
  {
    |set k | k in submissions.Keys && k.0 == dateKey|
  }

  /** An upsert adds one to the game's count for a new user and leaves it as it
      was when it overwrites the user's earlier submission; other games' counts
      do not change. */
  lemma UpsertCount(submissions: map<(string, string), Submission>, dateKey: string, s: Submission, other: string)
    ensures CountFor(submissions[(dateKey, s.userId) := s], dateKey) ==
              CountFor(submissions, dateKey) + (if (dateKey, s.userId) in submissions then 0 else 1)
    ensures other != dateKey ==>
              CountFor(submissions[(dateKey, s.userId) := s], other) == CountFor(submissions, other)
  {
    var key := (dateKey, s.userId);
    var after := submissions[key := s];
    var oldSet := set k | k in submissions.Keys && k.0 == dateKey;
    var newSet := set k | k in after.Keys && k.0 == dateKey;
    if key in submissions {
      assert newSet == oldSet;
    } else {
      assert newSet == oldSet + {key};
    }
    if other != dateKey {
      assert (set k | k in after.Keys && k.0 == other) == (set k | k in submissions.Keys && k.0 == other);
    }
  }

  class Database {
    var games: map<string, DailyGame>
    var submissions: map<(string, string), Submission>

    /** Every stored game is filed under its own date key and has numbered
        entries. */
    predicate Valid()
      reads this
    {
      forall d :: d in games ==> games[d].dateKey == d && Numbered(games[d])
    }

    constructor ()
      ensures games == map[] && submissions == map[]
      ensures Valid()
    {
      games := map[];
      submissions := map[];
    }

    /** `prisma.submission.upsert(...)` keyed by (game, user): creates the row,
        or overwrites the earlier one for the same key. */
    method UpsertSubmission(dateKey: string, s: Submission)
      modifies this
      ensures submissions == old(submissions)[(dateKey, s.userId) := s]
      ensures forall k :: k in old(submissions) && k != (dateKey, s.userId) ==>
                k in submissions && submissions[k] == old(submissions)[k]
      ensures games == old(games)
      ensures old(Valid()) ==> Valid()
    {
      submissions := submissions[(dateKey, s.userId) := s];
    }

    /** How many submissions the game of `dateKey` has (`_count._all`). */
    function SubmissionCount(dateKey: string): nat
      reads this
    {
      CountFor(submissions, dateKey)
    }
  }
}
