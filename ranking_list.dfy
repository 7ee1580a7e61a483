/** The game page (src/components/RankingList.tsx): the metric's title, the
    per-row rank indicator, and the drag-and-submit state the handlers update. */
module RankingList {
  import opened Common
  import opened RankingOrder
  import opened DndUtils
  import SortableItem
  import opened DailyChallenge
  import ApiServer

  // ---- formatRankingVariable ----

  /** The heading's name for the metric key. */
  function FormatRankingVariable(key: string): (title: string)
    ensures title == "Global Rank" <==> key == "ranking"
    ensures title == "Student Count" <==> key == "studentCount"
    ensures title == "Unknown Metric" <==> key != "ranking" && key != "studentCount"
  {
    if key == "ranking" then "Global Rank"
    else if key == "studentCount" then "Student Count"
    else "Unknown Metric"
  }

  /** The key the hook derives always has a name: the heading never reads
      "Unknown Metric", and it names the metric the server chose. */
  lemma HeadingNamesServerMetric(m: Metric)
    ensures FormatRankingVariable(RankingByKey(ApiName(m))) ==
      (if m == Ranking then "Global Rank" else "Student Count")
  {
  }

  // ---- the row indicator ----

  /** `correctRank`: one more than the id's index in the correct order, or
      `undefined` (`None`) when the correct order lacks the id. */
  function CorrectRank(correctOrder: seq<University>, id: string): (r: Option<int>)
    ensures r.None? <==> id !in Ids(correctOrder)
    ensures r.Some? ==> 1 <= r.value <= |correctOrder| && correctOrder[r.value - 1].id == id
    ensures r.Some? ==> forall k :: 0 <= k < r.value - 1 ==> correctOrder[k].id != id
  {
    var correctIndex := FindIndex(correctOrder, id);
    if correctIndex == -1 then
      assert forall k :: 0 <= k < |correctOrder| ==> Ids(correctOrder)[k] != id;
      None
    else
      assert Ids(correctOrder)[correctIndex] == id;
      Some(correctIndex + 1)
  }

  /** The row's indicator colour. Unlike the item inside it, a submitted row
      with no correct rank is red, and an undefined or zero rank is never
      "close" (the `correctRank &&` truthiness test). */
  function RowTone(isSubmitted: bool, correctRank: Option<int>, index: nat): (t: SortableItem.Tone)
    ensures t == SortableItem.Neutral <==> !isSubmitted
    ensures t == SortableItem.Correct <==> isSubmitted && correctRank == Some(index + 1)
    ensures t == SortableItem.Close <==>
      isSubmitted && correctRank.Some? && correctRank.value != 0 && Abs(correctRank.value - (index + 1)) == 1
    ensures t == SortableItem.Incorrect <==>
      isSubmitted && (correctRank.None? || correctRank.value == 0 || Abs(correctRank.value - (index + 1)) >= 2)
  {
    if isSubmitted && correctRank == Some(index + 1) then SortableItem.Correct
    else if isSubmitted && correctRank.Some? && correctRank.value != 0
            && Abs(correctRank.value - (index + 1)) <= 1 then SortableItem.Close
    else if isSubmitted then SortableItem.Incorrect
    else SortableItem.Neutral
  }

  /** The row's Tailwind classes of each colour. */
  function RowPalette(t: SortableItem.Tone): string
  {
    match t
    case Neutral => "bg-indigo-100 text-indigo-700"
    case Correct => "bg-green-600 text-white"
    case Close => "bg-yellow-400 text-gray-800"
    case Incorrect => "bg-red-500 text-white"
  }

  /** `${correctRank}`: the number, or the text `undefined`. */
  function RankText(correctRank: Option<int>): string
  {
    if correctRank.Some? then IntToString(correctRank.value) else "undefined"
  }

  /** The row's indicator: its colour, `title`, caption and number. */
  datatype RowView = RowView(tone: SortableItem.Tone, classes: string, title: string, caption: string, number: string)

  function Row(isSubmitted: bool, correctRank: Option<int>, index: nat): (v: RowView)
    ensures v.tone == RowTone(isSubmitted, correctRank, index) && v.classes == RowPalette(v.tone)
    ensures isSubmitted ==>
      v.caption == "Pos." && v.number == "#" + RankText(correctRank) &&
      v.title == "Actual Rank Position: " + RankText(correctRank)
    ensures !isSubmitted ==>
      v.caption == "Rank" && v.number == NatToString(index + 1) &&
      v.title == "Your Rank: " + NatToString(index + 1)
  {
    var tone := RowTone(isSubmitted, correctRank, index);
    if isSubmitted then
      RowView(tone, RowPalette(tone), "Actual Rank Position: " + RankText(correctRank), "Pos.", "#" + RankText(correctRank))
    else
      RowView(tone, RowPalette(tone), "Your Rank: " + NatToString(index + 1), "Rank", NatToString(index + 1))
  }

  /** Where the rank is known (it is at least 1), the row and the item inside
      it agree on the colour; with no rank, a submitted row is red while its
      item stays neutral. */
  lemma RowToneVersusItem(isSubmitted: bool, correctRank: Option<int>, index: nat)
    ensures correctRank.Some? && correctRank.value >= 1 ==>
      RowTone(isSubmitted, correctRank, index) == SortableItem.ToneOf(isSubmitted, correctRank, index)
    ensures correctRank.None? && isSubmitted ==>
      RowTone(isSubmitted, correctRank, index) == SortableItem.Incorrect &&
      SortableItem.ToneOf(isSubmitted, correctRank, index) == SortableItem.Neutral
  {
  }

  /** On the page every displayed university is one of the correct order's, so
      every row has a rank: `#undefined` never shows and the row and item
      colours agree. */
  lemma EveryRowHasRank(universities: seq<University>, correctOrder: seq<University>, index: nat)
    requires multiset(universities) == multiset(correctOrder) && index < |universities|
    ensures CorrectRank(correctOrder, universities[index].id).Some?
    ensures var rank := CorrectRank(correctOrder, universities[index].id);
      RowTone(true, rank, index) == SortableItem.ToneOf(true, rank, index) &&
      RankText(rank) != "undefined"
  {
    var u := universities[index];
    assert u in multiset(correctOrder);
    var k :| 0 <= k < |correctOrder| && correctOrder[k] == u;
    assert Ids(correctOrder)[k] == u.id;
    var rank := CorrectRank(correctOrder, u.id);
    assert RankText(rank)[0] != 'u';
  }

  /** With distinct ids in the correct order, a submitted row is green exactly
      where the server counts an exact match for the submitted ids. */
  lemma GreenIffServerMatch(universities: seq<University>, correctOrder: seq<University>, index: nat)
    requires index < |universities| && index < |correctOrder| && Distinct(Ids(correctOrder))
    ensures RowTone(true, CorrectRank(correctOrder, universities[index].id), index) == SortableItem.Correct <==>
      ApiServer.MatchesAt(Ids(universities), correctOrder, index)
  {
    if correctOrder[index].id == universities[index].id {
      FindIndexOfDistinct(correctOrder, index);
    }
  }

  // ---- the page state ----

  /** The body `handleSubmit` posts: `{ dateKey, order }`. */
  datatype SubmitRequest = SubmitRequest(dateKey: string, order: seq<string>)

  /** How the `fetch` ends: it throws (network failure or a body that is not
      JSON), or replies with a body whose `score`, when it is a finite number,
      and `averageScore`, when present, are given. */
  datatype FetchOutcome =
    | FetchFailed
    | Replied(score: Option<int>, averageScore: Option<real>)

  // ---- one dragenter over a card, as the page wires it ----

  /** The same `handleDragEnter` is attached to the row (RankingList.tsx:114)
      and to the item inside it (through the prop at :140, SortableItem.tsx:50),
      and both elements carry the row's `data-id`. A `dragenter` whose target
      lies inside the item bubbles through both, each computes the same
      indices from the same render, and the two queued `arrayMove` updaters
      run one after the other. */
  function BubbledMove(s: seq<University>, from: nat, to: nat): (r: seq<University>)
    requires from < |s| && to < |s|
    ensures multiset(r) == multiset(s)
  {
    MovedPermutes(s, from, to);
    MovedPermutes(Moved(s, from, to), from, to);
    Moved(Moved(s, from, to), from, to)
  }

  /** After the bubbled move the dragged university sits one place short of
      the target, and the target's position holds the dragged one's old
      neighbour. */
  lemma BubbledMoveMissesTarget(s: seq<University>, from: nat, to: nat)
    requires from < |s| && to < |s| && from != to
    ensures from < to ==> BubbledMove(s, from, to)[to - 1] == s[from] && BubbledMove(s, from, to)[to] == s[from + 1]
    ensures to < from ==> BubbledMove(s, from, to)[to + 1] == s[from] && BubbledMove(s, from, to)[to] == s[from - 1]
  {
    var r1 := Moved(s, from, to);
    if from < to {
      assert r1[to] == s[from] && r1[from] == s[from + 1];
    } else {
      assert r1[to] == s[from] && r1[from] == s[from - 1];
    }
  }

  /** Onto a neighbouring card the two moves cancel, so the list does not
      change at all. */
  lemma BubbledMoveOntoNeighbourCancels(s: seq<University>, from: nat)
    requires from + 1 < |s|
    ensures BubbledMove(s, from, from + 1) == s
    ensures BubbledMove(s, from + 1, from) == s
  {
    MoveBack(s, from, from + 1);
    MoveBack(s, from + 1, from);
    assert Moved(s, from, from + 1) == Moved(s, from + 1, from);
  }

  /** Dragging the first of five onto the third: the bubbled move gives
      [c, a, b, d, e] where a single move gives [b, c, a, d, e]. */
  lemma BubbledMoveExample(a: University, b: University, c: University, d: University, e: University)
    requires a != b && b != c
    ensures BubbledMove([a, b, c, d, e], 0, 2) == [c, a, b, d, e]
    ensures Moved([a, b, c, d, e], 0, 2) == [b, c, a, d, e]
    ensures BubbledMove([a, b, c, d, e], 0, 2) != Moved([a, b, c, d, e], 0, 2)
  {
    var s := [a, b, c, d, e];
    var once := [b, c, a, d, e];
    assert Moved(s, 0, 2) == once by {
      var m := Moved(s, 0, 2);
      assert m[0] == b && m[1] == c && m[2] == a && m[3] == d && m[4] == e;
    }
    assert Moved(once, 0, 2) == [c, a, b, d, e] by {
      var m := Moved(once, 0, 2);
      assert m[0] == c && m[1] == a && m[2] == b && m[3] == d && m[4] == e;
    }
  }

  /** The events the page handles, in the order they arrive. */
  datatype Event =
    | DragStart(id: Option<string>)
    | DragEnter(targetId: Option<string>)
    | DragEnd
    | Submit(outcome: FetchOutcome)

  /** The page's state: the hook's values and the component's own state. */
  class RankingListState {
    var dateKey: string
    var dailyUniversities: seq<University>
    var correctOrder: seq<University>
    var rankingBy: string
    var universities: seq<University>
    var isSubmitted: bool
    var draggedId: Option<string>
    var score: Option<int>
    var averageScore: Option<real>

    /** The list on screen is always an arrangement of the challenge's list. */
    predicate Valid()
      reads this
    {
      multiset(universities) == multiset(dailyUniversities)
    }

    /** The first render: `useState(dailyUniversities)`, not submitted, nothing
        dragged, no score. */
    constructor (c: Challenge)
      ensures dateKey == c.dateKey && dailyUniversities == c.dailyUniversities
      ensures correctOrder == c.correctOrder && rankingBy == c.rankingBy
      ensures universities == c.dailyUniversities && !isSubmitted && draggedId == None
      ensures score == None && averageScore == None
      ensures Valid()
    {
      dateKey := c.dateKey;
      dailyUniversities := c.dailyUniversities;
      correctOrder := c.correctOrder;
      rankingBy := c.rankingBy;
      universities := c.dailyUniversities;
      isSubmitted := false;
      draggedId := None;
      score := None;
      averageScore := None;
    }

    /** The hook delivers a new challenge and the effect resets the list to it. */
    method ChallengeChanged(c: Challenge)
      modifies this
      ensures dateKey == c.dateKey && dailyUniversities == c.dailyUniversities
      ensures correctOrder == c.correctOrder && rankingBy == c.rankingBy
      ensures universities == c.dailyUniversities
      ensures isSubmitted == old(isSubmitted) && draggedId == old(draggedId)
      ensures score == old(score) && averageScore == old(averageScore)
      ensures Valid()
    {
      dateKey, dailyUniversities, correctOrder, rankingBy := c.dateKey, c.dailyUniversities, c.correctOrder, c.rankingBy;
      universities := dailyUniversities;
    }

    /** `handleDragStart`: a present, non-empty `data-id` becomes the dragged
        id (the deferral through `setTimeout` is taken as immediate). */
    method HandleDragStart(id: Option<string>)
      modifies this
      ensures draggedId == (if id.Some? && id.value != "" then id else old(draggedId))
      ensures universities == old(universities) && isSubmitted == old(isSubmitted)
      ensures score == old(score) && averageScore == old(averageScore)
      ensures dateKey == old(dateKey) && dailyUniversities == old(dailyUniversities)
      ensures correctOrder == old(correctOrder) && rankingBy == old(rankingBy)
    {
      if id.Some? && id.value != "" {
        draggedId := id;
      }
    }

    /** `handleDragEnter`: once submitted, with nothing (or an empty id)
        dragged, or over the dragged row itself, nothing happens; otherwise the
        dragged university moves to the target's position when both are in
        the list. */
    method HandleDragEnter(targetId: Option<string>)
      modifies this
      ensures old(isSubmitted) || old(draggedId).None? || old(draggedId).value == "" || old(draggedId) == targetId ==>
        universities == old(universities)
      ensures !(old(isSubmitted) || old(draggedId).None? || old(draggedId).value == "" || old(draggedId) == targetId) ==>
        var fromIndex := FindIndex(old(universities), old(draggedId).value);
        var toIndex := if targetId.Some? then FindIndex(old(universities), targetId.value) else -1;
        universities == (if fromIndex != -1 && toIndex != -1 then Moved(old(universities), fromIndex, toIndex)
                         else old(universities))
      ensures draggedId == old(draggedId) && isSubmitted == old(isSubmitted)
      ensures score == old(score) && averageScore == old(averageScore)
      ensures dateKey == old(dateKey) && dailyUniversities == old(dailyUniversities)
      ensures correctOrder == old(correctOrder) && rankingBy == old(rankingBy)
      ensures old(Valid()) ==> Valid()
    {
      if isSubmitted || draggedId.None? || draggedId.value == "" {
        return;
      }
      if draggedId == targetId {
        return;
      }
      var fromIndex := FindIndex(universities, draggedId.value);
      var toIndex := if targetId.Some? then FindIndex(universities, targetId.value) else -1;
      if fromIndex != -1 && toIndex != -1 {
        MovedPermutes(universities, fromIndex, toIndex);
        universities := ArrayMove(universities, fromIndex, toIndex);
      }
    }

    /** `handleDragEnd` clears the dragged id and nothing else. */
    method HandleDragEnd()
      modifies this
      ensures draggedId == None
      ensures universities == old(universities) && isSubmitted == old(isSubmitted)
      ensures score == old(score) && averageScore == old(averageScore)
      ensures dateKey == old(dateKey) && dailyUniversities == old(dailyUniversities)
      ensures correctOrder == old(correctOrder) && rankingBy == old(rankingBy)
    {
      draggedId := None;
    }

    /** `handleSubmit`: ignored once submitted; otherwise posts the ids in the
        displayed order, then takes the server's score when it is a finite
        number and else the local partial-credit score (also on failure), and
        marks the game submitted. The average is taken from a reply only. */
    method HandleSubmit(outcome: FetchOutcome) returns (request: Option<SubmitRequest>)
      modifies this
      ensures old(isSubmitted) ==> request == None && score == old(score) && averageScore == old(averageScore)
      ensures !old(isSubmitted) ==>
        var localScore := PartialCredit(universities, correctOrder, |universities|);
        && request == Some(SubmitRequest(dateKey, Ids(universities)))
        && score == Some(if outcome.Replied? && outcome.score.Some? then outcome.score.value else localScore)
        && averageScore == (if outcome.Replied? then outcome.averageScore else old(averageScore))
      ensures isSubmitted
      ensures universities == old(universities) && draggedId == old(draggedId)
      ensures dateKey == old(dateKey) && dailyUniversities == old(dailyUniversities)
      ensures correctOrder == old(correctOrder) && rankingBy == old(rankingBy)
    {
      if isSubmitted {
        return None;
      }
      var order := Ids(universities);
      request := Some(SubmitRequest(dateKey, order));
      match outcome {
        case Replied(serverScore, serverAverage) =>
          var localScore := CalculateScore(universities, correctOrder);
          score := Some(if serverScore.Some? then serverScore.value else localScore);
          averageScore := serverAverage;
          isSubmitted := true;
        case FetchFailed =>
          var localScore := CalculateScore(universities, correctOrder);
          score := Some(localScore);
          isSubmitted := true;
      }
    }

    /** `calculateMaxScore(universities.length)`, shown beside the score. */
    function MaxPossibleScore(): (r: nat)
      reads this
      ensures 2 * r == |universities| * (|universities| - 1)
    {
      CalculateMaxScore(|universities|)
    }

    /** Handles `events` in order. The list stays an arrangement of the
        challenge's list; once submitted it no longer changes, nor does the
        score; and at most one request is ever posted, none if the game was
        already submitted. */
    method Run(events: seq<Event>) returns (requests: seq<SubmitRequest>)
      requires Valid()
      modifies this
      ensures Valid()
      ensures old(isSubmitted) ==> universities == old(universities) && score == old(score) && requests == []
      ensures |requests| <= 1
      ensures isSubmitted <==> old(isSubmitted) || exists k :: 0 <= k < |events| && events[k].Submit?
      ensures dateKey == old(dateKey) && dailyUniversities == old(dailyUniversities)
      ensures correctOrder == old(correctOrder) && rankingBy == old(rankingBy)
    {
      requests := [];
      var k := 0;
      while k < |events|
        invariant 0 <= k <= |events|
        invariant Valid()
        invariant old(isSubmitted) ==> universities == old(universities) && score == old(score) && requests == []
        invariant |requests| <= 1 && (requests != [] ==> isSubmitted)
        invariant isSubmitted <==> old(isSubmitted) || exists e :: 0 <= e < k && events[e].Submit?
        invariant dateKey == old(dateKey) && dailyUniversities == old(dailyUniversities)
        invariant correctOrder == old(correctOrder) && rankingBy == old(rankingBy)
      {
        match events[k] {
          case DragStart(id) => HandleDragStart(id);
          case DragEnter(targetId) => HandleDragEnter(targetId);
          case DragEnd => HandleDragEnd();
          case Submit(outcome) =>
            var wasSubmitted := isSubmitted;
            var request := HandleSubmit(outcome);
            if request.Some? {
              assert !wasSubmitted && requests == [];
              requests := requests + [request.value];
            }
        }
        k := k + 1;
      }
    }
  }

  /** What the page posts for a five-university challenge with a date is a
      payload the server accepts. */
  lemma RequestIsValidPayload(dateKey: string, universities: seq<University>)
    requires dateKey != "" && |universities| == ChallengeCount
    ensures ApiServer.ValidPayload(ApiServer.SubmitPayload(Some(dateKey), Some(Ids(universities))))
  {
  }
}
