# UniRankle game logic in Dafny

UniRankle is a daily puzzle. Each day the player is shown five universities
and drags them into order, either by global rank or by student count, and
then submits. This project models the game's deterministic core and proves
properties of it:

- **Server-side daily game (`api/index.ts`).**
  - A 32-bit FNV-1a hash of the date key seeds a xorshift32 generator, which
    `ApiServer` models on `bv32`.
  - The generator's first draw picks the metric and its later draws pick five
    distinct catalog ids.
  - The game is read from the store or created (read-or-create).
  - `POST /submissions` validates the payload, sorts the entries into the
    correct order, counts exact-position matches and upserts the submission.
- **Seeder (`prisma/seed.ts`).**
  - A byte-indexed generator over a SHA-256 digest drives a Durstenfeld
    shuffle of the catalog.
  - The seeder takes the first five universities, picks the metric from the
    parity of the digest's first eight hex digits, sorts the five and creates
    the entry rows, unless a game for that date already exists.
- **Client challenge hook (`src/hooks/useDailyChallenge.ts`).**
  - It maps the API metric name and applies the five-university guard.
  - A 500 error body from `GET /daily` has no university list, so the hook's
    render throws. This is modelled as an error result.
  - It builds the comparator-sorted correct order and a Fisher–Yates display
    shuffle.
- **Client utilities (`src/utils/dndUtils.ts`).** These are `arrayMove`, the
  partial-credit `calculateScore` and `calculateMaxScore`.
- **The ranking page (`src/components/RankingList.tsx`).**
  - The drag and submit handlers are modelled as a class whose methods update
    the page state.
  - The pure parts are the heading text, `correctRank` and the row indicator.
- **Rank indicators and tooltip.** The rank indicators of the desktop and
  mobile list items (`SortableItem.tsx`, `SortableItemMobile.tsx`) and the
  tooltip's guard and singular/plural noun (`SimpleToolTip.tsx`).

The modules are:

| module | file |
|---|---|
| `Common` | common.dfy |
| `RankingOrder` | ranking_order.dfy |
| `FisherYates` | fisher_yates.dfy |
| `GameStore` | game_store.dfy |
| `ApiServer` | api_index.dfy |
| `Seed` | seed.dfy |
| `DndUtils` | dnd_utils.dfy |
| `DailyChallenge` | daily_challenge.dfy |
| `RankingList` | ranking_list.dfy |
| `SortableItem` | sortable_item.dfy |
| `SortableItemMobile` | sortable_item_mobile.dfy |
| `SimpleTooltip` | simple_tooltip.dfy |

What each module holds:

- `Common` holds the university record, `findIndex`, and decimal number text.
- Three comparators appear in the source: `api/index.ts:127-130`,
  `prisma/seed.ts:91-97` and `useDailyChallenge.ts:39-42`. All three sorts
  are modelled by one insertion sort, `RankingOrder.SortBy`. Like
  `Array.prototype.sort`, it is stable: `RankingOrder.SortByStable` proves
  that universities with equal keys keep their relative order.
- Both Fisher–Yates loops are proved against one reference function,
  `FisherYates.Shuffled`. It takes the sequence of swap partners the loop
  draws as an input.
- The Prisma tables are an abstract store, `GameStore.Database`. It holds one
  map of games keyed by date and one map of submissions keyed by date and
  user.
- The store invariant `GameStore.Database.Valid` says two things. Each game
  is filed under its own date. Its entries are listed in `orderIndex` order
  and numbered 0, 1, 2 and so on (`GameStore.Numbered`). That listing is the
  `orderBy: { orderIndex: 'asc' }` order every query reads. The constructor
  establishes the invariant. Every handler requires it, and every writer
  keeps it: `EnsureDailyGame`, `GetDaily`, `PostSubmission`,
  `UpsertSubmission` and `SeedDailyGame`.

Inputs the model takes as parameters:

| source | modelled as |
|---|---|
| SHA-256 | a 32-byte digest |
| `Math.random` | the sequence of values its calls return, each in [0, 1) |
| the `/daily` response | a `DailyFetch`: not yet arrived, a game body, or an error body |
| the `fetch` outcome of a submission | a `FetchOutcome` value |
| the user id from the cookie | a parameter |
| the server's catalog | a sequence in id order, as `api/index.ts:45` orders it |
| the seeder's catalog | a sequence in any order, since `prisma/seed.ts:81` gives no `orderBy` |

Where the specification and the code disagree, the model follows the code:

- A repeated submission by the same user overwrites the earlier one, because
  `api/index.ts:137-141` upserts it.
- The page shows `calculateMaxScore`, which is half of the best partial-credit
  score (see Findings).

## Model

| member | source | states |
|---|---|---|
| Common.FindIndex | src/utils/dndUtils.ts:25 | -1 exactly when no element has the id; otherwise the first position holding it |
| Common.NatToString | src/components/SortableItemMobile.tsx:32 | the decimal text of a number: at least one digit, every character in '0'..'9', and a leading '0' only for 0 |
| Common.NatToStringRoundTrip | src/components/SortableItemMobile.tsx:32 | the decimal text of a number reads back as that number |
| Common.FloorOfProductBelow | src/hooks/useDailyChallenge.ts:10 | `Math.floor(r * len)` lies in [0, len) for r in [0, 1) |
| RankingOrder.Compare | api/index.ts:127-130 | the comparator's result is the difference of the two keys: ascending rank, or student count negated so that larger counts come first |
| RankingOrder.SortBy | api/index.ts:127-130 | the result is a permutation of the input, sorted by descending student count under STUDENT_COUNT and by ascending rank otherwise |
| RankingOrder.InsertSorted | api/index.ts:127-130 | inserting into a sorted list keeps it sorted |
| RankingOrder.InsertPermutes | api/index.ts:127-130 | insertion adds exactly the inserted element |
| RankingOrder.InsertAfterTies | api/index.ts:127-130 | inserting into a sorted list puts the new element after every element with its key, and keeps the order of the others |
| RankingOrder.SortByStable | src/hooks/useDailyChallenge.ts:39-42 | the sort is stable: for every key, the universities with that key appear in the same relative order before and after sorting |
| RankingOrder.SortByKeepsIds | prisma/seed.ts:91-97 | sorting keeps the same universities, and distinct ids stay distinct |
| FisherYates.SwapPermutes | src/hooks/useDailyChallenge.ts:11 | a swap only rearranges the list |
| FisherYates.ShuffledPermutes | src/hooks/useDailyChallenge.ts:9-12 | for any swap partners with 0 <= j <= i, the shuffle is a permutation of its input |
| FisherYates.ShuffledAbove | prisma/seed.ts:35-38 | the loop never touches positions above the current index |
| FisherYates.SwapStep | prisma/seed.ts:37 | the in-place destructuring swap exchanges the two cells and advances the shuffle by one turn |
| GameStore.EntriesOf | api/index.ts:60 | one entry per university, orderIndex equal to its position |
| GameStore.UniversitiesOf | api/index.ts:95 | `entries.map((e) => e.university)`: same length, and position k holds entry k's university |
| GameStore.EntriesRoundTrip | api/index.ts:95 | mapping the entries back to universities recovers the list |
| GameStore.UpsertCount | api/index.ts:137-147 | an upsert raises the date's submission count by one for a new user, keeps it for a returning user, and leaves other dates' counts alone |
| GameStore.Database.UpsertSubmission | api/index.ts:137-141 | the (date, user) submission is overwritten or created, and every other key and the games are unchanged, so the store invariant is kept |
| ApiServer.CodeUnits | api/index.ts:17-18 | the `charCodeAt` walk: at least one code unit per character, each below 0x10000 |
| ApiServer.Utf16 | api/index.ts:18 | `charCodeAt` walks UTF-16 code units: one unit for a BMP character, otherwise a high and a low surrogate that decode back to it |
| ApiServer.CodeUnitsOfBmp | api/index.ts:17-18 | for a string of BMP characters the code units are the characters themselves |
| ApiServer.Fnv1a | api/index.ts:16-20 | the loop computes 32-bit FNV-1a: start 2166136261, xor each unit, multiply by 16777619 mod 2^32 |
| ApiServer.InitialState | api/index.ts:21 | the generator state is the hash when the hash is nonzero and 1 when the hash is 0, so it is never 0 |
| ApiServer.Step | api/index.ts:23-25 | the 32-bit xorshift step `x ^= x << 13; x ^= x >>> 17; x ^= x << 5`, as a function on `bv32`; `StepInverse` and `StepNonzero` prove its properties |
| ApiServer.StepInverse | api/index.ts:23-25 | the 13/17/5 xorshift step is invertible |
| ApiServer.StepNonzero | api/index.ts:23-25 | a step maps a nonzero state to a nonzero state, and only 0 to 0 |
| ApiServer.Xorshift32.Next | api/index.ts:22-27 | each call advances the state by one step and returns the new state |
| ApiServer.Unsigned | api/index.ts:26 | `x >>> 0`: the state read as a number below 2^32 |
| ApiServer.RngValue | api/index.ts:26 | every `rng()` value `x / 2^32` lies in [0, 1) |
| ApiServer.BelowHalfIff | api/index.ts:43 | `rng() < 0.5` exactly when the state is below 2^31 |
| ApiServer.MetricOf | api/index.ts:43 | the metric is RANKING exactly when `rng() < 0.5`, and STUDENT_COUNT otherwise |
| ApiServer.PickIndex | api/index.ts:50 | the integer pick index is below the catalog length |
| ApiServer.PickIndexIsFloor | api/index.ts:50 | it equals `Math.floor(rng() * len)` computed exactly |
| ApiServer.AddId | api/index.ts:51 | `picked.add(id)` on an insertion-ordered set: the members are the old ones plus `id`, earlier picks keep their places, it grows by at most one, and distinct ids stay distinct |
| ApiServer.SelectFrom | api/index.ts:48-52 | the selection loop: while fewer than five ids are picked, step the generator and add the id at `Math.floor(rng() * len)` unless it is already picked; `SelectFromProperties` and `SelectFromFuel` prove its properties |
| ApiServer.SelectFromProperties | api/index.ts:48-53 | a finished selection holds five distinct catalog ids and keeps the earlier picks in place |
| ApiServer.SelectFromFuel | api/index.ts:49-52 | a selection that has finished does not change when more draws are allowed |
| ApiServer.PickIds | api/index.ts:48-53 | the `while (picked.size < 5)` loop returns the selection the reference function defines |
| ApiServer.Join | api/index.ts:63-68 | the entries' universities are the catalog rows of the picked ids, in pick order |
| ApiServer.GenerateGame | api/index.ts:42-69 | the game created for a date: the error for fewer than five universities, else the first draw's metric and the joined picks numbered by position; `GenerateGameProperties` proves its properties |
| ApiServer.GenerateGameProperties | api/index.ts:42-62 | it fails with too few universities exactly when the catalog has fewer than 5; otherwise the game has the date, the first draw's metric and five numbered entries of distinct catalog universities |
| ApiServer.GenerateGameFuel | api/index.ts:49-52 | the same date key gives the same game however many draws are allowed |
| ApiServer.EnsureGames | api/index.ts:30-69 | read-or-create on the map of games: a returned game is the one stored under the date; on an error nothing is stored and the date had no game; the keys grow by the date exactly when a game is returned; no stored game is changed |
| ApiServer.EnsureIdempotent | api/index.ts:30-40 | an existing game is returned unchanged and nothing is stored; asking again returns the same game |
| ApiServer.CreateGame | api/index.ts:42-69 | the generation method computes exactly the reference game |
| ApiServer.EnsureDailyGame | api/index.ts:30-72 | read-or-create over the store; submissions untouched; the store invariant is kept |
| ApiServer.DailyView | api/index.ts:95-101 | the `/daily` body carries the date, the metric name and the entries' universities in stored order |
| ApiServer.DailyViewInOrderIndexOrder | api/index.ts:36 | for a game whose entries are numbered, which the store invariant guarantees, the `/daily` list holds each entry's university at its `orderIndex`, and the stored order is ascending `orderIndex` |
| ApiServer.GetDaily | api/index.ts:90-101 | `GET /daily` answers the ensured game's view and keeps the store invariant |
| ApiServer.ValidPayload | api/index.ts:114 | the payload check: a non-empty date key and an `order` array of exactly five elements |
| ApiServer.CorrectOrder | api/index.ts:126-130 | the correct order is a permutation of the entries in the game's metric order |
| ApiServer.ExactMatchesCountsSet | api/index.ts:132-135 | the score is the number of positions i with `order[i] == correctOrder[i].id` |
| ApiServer.ExactMatchesBound | api/index.ts:132-135 | the score is at most the length, with equality exactly when every position matches |
| ApiServer.ScoreOfFive | api/index.ts:132-135 | a five-entry game scores 0..5, and 5 exactly when the order equals the correct ids |
| ApiServer.ExactMatchScore | api/index.ts:132-135 | the counting loop computes the exact-match count |
| ApiServer.PostSubmission | api/index.ts:109-156 | rejects a payload without a non-empty date key or a five-element order (400); answers 404 for an unknown date; otherwise scores, upserts and replies with score, 5 and the submission count, changing nothing else and keeping the store invariant |
| Seed.Word | prisma/seed.ts:24-25 | the k-th draw reads bytes k mod 32 and (k + 7) mod 32 as a 16-bit word |
| Seed.DrawValue | prisma/seed.ts:27-28 | the draw `(a * 256 + b) / 65536` lies in [0, 1), so `% 1` leaves it unchanged |
| Seed.ByteGenerator.Next | prisma/seed.ts:22-29 | each call returns the word at the counter and advances the counter by one |
| Seed.SwapIndex | prisma/seed.ts:36 | the swap partner j satisfies 0 <= j <= i |
| Seed.SwapIndexIsFloor | prisma/seed.ts:36 | the integer partner equals `Math.floor(rng() * (i + 1))` computed exactly |
| Seed.SeedPicks | prisma/seed.ts:35-36 | the partners the loop draws, one per index, each in [0, i] |
| Seed.SeededShuffle | prisma/seed.ts:32-40 | the in-place loop on a copy yields the reference shuffle of the digest's draws, a permutation of its input |
| Seed.HexOf | prisma/seed.ts:77 | `digest('hex')`: two characters per byte, each a hex digit |
| Seed.ParseHex | prisma/seed.ts:78 | `parseInt(s, 16)` on hex digits, most significant first; `ParseHexOf` proves it inverts `HexOf` |
| Seed.ParseHexOf | prisma/seed.ts:77 | reading the hex digest back as a number gives the digest's big-endian value |
| Seed.SeedMetric | prisma/seed.ts:78 | RANKING when the first eight hex digits parse to an even number, else STUDENT_COUNT; `SeedMetricParity` proves the byte-3 form |
| Seed.SeedMetricParity | prisma/seed.ts:78 | the metric is RANKING exactly when the first 8 hex digits are even, that is, when byte 3 of the digest is even |
| Seed.SeedGame | prisma/seed.ts:82-97 | the seeded game: the error for fewer than five universities, else the first five of the digest's shuffle sorted by the digest's metric and numbered by position; `SeedGameProperties` proves its properties |
| Seed.SeedGameProperties | prisma/seed.ts:82-97 | it fails exactly with fewer than 5 universities; otherwise five numbered entries in the metric's order, drawn from the catalog, distinct when the catalog's ids are |
| Seed.CreateGameRows | prisma/seed.ts:106-123 | the game row and one entry per university, orderIndex from the loop counter |
| Seed.SeedDailyGame | prisma/seed.ts:82-125 | throws with fewer than 5; skips creation entirely when the date already has a game; otherwise stores the seeded game; the store invariant is kept |
| DndUtils.ArrayMove | src/utils/dndUtils.ts:6-12 | copy, splice out and splice in yields the reference move |
| DndUtils.MovedIsSplice | src/utils/dndUtils.ts:9-10 | the reference move is the removal at `fromIndex` followed by the insertion at `toIndex` |
| DndUtils.MovedPermutes | src/utils/dndUtils.ts:6-12 | a move is a permutation of its input |
| DndUtils.MovedPositions | src/utils/dndUtils.ts:8-10 | the element lands at `toIndex`, the length is kept, positions outside the range are unchanged, and a move onto itself changes nothing |
| DndUtils.MoveBack | src/utils/dndUtils.ts:9-10 | moving the element back restores the list |
| DndUtils.ItemPoints | src/utils/dndUtils.ts:25-34 | one item earns at most N - 1, and earns it exactly when it sits at its correct index (or N = 1) |
| DndUtils.CalculateScore | src/utils/dndUtils.ts:20-38 | the `forEach` loop sums `max(0, N - 1 - abs(userIndex - correctIndex))`, with -1 as the index of a missing id; the total is at most N * (N - 1) |
| DndUtils.PartialCreditBound | src/utils/dndUtils.ts:32-34 | the first k items earn at most k * (N - 1) |
| DndUtils.PartialCreditFull | src/utils/dndUtils.ts:32-34 | the first k items earn k * (N - 1) exactly when each is at its correct index |
| DndUtils.ScoreMaximalIff | src/utils/dndUtils.ts:20-38 | for N >= 2 the score is N * (N - 1) exactly when every item is at its correct index |
| DndUtils.PerfectOrderScore | src/utils/dndUtils.ts:20-38 | the correct order itself, with distinct ids, scores N * (N - 1) |
| DndUtils.CalculateMaxScore | src/utils/dndUtils.ts:43-46 | `N * (N - 1) / 2` is a whole number, half of N * (N - 1) |
| DndUtils.ProductOfConsecutiveIsEven | src/utils/dndUtils.ts:44-45 | N * (N - 1) is even |
| DndUtils.MaxPartialCreditIsMaximum | src/utils/dndUtils.ts:20-38 | N * (N - 1) bounds every score and the correct order attains it |
| DndUtils.PerfectScoreExceedsMaxScore | src/utils/dndUtils.ts:43-46 | the correct order of five scores 20, while `calculateMaxScore(5)` is 10 |
| DailyChallenge.RollPick | src/hooks/useDailyChallenge.ts:10 | the loop at index i uses `Math.random` call n - 1 - i, and the partner lies in [0, i] |
| DailyChallenge.RollPicks | src/hooks/useDailyChallenge.ts:9-10 | one valid partner per index |
| DailyChallenge.ShuffleArray | src/hooks/useDailyChallenge.ts:7-14 | the in-place loop on a copy yields the reference shuffle of the `Math.random` values, a permutation of its input |
| DailyChallenge.RankingByKey | src/hooks/useDailyChallenge.ts:31-33 | 'studentCount' exactly for 'STUDENT_COUNT', 'ranking' for anything else |
| DailyChallenge.SortMetric | src/hooks/useDailyChallenge.ts:39-42 | the comparator's metric: student count for 'studentCount', rank otherwise; `ClientMetricMatchesServer` proves it is the server's metric |
| DailyChallenge.ClientMetricMatchesServer | src/hooks/useDailyChallenge.ts:39-42 | the client sorts by the metric the server chose |
| DailyChallenge.DeriveChallenge | src/hooks/useDailyChallenge.ts:35-45 | the challenge the hook derives: the date, the mapped metric key, and for exactly five universities the shuffled display order and the sorted correct order, else two empty lists; `ChallengeProperties` proves its properties |
| DailyChallenge.HookResult | src/hooks/useDailyChallenge.ts:21-45 | the render throws exactly for an error body; before the response arrives the hook shows the initial state: no date, two empty lists and 'ranking' |
| DailyChallenge.UseDailyChallenge | src/hooks/useDailyChallenge.ts:16-47 | the hook's state updates and memos compute the render result: the challenge derived from a game body or the initial state, and the throw for an error body |
| DailyChallenge.ServerFailureCrashesPage | api/index.ts:102-105 | every failure of `GET /daily` reaches the hook as a 500 body, and the page's render then throws; a successful reply renders with the served date |
| DailyChallenge.ChallengeProperties | src/hooks/useDailyChallenge.ts:35-45 | without exactly five universities both lists are empty; with five the correct order is a sorted permutation and the display order a permutation |
| DailyChallenge.ClientCorrectOrderIsServers | src/hooks/useDailyChallenge.ts:39-42 | for a served five-entry game the client's correct order is the one the server scores against |
| RankingList.FormatRankingVariable | src/components/RankingList.tsx:10-16 | "Global Rank" exactly for 'ranking', "Student Count" exactly for 'studentCount', "Unknown Metric" otherwise |
| RankingList.HeadingNamesServerMetric | src/components/RankingList.tsx:88 | for a served game the heading names the server's metric, never "Unknown Metric" |
| RankingList.CorrectRank | src/components/RankingList.tsx:110-111 | undefined exactly for an id missing from the correct order; otherwise one more than its first position |
| RankingList.RankText | src/components/RankingList.tsx:126-128 | `${correctRank}`: the number's decimal text, or "undefined" |
| RankingList.RowTone | src/components/RankingList.tsx:118-125 | neutral before submission; green exactly when the rank is index + 1; yellow when a truthy rank is one off; red otherwise, including an undefined rank |
| RankingList.Row | src/components/RankingList.tsx:118-128 | the indicator's classes, title, caption and number, before and after submission |
| RankingList.RowToneVersusItem | src/components/RankingList.tsx:118-125 | with a known rank the row and its item agree; with no rank the row is red and the item neutral |
| RankingList.EveryRowHasRank | src/components/RankingList.tsx:109-111 | every displayed university has a rank, so `#undefined` never shows |
| RankingList.GreenIffServerMatch | src/components/RankingList.tsx:119-120 | a row is green exactly where the server counts an exact match |
| RankingList.BubbledMove | src/components/RankingList.tsx:114 | as written, one `dragenter` inside a card runs `handleDragEnter` on the item (SortableItem.tsx:50) and then on the row, and both queue the same move; the result is still a permutation |
| RankingList.BubbledMoveMissesTarget | src/components/RankingList.tsx:36-47 | after that double move the dragged university sits one place short of the target, and the target position holds its old neighbour |
| RankingList.BubbledMoveOntoNeighbourCancels | src/components/RankingList.tsx:44-45 | dragged onto a neighbouring card, the two moves cancel and the list is unchanged |
| RankingList.BubbledMoveExample | src/components/RankingList.tsx:44-45 | dragging the first of five onto the third gives [c, a, b, d, e], where one move gives [b, c, a, d, e] |
| RankingList.RankingListState.constructor | src/components/RankingList.tsx:19-24 | the initial state from the hook's challenge |
| RankingList.RankingListState.ChallengeChanged | src/components/RankingList.tsx:26 | a new challenge resets the displayed list |
| RankingList.RankingListState.HandleDragStart | src/components/RankingList.tsx:28-34 | records the dragged id when it is non-empty, nothing else |
| RankingList.RankingListState.HandleDragEnter | src/components/RankingList.tsx:36-47 | no change when submitted, when nothing is dragged or when the target is the dragged item; otherwise moves the dragged item to the target's place when both are found, and the list stays a permutation |
| RankingList.RankingListState.HandleDragEnd | src/components/RankingList.tsx:49 | clears the dragged id and nothing else |
| RankingList.RankingListState.HandleSubmit | src/components/RankingList.tsx:51-72 | a no-op once submitted; otherwise sends the ids in displayed order, takes the server score when present and else the local partial credit, and sets submitted |
| RankingList.RankingListState.MaxPossibleScore | src/components/RankingList.tsx:74 | `calculateMaxScore` of the list length |
| RankingList.RankingListState.Run | src/components/RankingList.tsx:28-72 | under any sequence of events the list stays a permutation; after submission nothing moves; at most one submission is sent, when each submit's fetch completes before the next event |
| RankingList.RequestIsValidPayload | src/components/RankingList.tsx:53-59 | the page's request passes the server's payload check |
| SortableItem.ToneOf | src/components/SortableItem.tsx:31-38 | neutral before submission or without a rank; green exactly when equal; yellow exactly when one off; red at two or more |
| SortableItem.View | src/components/SortableItem.tsx:28-48 | the indicator's classes, the number (index + 1, or the rank once classified), and draggable exactly before submission |
| SortableItemMobile.View | src/components/SortableItemMobile.tsx:31-55 | the mobile classes; text "Rank n" before submission or without a rank, "#rank" after; draggable exactly before submission |
| SortableItemMobile.AgreesWithDesktop | src/components/SortableItemMobile.tsx:31-42 | same colour and draggable flag as the desktop item, and the text's number is the desktop number |
| SimpleTooltip.Tooltip | src/components/ui/SimpleToolTip.tsx:10-14 | renders nothing exactly when inactive or the payload is missing or empty; count is `payload[0].value` or 0 |
| SimpleTooltip.NounAgreesWithCount | src/components/ui/SimpleToolTip.tsx:7-14 | count 1 drops the final "s" ("Answer", "Game"); any other count keeps "Answers" or "Games" |

## Left out

- HTTP, cookies, Express routing, `randomUUID` and `/health`, `/stats`: I/O plumbing. The user id is a parameter.
- Prisma queries: the store is two maps in `GameStore.Database`. A game's `include: { university }` join is `ApiServer.Join` over the catalog. The server's catalog is the university table in id order. The seeder's catalog is the table in whatever order the database returns it, so `Seed.SeedDailyGame` takes an arbitrary sequence.
- Averages (`toFixed(2)` at api/index.ts:149): floating point. `PostSubmission` replies with the submission count only. The page keeps whatever average the server sent as a real number.
- `getUTCDateKey` and `toISOString().slice(0, 10)`: clock-dependent. The date key is a parameter.
- SHA-256: a foreign call. The digest is a 32-byte input, and its hex text is modelled by `Seed.HexOf`.
- `Math.random`: the values its calls return are an input sequence of reals in [0, 1).
- ApiServer.SelectFrom: the `while (picked.size < 5)` loop has no termination bound for an arbitrary generator, so the model allows at most `fuel` draws. Running out is the error `SelectionDidNotFinish`, where the source would keep looping.
- ApiServer.Unsigned: `x >>> 0` is read bit by bit, least significant first, and is proved to be below 2^32. It is not proved equal to the bit-vector's numeric value (`v as int`) for every state, because that conversion is beyond what the solver proves within its resource bound. BelowHalfIff and PickIndexIsFloor are stated over this reading.
- ApiServer.FnvHash: collision-freedom of the hash is not claimed. The hash is modelled exactly but its injectivity is not proved.
- ApiServer.PickIndex: `Math.floor(rng() * all.length)` is computed on exact reals. Double rounding of the product is not modelled. It is exact for any catalog below 2^21 entries.
- DndUtils.ArrayMove: requires valid indices. JavaScript `splice` also accepts negative and out-of-range indices, but `RankingList` only calls it with indices found by `findIndex`.
- `setTimeout` in `handleDragStart`: modelled as an immediate update. The asynchronous `fetch` in `handleSubmit` is a `FetchOutcome` input: a failure or a reply with an optional score and average. Any reply without a finite score falls back to the local score.
- React batching: a functional update applied to a state that changed in between is not modelled. The `prevUnis` updater in `handleDragEnter` is applied to the current list.
- RankingList.RankingListState.Run: the line-26 effect is an explicit `ChallengeChanged` call, not an event of `Run`. It also resets the list after submission, so the "nothing moves after submission" property holds only between challenges.
- RankingList.RankingListState.HandleDragEnter: one call per `DragEnter` event, which is the single move the page evidently intends. In the source a `dragenter` inside a card runs the handler twice, and that as-written double move is modelled separately as `RankingList.BubbledMove` (see Findings). `Run` uses the single move.
- RankingList.RankingListState.Run: each `Submit` event completes its `fetch` at once, as one `FetchOutcome`. In the page, `handleSubmit` checks `isSubmitted` at line 52 and sets it at line 66, after awaiting the request at lines 55-61. Scoreboard disables its button only once `isSubmitted` is set. So a second click while the first request is pending sends a second POST. The "at most one submission" property holds only for submissions that do not overlap.
- ApiServer.EnsureDailyGame: requests are handled one at a time. In the source, two first requests for the same date can both miss at the `findUnique` (api/index.ts:31-40) and both reach the `create` (lines 55-69). The second create then hits the unique `dateKey` constraint and the request fails with a 500. That race is not modelled.
- Non-string `order` elements and a non-string `dateKey` in a submission: the payload's fields are modelled as strings. In the source a truthy non-string `dateKey`, such as `5`, passes the check at api/index.ts:114 and then fails in Prisma with a 500.
- SimpleTooltip.Tooltip: payload values are integers, not floats.
- Presentation: chart components, Scoreboard, UniversityCard and the Tailwind configuration. UniversityCard's `toLocaleString` and the hover and drag styling are also presentation.
- `api/generateDailyGame.ts`, `api/userStats.ts`, `api/getScores.ts`, `api/saveScore.ts` and `api/checkPlayed.ts` are not part of this model.
- FisherYates: the last `k` positions of a shuffle are not proved to be an arbitrary choice of the input (a uniformity claim). Only permutation and the untouched upper positions are proved.

## Findings

| source | as written | input that shows it | evidently intended | confidence | as-written member | corrected member |
|---|---|---|---|---|---|---|
| src/components/RankingList.tsx:114 | `handleDragEnter` is attached to both the row and, through the prop at line 140, the item inside it (SortableItem.tsx:50); a `dragenter` inside the item bubbles through both with the same indices, and the two queued `arrayMove` updaters both run | five universities [a, b, c, d, e], a dragged onto c's card: the list becomes [c, a, b, d, e], and onto a neighbour's card nothing moves | one move per `dragenter`, landing the dragged university on the target's position (`DndUtils.MovedPositions`) | not executed | RankingList.BubbledMoveExample | RankingList.RankingListState.HandleDragEnter |
| src/utils/dndUtils.ts:43-46 | `calculateMaxScore(N)` returns `N * (N - 1) / 2`, and `RankingList.tsx:74` shows it as the maximum | five universities with distinct ids submitted in the correct order: `calculateScore` gives 5 * 4 = 20, `calculateMaxScore(5)` gives 10 | the maximum of `calculateScore`, which is `N * (N - 1)` | not executed | DndUtils.PerfectScoreExceedsMaxScore | DndUtils.MaxPartialCreditIsMaximum |
