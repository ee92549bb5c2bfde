# trimmer (Trello timer) — the per-card residency computation

`trimmer.js` reports, for every card of a set of monitored Trello lists, how
long the card has spent in each monitored list. It decodes the card's
creation time from the first 8 hexadecimal digits of its id. It then builds
`listMove`: one synthetic entry for the first monitored list at creation,
plus one entry per action of the card's history that carries
`data.listAfter`. It sorts `listMove` by time and walks it. Each entry's
segment lasts until the next entry, and the last one lasts until "now". The
durations are summed per list in the `times` dictionary. Finally it writes
one row per card that is not in `ignoreCards`: the id, the creation date,
`times[list]/3600000` hours or `NA` for each monitored list, and the quoted
card name, under a header line naming the lists.

The model has one module per step:

- `CardTypes` (`card_types.dfy`): list ids, `listMove` entries (`Move`), actions, cards, monitored lists.
- `CardId` (`card_id.dfy`): the creation-time decode. It comes with the inverse encoding and the round trip.
- `ListMove` (`list_move.dfy`): building `listMove`, a loop that pushes entries.
- `TimeSort` (`time_sort.dfy`): the in-place stable sort of the array. It is proved equal to a reference stable sort, which is proved sorted, a permutation and stable. A uniqueness lemma shows that every stable sort by timestamp gives that same result.
- `Residency` (`residency.dfy`): the loop that fills `times`. Its result is `Totals`; the lemmas prove key set, per-list accumulation, telescoping and the partition law about it.
- `Report` (`report.dfy`): the header, the projection of `times` onto the monitored lists, the ignore filter, the whole per-card pipeline, and the worked example.

Timestamps are integer milliseconds (`Date.prototype.getTime`). A cell (`Total`)
holds the integer number of milliseconds; the report shows it divided by 3600000.
The monitored lists are a sequence standing for the keys of the `monitorLists`
object in configuration order, so their ids are distinct.

Behaviour of `trimmer.js` worth noting:

- The code checks `ignoreCards` inside the callback of the card's history fetch (trimmer.js:108-112), so the history is fetched even for an ignored card. The model takes the history as a parameter, and an ignored card yields no row.
- A cell is `NA` when `times[list]` is falsy (trimmer.js:168): absent, and also exactly 0. The model states both.
- The totals add up to now minus the EARLIEST entry of `listMove`. That is the creation time only when no move predates creation (`Report.CardPartition`).
- Totals are not always non-negative. Only the final segment can be negative, when "now" precedes the last entry (`Residency.SegmentsNonNegative`, `Residency.TotalsNonNegative`).
- The prefix `5a1f2b3c` is 1511992124 seconds (`CardId.CreatedTimeExample`).
- The row depends on the order in which the API lists a card's actions whenever two entries share a millisecond. The stable sort keeps them in history order, so the later one gets the whole segment and the earlier one gets 0 ms (`Report.TiedMovesFollowHistoryOrder`). A move at exactly the creation millisecond is such a tie: the synthetic first-list entry then gets 0 ms. With distinct timestamps, the order of the history does not matter (`TimeSort.DistinctTimesOrderFree`).
- The initial entry's list is `Object.keys(monitorLists)[0]`. For the non-index string keys of a JSON object, that is the first list in configuration order. `Report.ProcessCard` therefore uses `monitored[0].id`, and `ListMove.BuildListMove` takes the initial list as a parameter.

## Model

| member | source | states |
|---|---|---|
| `CardId.HexValue` | trimmer.js:124 | the base-16 value of an n-digit hex string is below 16^n |
| `CardId.CreatedTime` | trimmer.js:124 | the creation time is a whole number of seconds, in milliseconds, within the range of 8 hex digits |
| `CardId.HexValueOfDigits` | trimmer.js:124 | reading back the hex digits of n gives n (the decode inverts the id's encoding of its creation time) |
| `CardId.CreatedTimeOfEncoded` | trimmer.js:122-124 | an id starting with the 8-digit encoding of s seconds decodes to 1000·s ms, whatever follows the prefix |
| `CardId.CreatedTimeExample` | trimmer.js:122-124 | the id prefix `5a1f2b3c` decodes to 1511992124000 ms |
| `ListMove.BuildListMove` | trimmer.js:115-135 | `listMove` has 1 + (number of actions with `listAfter`) entries; the first is (initial list, creation time); the rest are the actions' moves in history order |
| `ListMove.MovesOfLength` | trimmer.js:131-135 | the actions contribute exactly one entry per action carrying `listAfter`, so actions without it add nothing |
| `ListMove.MovesOfAppend` | trimmer.js:131-135 | the contributed entries keep the order of the history (concatenation of histories concatenates entries) |
| `ListMove.MovesOfFrom` | trimmer.js:131-135 | every contributed entry is (listAfter.id, date) of some action of the history |
| `Report.MovesOfMember` | trimmer.js:131-135 | every action carrying `listAfter` contributes its (listAfter.id, date) entry |
| `TimeSort.InsertAt` | trimmer.js:141-145 | one insertion step moves an entry left past the entries stamped later, leaving the rest of the array unchanged |
| `TimeSort.SortByTime` | trimmer.js:141-145 | the in-place sort leaves the array equal to the reference stable sort of its old contents |
| `TimeSort.StableSortSorted` | trimmer.js:141-145 | the sorted `listMove` is non-decreasing by time, has the same length, and is a permutation of the unsorted one |
| `TimeSort.StableSortStable` | trimmer.js:141-145 | entries with equal timestamps keep their insertion order |
| `TimeSort.StableSortOfSorted` | trimmer.js:141-145 | an already sorted `listMove` is left unchanged |
| `TimeSort.DistinctTimesOrderFree` | trimmer.js:127-145 | when no two entries share a timestamp, two `listMove`s holding the same entries in any order sort to the same sequence |
| `TimeSort.SortedGroupsDetermine` | trimmer.js:141-145 | two sorted sequences with the same entries in the same order at every timestamp are equal, so any stable sort (Node's included) gives the same result |
| `Residency.Aggregate` | trimmer.js:138-164 | the loop leaves `times` equal to `Totals` of the sorted array: each segment lasts until the next entry or, for the last, until now, and is added to its list's total |
| `Residency.TotalsKeys` | trimmer.js:157-162 | the keys of `times` are exactly the lists occurring in `listMove` |
| `Residency.TotalsAccumulate` | trimmer.js:157-162 | `times[L]` is the sum of the durations of every segment in L, so re-entries accumulate rather than overwrite; a list with no segment has total 0 |
| `Residency.VisitedKeys` | trimmer.js:157-162 | the keys of `times` in first-entry order are distinct and are exactly the keys of `times` |
| `Residency.Telescope` | trimmer.js:146-154 | the durations of the first k segments add up to the (k+1)-th entry's time, or now, minus the first entry's time |
| `Residency.SumOfTotals` | trimmer.js:146-162 | the sum of `times` over its keys equals the sum of all segment durations |
| `Residency.Partition` | trimmer.js:141-162 | the sum of `times` over its keys equals now minus the first entry's time |
| `Residency.SegmentsNonNegative` | trimmer.js:148-154 | in sorted order every non-final duration is ≥ 0; the final one is negative exactly when now precedes the last entry |
| `Residency.TotalsNonNegative` | trimmer.js:146-162 | for a sorted `listMove` with now not before the last entry, every total in `times` is ≥ 0 |
| `Report.CardMoves` | trimmer.js:115-145 | a card's sorted moves number 1 + the moves of its history, are sorted by time, and are a permutation of the built `listMove` |
| `Report.EarliestFirst` | trimmer.js:141-145 | after the sort the first entry is one of the entries and is no later than any of them |
| `Report.CardPartition` | trimmer.js:124-162 | the totals of a card add up to now minus its earliest entry, which is no later than its creation and than any move; when no move predates creation, they add up to now minus the creation time |
| `Report.Header` | trimmer.js:89-93 | the header is `Card Id;Created date`, then `;name` per monitored list in configuration order, then `;Card name` and a newline |
| `Report.HeaderColumns` | trimmer.js:89-93 | when no list name contains `;`, the header has one separator per monitored list plus two, matching a row's columns |
| `Report.ProjectCells` | trimmer.js:167-173 | one cell per monitored list in configuration order; a cell is `NA` exactly when `times[L]` is absent or 0, and otherwise holds `times[L]` |
| `Report.ProcessCard` | trimmer.js:110-174 | an ignored card yields no row, whatever its id looks like; any other card yields its id, creation time, quoted name, and one cell per monitored list, `NA` exactly when its summed time in that list is 0 and that sum otherwise |
| `Report.TiedMovesFollowHistoryOrder` | trimmer.js:127-164 | two histories with the same actions in different orders, both moving the card at the same millisecond, give different totals: the move listed later gets the segment, and the other list gets 0 ms (an `NA` cell) |
| `Report.WorkedExample` | trimmer.js:115-174 | created at T0, moved to L2 at T0+2h and to L1 at T0+5h, now T0+7h: L1 = 4 h, L2 = 3 h, and an unvisited L3 has total 0 (its cell is `NA`) |

## Left out

- Command-line options, reading and parsing the configuration file, and the credentials (trimmer.js:29-69): I/O. The monitored lists, `ignoreCards` and "now" are parameters.
- The Trello REST calls, `urlMaker` and their nested asynchronous callbacks (trimmer.js:74-76, 96-108): network I/O. A card, its actions and the monitored lists are inputs.
- The fatal exit when a monitored list is unknown (trimmer.js:100-103): it belongs to the host process.
- The output stream and the order in which rows from concurrent callbacks reach the file (trimmer.js:86, 166-174): a row is a value. `Report.Header` builds the header line as a string.
- Verbose logging (trimmer.js:78-82 and its call sites, including the per-list hours at 176-178).
- The `Date` text of the creation column (trimmer.js:166): a row keeps the creation time in milliseconds.
- The floating-point division by 3600000 (trimmer.js:169): a cell keeps the exact integer milliseconds.
- The parsing of an action's ISO `date` string into milliseconds: an action carries its date already in milliseconds.
- `CardId.CreatedTime`: requires the first 8 characters of the id to be hex digits, because `parseInt`'s partial parse and `NaN` result on other characters are not modelled. `Report.ProcessCard` requires this only of cards that are not ignored, since the source drops ignored cards before decoding.
- `Report.ProcessCard`: requires at least one monitored list. With none, trimmer.js fetches no card, so it never processes one.
- `ListMove.BuildListMove`: the JavaScript array that is pushed to and then sorted is one object. The model builds it as a sequence and copies it into an array for the in-place sort.
- `ignoreCards` values are modelled by their JavaScript truthiness (a `bool`).
