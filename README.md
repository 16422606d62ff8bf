# Disney park companion: verified model of the logic core

This project is a Dafny model of the self-contained logic of a Walt Disney World companion web app. The app itself is TypeScript and JavaScript. What is modelled:

- the dashboard render-model builder: scoring, sanitising, the hysteresis "sticky list", crowd coercion and the fixed output shape;
- the dining-alert store and the dining helpers: slot simulation, preference matching, restaurant queries and the alert message;
- the bar-crawl ("Grog Trot") generator and the hydration of stored crawls;
- the Fast Travel route finder: Dijkstra plus the directions text;
- the dashboard UI mappers;
- the group-beacon helpers: invite codes and the expiry clamp;
- the `/link CODE` bot command parser;
- the latest-crowds normaliser;
- the virtual-queue drop reminders.

Each source file is one Dafny module.
- Code that changes state step by step is imperative Dafny: a class, or methods with loops. Each such method is proved equal to a specification function, or to a new state given by one.
- The properties the code promises are proved as `ensures` clauses and lemmas about those functions.
- Clocks, random values, universally unique ids (UUIDs), the JSON data files and the database are parameters.

Shared modules:
- `Wrappers` holds `Option`.
- `Seqs` holds sequence helpers: filter, a stable insertion sort, take, sums and map filling.
- `Strings` holds JavaScript string behaviour: `trim` with the ECMAScript whitespace set, ASCII case mapping, `split`, `join`, integer printing and `parseInt`.

## Model

| member | source | states |
|---|---|---|
| DashboardBuilder.AgeHours | lib/dashboard/buildDashboardRenderModel.js:36 | an item's age in hours is never negative |
| DashboardBuilder.RecencyBoost | lib/dashboard/buildDashboardRenderModel.js:37 | the recency term lies in [0, 2] |
| DashboardBuilder.ScoreItem | lib/dashboard/buildDashboardRenderModel.js:32-39 | a score lies in [-10, 13]: category weight at most 6, urgency at most 4, confidence between -10 and 1, recency at most 2 |
| DashboardBuilder.RecencyOfFreshItem | lib/dashboard/buildDashboardRenderModel.js:32-39 | an item updated at or after `now` gets the full recency 2, so its score is category weight + urgency boost + confidence score + 2 |
| DashboardBuilder.RecencyOfStaleItem | lib/dashboard/buildDashboardRenderModel.js:37 | an item updated 12 or more hours ago gets recency 0 |
| DashboardBuilder.RecencyMonotone | lib/dashboard/buildDashboardRenderModel.js:36-37 | a more recently updated item never gets less recency |
| DashboardBuilder.Sanitize | lib/dashboard/buildDashboardRenderModel.js:41-43 | the sanitised list is no longer than the input, and every item in it is an input item that has an id, is not expired and is not low-confidence |
| DashboardBuilder.SanitizeExactly | lib/dashboard/buildDashboardRenderModel.js:24-43 | an item is kept iff it is in the input and displayable; every displayable item keeps its multiplicity, and no other item is kept |
| DashboardBuilder.SanitizeAppend | lib/dashboard/buildDashboardRenderModel.js:144 | sanitising a concatenation is the concatenation of the sanitised parts, so a pool keeps its sections' order |
| DashboardBuilder.SortByScore | lib/dashboard/buildDashboardRenderModel.js:63 | the score sort is a permutation of its input |
| DashboardBuilder.SortByScoreDescending | lib/dashboard/buildDashboardRenderModel.js:63 | the score sort yields non-increasing scores |
| DashboardBuilder.SortByScoreHead | lib/dashboard/buildDashboardRenderModel.js:63 | the head of the sorted list is an input item whose score no input item exceeds |
| DashboardBuilder.LastWithId | lib/dashboard/buildDashboardRenderModel.js:57 | the candidate map holds an id iff some candidate has it, and then maps it to the LAST candidate with that id (no later candidate has it), as `new Map` keeps the last write |
| DashboardBuilder.PrevIds | lib/dashboard/buildDashboardRenderModel.js:58 | every carried id is a previous id that is still a candidate |
| DashboardBuilder.PrevItems | lib/dashboard/buildDashboardRenderModel.js:59 | the carried items are candidates, one per carried id and in that order, each with its id |
| DashboardBuilder.PrevIdsExactly | lib/dashboard/buildDashboardRenderModel.js:58-59 | an id is carried iff it is a previous id and a candidate id; nothing is carried iff no previous id is a candidate |
| DashboardBuilder.Fresh | lib/dashboard/buildDashboardRenderModel.js:61-63 | every fresh item is a candidate whose id was not carried |
| DashboardBuilder.FreshExactly | lib/dashboard/buildDashboardRenderModel.js:61-63 | an item is fresh iff it is a candidate and its id was not carried; the fresh items are a sub-multiset of the candidates, in non-increasing score order |
| DashboardBuilder.CarriedFreshDisjoint | lib/dashboard/buildDashboardRenderModel.js:58-63 | no carried item shares an id with a fresh item |
| DashboardBuilder.Ordered | lib/dashboard/buildDashboardRenderModel.js:69-79 | the merged list holds only carried and fresh items |
| DashboardBuilder.OrderedCases | lib/dashboard/buildDashboardRenderModel.js:65-79 | the merge is the fresh list when nothing is carried; it is the best fresh item followed by the carried items when that item leads by at least 2; otherwise it is the carried items followed by all fresh ones |
| DashboardBuilder.StickyList | lib/dashboard/buildDashboardRenderModel.js:56-82 | `stickyList` returns at most `limit` items, all of them candidates |
| DashboardBuilder.StickyNonEmpty | lib/dashboard/buildDashboardRenderModel.js:61-81 | with a candidate and a positive limit the result is not empty |
| DashboardBuilder.StickyColdStart | lib/dashboard/buildDashboardRenderModel.js:61-67 | when no previous id is still a candidate, the result is the first `limit` candidates in stable score-descending order |
| DashboardBuilder.StickyHysteresis | lib/dashboard/buildDashboardRenderModel.js:69-81 | with carried items, the result is `limit` items of [best fresh] + carried when the best fresh leads the first carried by at least 2, and of carried + fresh otherwise |
| DashboardBuilder.StickyLeader | lib/dashboard/buildDashboardRenderModel.js:71-78 | with carried items the leader is either the old leader, or a fresh item that beats it by at least 2 and scores at least as high as every other fresh candidate |
| DashboardBuilder.StickyCarriedOrder | lib/dashboard/buildDashboardRenderModel.js:69-81 | the carried items in the result are a prefix of the previous carried order; with fewer carried items than `limit`, all of them appear in their old order |
| DashboardBuilder.StickyNoDuplicates | lib/dashboard/buildDashboardRenderModel.js:56-81 | with unique candidate ids and a duplicate-free previous list, no id appears twice in the result |
| DashboardBuilder.CarriedAfterReorder | lib/dashboard/buildDashboardRenderModel.js:58-59 | feeding back a previous result over a reordering of unique candidates carries exactly that result, in order |
| DashboardBuilder.StickyReorderStable | test-dashboard-render-model.test.cjs:21-30 | re-running on any reordering of the same unique candidates, with the first result as previous, gives the same list back |
| DashboardBuilder.FreshAfterReorder | lib/dashboard/buildDashboardRenderModel.js:61-74 | after such a reordering, any fresh candidate left over trails the old leader by less than 2, and the first result was full |
| DashboardBuilder.StickyExampleFirst | lib/dashboard/buildDashboardRenderModel.js:61-67 | on a cold start, two candidates come back best first |
| DashboardBuilder.StickyExample | lib/dashboard/buildDashboardRenderModel.js:69-81 | with b, a carried and a fresh c that does not beat b by 2, the result is [b, a, c] |
| DashboardBuilder.KeyOrderIsScoreOrder | lib/dashboard/buildDashboardRenderModel.js:63 | a list sorted on the negated score is in non-increasing score order |
| DashboardBuilder.OrderedUnique | lib/dashboard/buildDashboardRenderModel.js:69-78 | merging carried and fresh items with unique, disjoint ids keeps the ids unique |
| DashboardBuilder.ExampleCarried | lib/dashboard/buildDashboardRenderModel.js:58-59 | with candidates a, b, c and previous ids b, a, the carried ids and items are b then a |
| DashboardBuilder.ExampleFresh | lib/dashboard/buildDashboardRenderModel.js:61-63 | in the same situation the only fresh item is c |
| DashboardBuilder.PairPickUncarried | lib/dashboard/buildDashboardRenderModel.js:65-66 | with nothing carried, a one-item pick of two candidates is the higher-scoring one |
| DashboardBuilder.PairPickCarried | lib/dashboard/buildDashboardRenderModel.js:71-81 | a carried item stays when the other candidate leads it by less than 2 |
| DashboardBuilder.FirstRising | lib/dashboard/buildDashboardRenderModel.js:87 | `find(score >= 8)`: the result is none iff no park scores 8 or more; otherwise it is the park at some position i with score at least 8, and every park before i scores below 8 |
| DashboardBuilder.BuildCrowdTile | lib/dashboard/buildDashboardRenderModel.js:84-98 | the crowds tile has id `hot-crowds`, category crowds and title "Crowds" |
| DashboardBuilder.CrowdTileEmpty | lib/dashboard/buildDashboardRenderModel.js:85-89 | the short text is "Data limited" iff there are no crowd parks; with none, the long text is "Crowds steady" |
| DashboardBuilder.CrowdTileSteady | lib/dashboard/buildDashboardRenderModel.js:87-88 | the long text is "Crowds steady" iff no park has score 8 or more |
| DashboardBuilder.CrowdTileHighest | lib/dashboard/buildDashboardRenderModel.js:86-89 | with parks, the short text is "<label> (<score>/10)" of a highest-scoring park; when that park scores 8 or more, the long text names it |
| DashboardBuilder.CarriedCrowd | lib/dashboard/buildDashboardRenderModel.js:103-109 | the carried-forward entry is the previous one with note "Data limited" and quality limited |
| DashboardBuilder.CrowdScore | lib/dashboard/buildDashboardRenderModel.js:113 | the fresh score, else the previous one, else 5, clamped to [1, 10] (a zero score counts as missing): a non-zero fresh score clamped to [1, 10]; else a non-zero previous score clamped; else 5 |
| DashboardBuilder.CrowdLabelOf | lib/dashboard/buildDashboardRenderModel.js:114 | the label is the fresh non-empty label, else the previous non-empty label, else "Moderate" |
| DashboardBuilder.FreshCrowd | lib/dashboard/buildDashboardRenderModel.js:111-119 | the fresh entry is for this park, with the score and label above, quality from the fresh entry (limited when absent), note "Data limited" iff quality is not good, wait time from the fresh entry, else the previous one, else 0, and time from the fresh entry, else the previous non-empty one, else now |
| DashboardBuilder.CoerceCrowd | lib/dashboard/buildDashboardRenderModel.js:100-120 | missing or bad data with a previous entry gives exactly the previous entry with note "Data limited" and quality limited; in every other case it is the fresh entry above |
| DashboardBuilder.CoerceCrowdCases | lib/dashboard/buildDashboardRenderModel.js:100-120 | the values case by case: a carried entry keeps every previous field but note and quality; a fresh score above 10 gives 10, a non-zero one below 1 gives 1, one in range is kept, a previous score is clamped the same way, and with neither 5; labels fall back to "Moderate", wait to 0, time to now |
| DashboardBuilder.CrowdFor | lib/dashboard/buildDashboardRenderModel.js:181 | `crowdsRaw.parks[park]` is a crowd entry for that park code, and is absent iff there is none |
| DashboardBuilder.PickCategoryItem | lib/dashboard/buildDashboardRenderModel.js:122-125 | at most `limit` items, each from the pool and of the requested category |
| DashboardBuilder.ToRenderItems | lib/dashboard/buildDashboardRenderModel.js:45-54 | `map(toRenderItem)` keeps length and order |
| DashboardBuilder.NormalizeHotTile | lib/dashboard/buildDashboardRenderModel.js:127-136 | `normalizeHotTile`: id `hot-<id>`, the category's fixed title and the item's texts; `StripNormalized` undoes the prefix |
| DashboardBuilder.StripHotPrefix | lib/dashboard/buildDashboardRenderModel.js:129 | the stripped id is the id itself or the id less a leading `hot-` |
| DashboardBuilder.StripNormalized | lib/dashboard/buildDashboardRenderModel.js:127-135 | stripping the prefix from a normalised hot tile gives the item's id back |
| DashboardBuilder.HotTileIdsAsWritten | lib/dashboard/buildDashboardRenderModel.js:155-156 | the as-written previous ids: the previous tiles' own `hot-` ids of the category, in order; `AsWrittenIdsNotCarried` and `HotTileFlipsAsWritten` show what that costs |
| DashboardBuilder.HotTileItemIds | lib/dashboard/buildDashboardRenderModel.js:155-156 | the corrected previous ids are, position by position, the as-written ids (the previous tiles of the category, in order) with the `hot-` prefix removed |
| DashboardBuilder.FirstSnapshot | lib/dashboard/buildDashboardRenderModel.js:180 | the previous snapshot found is one for that park |
| DashboardBuilder.FirstSummary | lib/dashboard/buildDashboardRenderModel.js:178 | the summary found is one for that park |
| DashboardBuilder.Section | lib/dashboard/buildDashboardRenderModel.js:163-175 | a rendered sticky section has at most `limit` entries |
| DashboardBuilder.SectionFromCandidates | lib/dashboard/buildDashboardRenderModel.js:163-175 | every entry of a section renders some candidate |
| DashboardBuilder.HomeMustSee | lib/dashboard/buildDashboardRenderModel.js:147-153 | home must-see has at most one entry |
| DashboardBuilder.HotTileOrFallback | lib/dashboard/buildDashboardRenderModel.js:155-159 | a home hot tile is the fallback, or a tile of that category with its fixed title |
| DashboardBuilder.HomeHotTiles | lib/dashboard/buildDashboardRenderModel.js:155-161 | there are exactly three home hot tiles, the last being the crowds tile; previous tiles are matched by their stripped item ids, the corrected form of line 155 (see Findings) |
| DashboardBuilder.HotTileChoice | lib/dashboard/buildDashboardRenderModel.js:155-159 | the fallback is used iff the pool has no item of the category; otherwise the tile normalises such an item |
| DashboardBuilder.HomeHotTilesShape | lib/dashboard/buildDashboardRenderModel.js:157-159 | the tiles are event_alert ("Events & Alerts"), then limited_merch ("Limited Merch"), then crowds |
| DashboardBuilder.HomeEventTile | lib/dashboard/buildDashboardRenderModel.js:155-158 | the event tile is the event fallback when the home pool has no event alert, and a normalised event alert otherwise |
| DashboardBuilder.AsWrittenIdsNotCarried | lib/dashboard/buildDashboardRenderModel.js:155 | as written, a previous hot tile's `hot-` id never matches its item, so nothing is carried |
| DashboardBuilder.CorrectedIdsCarried | lib/dashboard/buildDashboardRenderModel.js:155 | with the prefix stripped, a previous hot tile's item is carried |
| DashboardBuilder.HotTileFlipsAsWritten | lib/dashboard/buildDashboardRenderModel.js:155-158 | as written, a last-cycle tile loses to a rival that beats it by less than 2, so hysteresis is missing |
| DashboardBuilder.HotTileKeptCorrected | lib/dashboard/buildDashboardRenderModel.js:155-158 | with the prefix stripped, the same tile is kept |
| DashboardBuilder.HomeTopStories | lib/dashboard/buildDashboardRenderModel.js:163-168 | at most five top stories |
| DashboardBuilder.HomeResortSpotlight | lib/dashboard/buildDashboardRenderModel.js:170-175 | at most two resort blurbs |
| DashboardBuilder.SanitizedSection | lib/dashboard/buildDashboardRenderModel.js:41-43 | a section over sanitised candidates renders only displayable source items |
| DashboardBuilder.HomeListsFromFeed | lib/dashboard/buildDashboardRenderModel.js:147-175 | top stories, resort spotlight and must-see render displayable items of their own feed lists; must-see items are must_see_today |
| DashboardBuilder.SnapshotHeadline | lib/dashboard/buildDashboardRenderModel.js:187 | a snapshot headline is never empty ("No major updates" last) |
| DashboardBuilder.Snapshot | lib/dashboard/buildDashboardRenderModel.js:177-189 | a snapshot carries its park with the park's fixed name and colour |
| DashboardBuilder.Snapshots | lib/dashboard/buildDashboardRenderModel.js:177 | one snapshot per park, in the given order |
| DashboardBuilder.HomeSection | lib/dashboard/buildDashboardRenderModel.js:236-245 | home has must-see at most 1, top stories at most 5, resort spotlight at most 2, exactly 3 hot tiles and the snapshots MK, EPCOT, DHS, AK in that order; its hot tiles use the corrected previous ids |
| DashboardBuilder.HotPicks | lib/dashboard/buildDashboardRenderModel.js:205-208 | park hot picks come from the pool, in event_alert, limited_merch, crowds order, at most one each |
| DashboardBuilder.RenderedPicks | lib/dashboard/buildDashboardRenderModel.js:209 | after `slice(0, 3)` and rendering, at most three in that order |
| DashboardBuilder.ParkHot | lib/dashboard/buildDashboardRenderModel.js:205-209 | a park has at most three hot items, in category order |
| DashboardBuilder.ParkSection | lib/dashboard/buildDashboardRenderModel.js:192-233 | a park section is for its park, with must-see at most 1, hot at most 3, headlines at most 6, resort tie-ins at most 3, and the coerced crowd |
| DashboardBuilder.BuiltParkKeys | lib/dashboard/buildDashboardRenderModel.js:191-192 | the parks map has exactly the keys MK, EPCOT, DHS and AK |
| DashboardBuilder.BuiltParkSection | lib/dashboard/buildDashboardRenderModel.js:225-233 | each park's entry is its park section |
| DashboardBuilder.FillParks | lib/dashboard/buildDashboardRenderModel.js:191-234 | the `forEach` over the four parks fills the map that assigns each park its section |
| DashboardBuilder.BuildDashboardRenderModel | lib/dashboard/buildDashboardRenderModel.js:138-248 | the model is the home section (with the corrected hot-tile ids), the filled park map, and the two timestamps, each falling back to `now` |
| AlertManager.IsValidDateRange | lib/grub-grab/alert-manager.ts:32-46 | `isValidDateRange` on the parsed dates: both parse, the start is no later than the end, no earlier than today's UTC midnight, and the end is no more than 60 days from now; `ValidRangeSpan` bounds the window it admits |
| AlertManager.ValidRangeSpan | lib/grub-grab/alert-manager.ts:32-46 | a valid range ends no earlier than it starts and less than 61 days after it, and it starts less than one day before now |
| AlertManager.Present | lib/grub-grab/alert-manager.ts:53-55 | the alerts found are exactly those that some listed id names |
| AlertManager.AlertsByUser | lib/grub-grab/alert-manager.ts:50-51 | an unknown user has no alerts |
| AlertManager.AlertsByUserExactly | lib/grub-grab/alert-manager.ts:48-57 | a user's list is exactly the stored alerts with that chat id, newest `createdAt` first |
| AlertManager.UserAlertsExactly | lib/grub-grab/alert-manager.ts:50-55 | the user's id set names exactly the stored alerts with that chat id |
| AlertManager.ActiveAlertsExactly | lib/grub-grab/alert-manager.ts:59-62 | the active list is exactly the stored alerts with status active |
| AlertManager.PresentActiveCount | lib/grub-grab/alert-manager.ts:83 | the number of active alerts listed is the active count over the user's ids |
| AlertManager.ListedActiveCount | lib/grub-grab/alert-manager.ts:83-84 | the limit check counts exactly the active alerts of the user's ids |
| AlertManager.CreateOutcome | lib/grub-grab/alert-manager.ts:64-65 | `createAlert` trims the chat id and runs every later check on the trimmed one; `CreateOutcomeExactly` states its outcome and `CreateDependsOnTrim` that only the trimmed form matters |
| AlertManager.CreateTrimmed | lib/grub-grab/alert-manager.ts:66-119 | the checks of `createAlert` in source order (chat id, party size, dates, slug, active limit), each with its own error, and the new alert when all pass; `CreateTrimmedExactly` states the outcome |
| AlertManager.CreateTrimmedExactly | lib/grub-grab/alert-manager.ts:66-119 | on an already trimmed chat id: success iff the id is non-empty, the party 2..10, the range valid, the slug known and fewer than 3 active alerts, and then the new alert is active with zero counters and the input's fields |
| AlertManager.CreateOutcomeExactly | lib/grub-grab/alert-manager.ts:64-119 | creation succeeds iff the trimmed chat id is non-empty, party size is 2..10, the range is valid, the slug is known and the user has fewer than 3 active alerts; the new alert is active with zero counters, no triggered dates, the trimmed chat id as `telegramChatId` and `userId`, and the input's fields |
| AlertManager.CreateIgnoresChatPadding | lib/grub-grab/alert-manager.ts:65 | surrounding whitespace on the chat id changes nothing |
| AlertManager.CreateDependsOnTrim | lib/grub-grab/alert-manager.ts:65 | two chat ids with the same trimmed form give the same outcome |
| AlertManager.Inserted | lib/grub-grab/alert-manager.ts:113-117 | the store after a successful create: the alert under its id, its id last in key order and appended to its chat's ids; `InsertedConsistent` and `InsertedWithinLimit` state the invariants it keeps |
| AlertManager.InsertedConsistent | lib/grub-grab/alert-manager.ts:113-117 | inserting a fresh alert keeps both indexes consistent: every id in a user's set names an alert owned by that user, and every alert is listed |
| AlertManager.CountActiveAppend | lib/grub-grab/alert-manager.ts:116 | adding an id to a user's set raises the active count by one exactly when it names an active alert |
| AlertManager.InsertedWithinLimit | lib/grub-grab/alert-manager.ts:83-86 | after a permitted creation no user has more than 3 active alerts |
| AlertManager.Removed | lib/grub-grab/alert-manager.ts:128-135 | the store after a removal: the id gone from the alert map, the key order and the chat's ids, and the chat's entry dropped once empty; `RemovedExactly` and `RemovedConsistent` state its effect and invariants |
| AlertManager.RemovedExactly | lib/grub-grab/alert-manager.ts:128-135 | removal deletes the id from `alertsById` and from every user set, drops the user's set once it is empty and leaves other users alone |
| AlertManager.RemovedConsistent | lib/grub-grab/alert-manager.ts:122-138 | removal keeps both indexes consistent |
| AlertManager.CountActiveRemoved | lib/grub-grab/alert-manager.ts:128-131 | removal never raises an active count |
| AlertManager.RemovedWithinLimit | lib/grub-grab/alert-manager.ts:122-138 | removal keeps every user within 3 active alerts |
| AlertManager.MarkChecked | lib/grub-grab/alert-manager.ts:140-151 | one more check, one more find when slots were found, `lastChecked` set, an unknown id ignored; `MarkCheckedExactly` states that nothing else changes |
| AlertManager.MarkCheckedExactly | lib/grub-grab/alert-manager.ts:140-151 | marking adds 1 to `totalChecks`, adds 1 to `successfulFinds` iff `foundSlots > 0`, and sets `lastChecked`; nothing else changes, and an unknown id is a no-op |
| AlertManager.MarkCheckedKeeps | lib/grub-grab/alert-manager.ts:140-151 | marking keeps the store consistent and within the limit |
| AlertManager.MarkCheckedOwners | lib/grub-grab/alert-manager.ts:145-150 | marking keeps ids, owners, user sets and keys |
| AlertManager.MarkCheckedWithinLimit | lib/grub-grab/alert-manager.ts:145-150 | marking keeps every user within the limit, because status does not change |
| AlertManager.AlertStore.constructor | lib/grub-grab/alert-manager.ts:21-30 | a new store is empty and valid |
| AlertManager.AlertStore.ListAlertsByUser | lib/grub-grab/alert-manager.ts:48-57 | the result holds exactly the stored alerts with that chat id |
| AlertManager.AlertStore.ListAllActiveAlerts | lib/grub-grab/alert-manager.ts:59-62 | the result holds exactly the stored active alerts |
| AlertManager.AlertStore.CreateAlert | lib/grub-grab/alert-manager.ts:64-120 | the result is the creation outcome; a rejection leaves the store unchanged, and a success inserts the alert into both maps; the store stays valid |
| AlertManager.AlertStore.RemoveAlert | lib/grub-grab/alert-manager.ts:122-138 | returns true iff the id is stored and owned by that chat; then the store is the removal, otherwise unchanged; the store stays valid |
| AlertManager.AlertStore.MarkAlertChecked | lib/grub-grab/alert-manager.ts:140-151 | the new store is the marked one, and it stays valid |
| GrogTrot.Get | lib/grog-trot/algorithm.ts:91 | an inner-map lookup yields an edge to that area, and is absent iff none is stored |
| GrogTrot.PutGet | lib/grog-trot/algorithm.ts:72-73 | after `set`, the key maps to the new edge and other keys are unchanged |
| GrogTrot.PutKeys | lib/grog-trot/algorithm.ts:72-73 | `set` keeps the key order and appends a new key at the end, as a JavaScript `Map` does |
| GrogTrot.BuildGraph | lib/grog-trot/algorithm.ts:62-82 | the loop builds the graph given by adding each edge in both directions, in order |
| GrogTrot.AddEdgeShape | lib/grog-trot/algorithm.ts:65-78 | adding an edge registers both areas and keeps the graph well formed |
| GrogTrot.AddEdgeLookup | lib/grog-trot/algorithm.ts:72-78 | after adding an edge, from→to is the edge and to→from its reverse; every other pair is unchanged |
| GrogTrot.GraphOf | lib/grog-trot/algorithm.ts:62-82 | the graph `buildGraph` returns; `GraphShape`, `GraphSymmetric` and `GraphCovers` state it |
| GrogTrot.GraphShape | lib/grog-trot/algorithm.ts:62-82 | the graph's areas are exactly the endpoints of the edges |
| GrogTrot.GraphSymmetric | lib/grog-trot/algorithm.ts:72-78 | whenever the graph holds a→b, it holds b→a as its reverse |
| GrogTrot.GraphCovers | lib/grog-trot/algorithm.ts:65-78 | every edge is stored in both directions |
| GrogTrot.BestTwoLegFound | lib/grog-trot/algorithm.ts:100-115 | a two-leg connection is found iff some neighbour reaches the target, and it runs from `from` to `to` |
| GrogTrot.BestTwoLegLeast | lib/grog-trot/algorithm.ts:104-112 | the connection found takes no more minutes than any other two-leg connection |
| GrogTrot.BestTwoLegFirst | lib/grog-trot/algorithm.ts:105 | on ties the first minimal neighbour wins (strict `<`) |
| GrogTrot.TwoLegSearch | lib/grog-trot/algorithm.ts:100-113 | the loop over the neighbours computes the best two-leg connection |
| GrogTrot.ShortestEdge | lib/grog-trot/algorithm.ts:86-116 | `getShortestEdge` on the graph; `ShortestEdgePriority` proves the order of its cases and the minimality of the two-leg connection |
| GrogTrot.GetShortestEdge | lib/grog-trot/algorithm.ts:86-116 | the method returns the specified shortest edge |
| GrogTrot.ShortestEdgePriority | lib/grog-trot/algorithm.ts:86-116 | same area gives an 8-minute walk; else the direct edge; else a minimal two-leg connection; else a 35-minute bus |
| GrogTrot.ClampStops | lib/grog-trot/algorithm.ts:143 | the stop count is `numberOfStops` clamped to [3, 8] |
| GrogTrot.Candidates | lib/grog-trot/algorithm.ts:145-158 | no more candidates than venues, each a venue that passes the pool and reservation exclusions |
| GrogTrot.CandidatesExactly | lib/grog-trot/algorithm.ts:145-158 | candidates keep venue order; a venue is one iff it passes the pool and reservation exclusions and matches a vibe, the vibe filter being dropped only when the strict filter leaves fewer than the clamped count |
| GrogTrot.FirstStop | lib/grog-trot/algorithm.ts:160-170 | the first stop: the first starter after the stable reservation sort, else the first candidate; `FirstStopPrefers` states it |
| GrogTrot.NextStop | lib/grog-trot/algorithm.ts:172-191 | the next stop: the first remaining candidate after the stable sort on minutes plus area penalty, then reservation; `NextStopIsNearest` states it |
| GrogTrot.FirstStopPrefers | lib/grog-trot/algorithm.ts:160-170 | the first stop is a starting-area venue without reservation if one exists, else a starting-area venue, else the first candidate |
| GrogTrot.NextStopIsNearest | lib/grog-trot/algorithm.ts:172-191 | each next stop is an unchosen candidate minimising edge minutes + 3 for the same area, ties going to non-reservation venues |
| GrogTrot.StopsVenues | lib/grog-trot/algorithm.ts:194-197 | stops keep the chosen venues in order, with `order` = index + 1 |
| GrogTrot.ChooseStops | lib/grog-trot/algorithm.ts:160-192 | the choosing loop yields the greedy tour from the first stop |
| GrogTrot.PickNext | lib/grog-trot/algorithm.ts:173-191 | nothing is picked iff no candidate is left; otherwise the nearest-next stop |
| GrogTrot.BuildLeg | lib/grog-trot/algorithm.ts:203-214 | one leg is the shortest edge between consecutive venues, with its direction text |
| GrogTrot.BuildLegs | lib/grog-trot/algorithm.ts:199-215 | there are stops − 1 legs, leg k joins stops k and k + 1, and the total is the sum of leg minutes |
| GrogTrot.GenerateGrogTrot | lib/grog-trot/algorithm.ts:142-227 | the crawl's stops are the greedy tour over the candidates with `order` = index + 1, the legs join consecutive stops, the total sums them, and the title is "Goofy's Grog Trot: " + the vibe label |
| GrogTrot.TourFromCandidates | lib/grog-trot/algorithm.ts:160-192 | every stop is a candidate |
| GrogTrot.TourDistinct | lib/grog-trot/algorithm.ts:174 | no venue id appears twice in a crawl |
| GrogTrot.TourHonoursExclusions | lib/grog-trot/algorithm.ts:145-158 | with the exclusions set, no pool bar and no reservation venue is chosen, even after the fallback |
| GrogTrot.TourLength | lib/grog-trot/algorithm.ts:172-175 | a crawl has at most the clamped count and at most the number of candidates; with distinct candidate ids and enough of them, exactly the clamped count |
| GrogTrot.TourGreedy | lib/grog-trot/algorithm.ts:177-191 | every stop after the first is nearest to the one before among the remaining candidates |
| GrogTrot.GreedyTourUnique | lib/grog-trot/algorithm.ts:160-192 | the greedy tour is determined by its inputs |
| GrogTrot.VibeLabel | lib/grog-trot/algorithm.ts:123-126 | "Mixed Magic" for no vibes, else the vibes' words joined by " + "; `VibeLabelReadable` and `VibeLabelCons` state it |
| GrogTrot.VibeLabelReadable | lib/grog-trot/algorithm.ts:123-126 | the vibe label has no underscore |
| GrogTrot.VibeLabelCons | lib/grog-trot/algorithm.ts:123-126 | the label is the vibes' words joined by " + " |
| GrogTrot.FindVenue | lib/grog-trot/algorithm.ts:137 | `find` by id yields a venue with that id, and none iff there is none |
| GrogTrot.FindVenuesExactly | lib/grog-trot/algorithm.ts:136-138 | a template's stops are the venues of its known ids, one each, in order |
| GrogTrot.TemplateTitle | lib/grog-trot/algorithm.ts:135 | a slug with hyphens as spaces and each word's first character upper-cased; `TitleWordsAt`, `TwoWordTitle`, `ThreeWordTitle` and `TemplateTitles` state it |
| GrogTrot.TitleWordsAt | lib/grog-trot/algorithm.ts:135 | `\b\w` upper-cases exactly the word characters that start a word |
| GrogTrot.GrogTrotTemplates | lib/grog-trot/algorithm.ts:132-140 | one template per entry of the template map, in order, with its slug, title-cased title and found stops |
| GrogTrot.TemplateTitles | lib/grog-trot/algorithm.ts:16-52 | the titles are "Tiki Night", "World Showcase Tour", "Speakeasy Crawl", "Resort Hop" and "Galaxy To Galaxy" |
| GrogTrot.TwoWordTitle | lib/grog-trot/algorithm.ts:135 | a two-word lower-case slug titles as its capitalised words |
| GrogTrot.ThreeWordTitle | lib/grog-trot/algorithm.ts:135 | a three-word lower-case slug titles as its capitalised words |
| FastTravel.NodeIdsCard | components/FastTravel.tsx:146 | there are no more distinct node ids than nodes, so the search loop's `visited.size < routes.nodes.length` bound can be met |
| FastTravel.BuildAdjacency | components/FastTravel.tsx:128-132 | the adjacency built edge by edge is the one the edge list defines |
| FastTravel.LastEdge | components/FastTravel.tsx:131 | the entry found joins the asked-for ends and is one of the edges; there is none exactly when no edge joins them |
| FastTravel.LastEdgeIsLast | components/FastTravel.tsx:131 | when several edges join the same ends, the one kept is the last of them in the list |
| FastTravel.AdjIsLastEdge | components/FastTravel.tsx:128-132 | looking up `graph[from][to]` gives the last edge from `from` to `to` |
| FastTravel.InitLabels | components/FastTravel.tsx:140-143 | every node starts at an infinite distance with no predecessor |
| FastTravel.NearestUnvisited | components/FastTravel.tsx:148-156 | none is found exactly when every unvisited node is unreachable; otherwise the node found is unvisited, at the least distance, and the first in node order with that distance |
| FastTravel.RelaxNeighbours | components/FastTravel.tsx:162-169 | a neighbour's distance and predecessor change exactly when the path through the visited node is strictly shorter |
| FastTravel.Visit | components/FastTravel.tsx:158-169 | visiting the nearest unvisited node keeps the search invariant: distances are lengths of real routes, visited distances are final, and predecessor links form routes |
| FastTravel.RouteBound | components/FastTravel.tsx:146-170 | any route to a node either ends in a visited node whose distance is at most its length, or passes an unvisited reached node whose distance is at most its length |
| FastTravel.FinishedBound | components/FastTravel.tsx:158 | once the loop stops at or before the target, the target's distance is at most the length of any route to it |
| FastTravel.Search | components/FastTravel.tsx:139-170 | the search loop keeps the invariant and stops at the target, with nothing nearer left, or when every node is visited |
| FastTravel.Reconstruct | components/FastTravel.tsx:177-184 | following predecessors back from the target gives a route from the start to the target whose time is the target's distance |
| FastTravel.FindShortestPath | components/FastTravel.tsx:122-190 | no route between the same place; otherwise a route found is a real route whose total time is the sum of its segments and no longer than any other route, and none is found only when no route exists |
| FastTravel.FindNode | components/FastTravel.tsx:49 | the node found has the asked-for id; there is none exactly when no node has it |
| FastTravel.FindNodeIsFirst | components/FastTravel.tsx:49 | the node found is the first with that id |
| FastTravel.RouteDirections | components/FastTravel.tsx:45-119 | the directions text: empty for no segments, one sentence for one, else departure, optional transfer and arrival joined by ", then "; `DirectionsEmptyIff`, `MultiSegmentDirections`, `TransferIffPenultimate` and `DirectionsIgnoreMiddle` state it |
| FastTravel.GenerateRouteDirections | components/FastTravel.tsx:45-119 | the text the loop builds is the directions text of the path |
| FastTravel.DirectionsEmptyIff | components/FastTravel.tsx:46 | the directions are empty exactly for the empty path |
| FastTravel.MultiSegmentDirections | components/FastTravel.tsx:85-118 | a route of two or more segments reads as its departure, then a transfer phrase when the next-to-last segment has one, then its arrival, joined by ", then " |
| FastTravel.TransferIffPenultimate | components/FastTravel.tsx:102-107 | a "Transfer at" phrase appears exactly when the next-to-last segment names a transfer |
| FastTravel.DirectionsIgnoreMiddle | components/FastTravel.tsx:115 | segments between the first and the last two do not change the text |
| DisneyScraper.TimePreferencesPartition | lib/grub-grab/disney-scraper.ts:8-13 | any time accepts every hour; morning is before 12, afternoon 12 to 16, evening 17 on, and each hour is in exactly one of the three |
| DisneyScraper.MealPreferencesPartition | lib/grub-grab/disney-scraper.ts:15-20 | any meal accepts every hour; breakfast is before 11, lunch 11 to 16, dinner 17 on, and each hour is in exactly one of the three |
| DisneyScraper.SeedHash | lib/grub-grab/disney-scraper.ts:34 | the `reduce` over the seed's characters summing their codes; `SlotsFromMod` and `DeterministicSlotsExactly` show that only its residue modulo 3 matters |
| DisneyScraper.BuildDeterministicSlots | lib/grub-grab/disney-scraper.ts:22-36 | `buildDeterministicSlots`: the base slots whose index plus the seed hash is a multiple of 3; `DeterministicSlotsExactly` names them for each residue |
| DisneyScraper.SlotsFromMod | lib/grub-grab/disney-scraper.ts:35 | which base slots are kept depends only on the seed hash modulo 3 |
| DisneyScraper.DeterministicSlotsExactly | lib/grub-grab/disney-scraper.ts:22-36 | a seed whose character-code sum is 0, 1 or 2 modulo 3 gets base slots 1, 4 and 7, or 3 and 6, or 2, 5 and 8 (counting from 1) |
| DisneyScraper.CollectDay | lib/grub-grab/disney-scraper.ts:49-58 | the inner loop appends exactly the day's candidates that pass both preferences, in order, dated and linked to the booking page |
| DisneyScraper.CheckRestaurantAvailability | lib/grub-grab/disney-scraper.ts:38-62 | the outer loop collects the slots of each day from the start to the end inclusive, day after day |
| DisneyScraper.Availability | lib/grub-grab/disney-scraper.ts:38-62 | the slots of each day from the start through the end, day after day; the lemmas below state which slots those are |
| DisneyScraper.AvailabilityWhenReversed | lib/grub-grab/disney-scraper.ts:44 | a start after the end gives no slots |
| DisneyScraper.AvailabilityFromStart | lib/grub-grab/disney-scraper.ts:44 | the start day is included and its slots come first |
| DisneyScraper.SlotsOfWanted | lib/grub-grab/disney-scraper.ts:49-58 | every slot of a day carries that day's date, the restaurant's booking page and the time of a candidate that passes both preferences |
| DisneyScraper.SlotsOfComplete | lib/grub-grab/disney-scraper.ts:49-58 | every candidate that passes both preferences gives its slot |
| DisneyScraper.AvailabilitySlotsWanted | lib/grub-grab/disney-scraper.ts:38-62 | every slot links to the booking page and has the time of a base slot that passes both preferences |
| DisneyScraper.AvailabilityComplete | lib/grub-grab/disney-scraper.ts:38-62 | every candidate of every scanned day that passes both preferences is in the result |
| DisneyScraper.AvailabilityDates | lib/grub-grab/disney-scraper.ts:44-45 | every slot is dated with one of the days scanned |
| GrogStore.VenueById | lib/grog-trot/store.ts:5 | the venue found has the asked-for id and is one of the venues; there is none exactly when no venue has that id |
| GrogStore.VenueByIdIsLast | lib/grog-trot/store.ts:5 | when several venues share an id, the map keeps the last of them |
| GrogStore.GetGrogVenueById | lib/grog-trot/store.ts:39-41 | the lookup is the map's entry, and `null` exactly when no venue has the id |
| GrogStore.HydrateStoredCrawl | lib/grog-trot/store.ts:26-37 | `hydrateStoredCrawl`: the crawl with its stops stably sorted by stop order and each given its venue or `null`; the `Hydrated` lemmas below state it |
| GrogStore.HydratedStopsAreSorted | lib/grog-trot/store.ts:29-31 | the hydrated stops are the stored stops stably sorted by stop order: same length, same stops |
| GrogStore.HydratedInOrder | lib/grog-trot/store.ts:31 | the hydrated stops are in non-decreasing stop order |
| GrogStore.HydratedVenues | lib/grog-trot/store.ts:32-35 | each stop carries the venue with its id, or `null` exactly when there is no such venue |
| GrogStore.HydratedKeepsCrawl | lib/grog-trot/store.ts:27-28 | the crawl's own fields are copied unchanged |
| GrogStore.HydratedStable | lib/grog-trot/store.ts:31 | stops with equal stop order keep their stored relative order |
| GrogStore.HydrateSortedInput | lib/grog-trot/store.ts:29-31 | stops already in order come back in the same order |
| Restaurants.SlugIndex | lib/grub-grab/restaurants.ts:11 | the index is that of the first restaurant with the slug, or the length when there is none |
| Restaurants.RestaurantBySlug | lib/grub-grab/restaurants.ts:10-12 | the restaurant found has the slug and no earlier one does; `undefined` exactly when none has it |
| Restaurants.SearchRestaurants | lib/grub-grab/restaurants.ts:14-25 | the result is no longer than the dataset |
| Restaurants.SearchExactly | lib/grub-grab/restaurants.ts:14-25 | a blank query gives the whole dataset; otherwise the result keeps dataset order and holds exactly the restaurants whose lower-cased name, location or cuisine contains the trimmed, lower-cased query |
| Restaurants.SearchIgnoresPadding | lib/grub-grab/restaurants.ts:15 | whitespace around the query does not change the result |
| Restaurants.RestaurantsByLocation | lib/grub-grab/restaurants.ts:27-29 | every restaurant returned is from the dataset and at the location |
| Restaurants.ByLocationExactly | lib/grub-grab/restaurants.ts:27-29 | the result keeps dataset order and holds every restaurant at the location |
| Restaurants.PopularRestaurants | lib/grub-grab/restaurants.ts:31-33 | at most `limit` restaurants, each popular and from the dataset |
| Restaurants.PopularPrefix | lib/grub-grab/restaurants.ts:31-33 | the result is the first `limit` popular restaurants in dataset order, all of them when there are no more than `limit` |
| Restaurants.LocationCounts | lib/grub-grab/restaurants.ts:35-49 | six entries, for the six locations in their fixed order, each with its emoji |
| Restaurants.CountCons | lib/grub-grab/restaurants.ts:48 | a location's count is the count of the rest plus one when the first restaurant is there |
| Restaurants.CountsCoverDataset | lib/grub-grab/restaurants.ts:35-49 | every restaurant is counted at exactly one location: the counts add up to the dataset size |
| Restaurants.CountIsMultiplicity | lib/grub-grab/restaurants.ts:48 | a location's count is the number of times it occurs among the restaurants' locations |
| Restaurants.LocationCountsAreMultiplicities | lib/grub-grab/restaurants.ts:45-49 | each of the six entries counts the restaurants at its location |
| CrowdsToUI.SnapshotById | lib/dashboard/crowdsToUI.ts:30 | the snapshot found has the id and is one of the input's; there is none exactly when no snapshot has the id |
| CrowdsToUI.SnapshotByIdIsLast | lib/dashboard/crowdsToUI.ts:30 | when several snapshots share an id, the map keeps the last |
| CrowdsToUI.Capitalize | lib/dashboard/crowdsToUI.ts:42 | same length; the first character is upper-cased and the rest kept |
| CrowdsToUI.CapitalizeAll | lib/dashboard/crowdsToUI.ts:41-43 | each word capitalised, in order |
| CrowdsToUI.Fallback | lib/dashboard/crowdsToUI.ts:38-55 | the placeholder keeps the park's id and is named by its title-cased id, with the same short name |
| CrowdsToUI.CrowdsToUIData | lib/dashboard/crowdsToUI.ts:25-68 | always four cards, one per park in the fixed order |
| CrowdsToUI.CrowdsToUIOrder | lib/dashboard/crowdsToUI.ts:27-33 | the cards are Magic Kingdom, EPCOT, Hollywood Studios and Animal Kingdom in that order, staggered 50 ms apart, with the time passed through |
| CrowdsToUI.IndexInOrder | lib/dashboard/crowdsToUI.ts:27 | each park has exactly one place in the fixed order |
| CrowdsToUI.CrowdsToUIOnePerPark | lib/dashboard/crowdsToUI.ts:33-62 | every park has exactly one card |
| CrowdsToUI.CardFor | lib/dashboard/crowdsToUI.ts:33-62 | one park's card: its snapshot with the UI fields, or the placeholder; `CrowdsToUICards` states it |
| CrowdsToUI.CrowdsToUICards | lib/dashboard/crowdsToUI.ts:33-61 | a park's card is its (last) snapshot when there is one, and otherwise the placeholder: low crowd, value 1, "Unknown", "No data available", gray and closed |
| CrowdsToUI.TitleCase | lib/dashboard/crowdsToUI.ts:40-43 | a park id split at hyphens, each word capitalised, joined by spaces; `TitleCaseWord` and `TitleCaseWords` state it |
| CrowdsToUI.TitleCaseWord | lib/dashboard/crowdsToUI.ts:40-43 | an id without hyphens title-cases to its capitalised self |
| CrowdsToUI.TitleCaseWords | lib/dashboard/crowdsToUI.ts:40-43 | a hyphenated id of two words title-cases to both capitalised, joined by a space |
| CrowdsToUI.FallbackNames | lib/dashboard/crowdsToUI.ts:27-47 | the placeholders are named "Magic Kingdom", "Epcot", "Hollywood Studios" and "Animal Kingdom" |
| CrowdsToUI.CrowdsToUIKeepsCompleteInput | lib/dashboard/crowdsToUI.ts:58-61 | four snapshots already in park order come back unchanged |
| CrowdsToUI.CrowdsToUILastWins | lib/dashboard/crowdsToUI.ts:30 | inputs with the same last snapshot per park give the same cards |
| CrowdsToUI.GetCrowdLevelChange | lib/dashboard/crowdsToUI.ts:74-93 | `getCrowdLevelChange` on the levels' order low < moderate < high; `LevelChangeCases` and `LevelChangeReverses` state its cases |
| CrowdsToUI.LevelChangeCases | lib/dashboard/crowdsToUI.ts:74-93 | no previous level counts as changed with no direction; otherwise it changed exactly when the level differs, and goes up or down exactly as the level value rises or falls |
| CrowdsToUI.LevelChangeReverses | lib/dashboard/crowdsToUI.ts:83-92 | swapping the two levels keeps whether it changed and swaps up and down |
| CrowdsToUI.GetCrowdMeterClasses | lib/dashboard/crowdsToUI.ts:98-113 | the classes always start with the base classes |
| CrowdsToUI.MeterClassesForChange | lib/dashboard/crowdsToUI.ts:98-113 | an unchanged level gives the base classes, a first level the base classes and a space, a rise "scale-110" and a fall "scale-95" |
| CrowdsToUI.MeterClassesBaseIff | lib/dashboard/crowdsToUI.ts:104-112 | the classes are exactly the base classes iff there was no change |
| NewsletterToUI.NewsletterToUIData | lib/dashboard/newsletterToUI.ts:36-58 | `newsletterToUI`; the five lemmas below state its must-see, section-prefix, visibility, short-list and idempotence properties |
| NewsletterToUI.MustSeeOnlyWhenUrgent | lib/dashboard/newsletterToUI.ts:39 | the must-see item is kept exactly when it is urgent, unchanged, and its flag says whether it is shown |
| NewsletterToUI.SectionsArePrefixes | lib/dashboard/newsletterToUI.ts:42-51 | the hot tiles, top stories and resort blurbs are their first 3, 5 and 2 entries; parks pass through |
| NewsletterToUI.VisibilityFlags | lib/dashboard/newsletterToUI.ts:55-56 | top stories and the resort spotlight are shown exactly when there are any, before and after the cut |
| NewsletterToUI.ShortSectionsKept | lib/dashboard/newsletterToUI.ts:42-51 | sections already within their limits come back unchanged |
| NewsletterToUI.NewsletterToUIIdempotent | lib/dashboard/newsletterToUI.ts:36-58 | mapping the result again gives the same result |
| NewsletterToUI.DidSectionChange | lib/dashboard/newsletterToUI.ts:64-76 | `didSectionChange` with structural equality for equal JSON; `SectionChangeCases` states it section by section |
| NewsletterToUI.SectionChangeCases | lib/dashboard/newsletterToUI.ts:64-76 | with no previous data every section changed; otherwise a section changed exactly when its value differs |
| NewsletterToUI.NoChangeAgainstItself | lib/dashboard/newsletterToUI.ts:69-75 | a section never changed against the same data |
| NewsletterToUI.HotTilesChangeIsPrefixChange | lib/dashboard/newsletterToUI.ts:42 | the hot tiles changed exactly when their first three differ |
| NewsletterToUI.NonUrgentMustSeeIsNoChange | lib/dashboard/newsletterToUI.ts:39 | swapping one non-urgent must-see item for another is no change |
| BeaconUtils.AlphabetShape | lib/goofy-beacon/utils.ts:1 | the alphabet is 32 distinct characters: exactly the upper-case letters and digits other than I, O, 0 and 1 |
| BeaconUtils.AlphabetHas | lib/goofy-beacon/utils.ts:1 | every unambiguous upper-case letter or digit is in the alphabet |
| BeaconUtils.AlphabetAt | lib/goofy-beacon/utils.ts:1 | the alphabet's k-th character is the k-th unambiguous letter, then digit |
| BeaconUtils.InviteCode | lib/goofy-beacon/utils.ts:3-10 | one character per random byte |
| BeaconUtils.GenerateInviteCode | lib/goofy-beacon/utils.ts:3-10 | the loop builds the code of the given length, character `bytes[i] % 32` of the alphabet at place i |
| BeaconUtils.InviteCodeSymbols | lib/goofy-beacon/utils.ts:7 | every character of a code is an unambiguous upper-case letter or a digit from 2 to 9 |
| BeaconUtils.SymbolIndex | lib/goofy-beacon/utils.ts:1 | each alphabet character has a position in it |
| BeaconUtils.InviteCodeDecodes | lib/goofy-beacon/utils.ts:7 | each character of a code gives back its byte modulo 32, so no information beyond that is lost |
| BeaconUtils.ClampExpiryHours | lib/goofy-beacon/utils.ts:12-15 | the hours are always between 1 and 168 |
| BeaconUtils.ClampExpiryCases | lib/goofy-beacon/utils.ts:12-15 | missing, zero or NaN gives 48; any other finite number its floor clamped to 1..168, so a number from 1 up to 169 (exclusive) its floor; positive infinity 168 and negative infinity 1 |
| BeaconUtils.ClampExpiryIdempotent | lib/goofy-beacon/utils.ts:12-15 | clamping a clamped value changes nothing |
| TelegramMessage.BuildAvailabilityMessage | lib/grub-grab/telegram-service.ts:29-41 | `buildAvailabilityMessage`: the message lines joined by line breaks; `MessageLayout` and `MessageSplitsIntoLines` state its layout |
| TelegramMessage.MessageLines | lib/grub-grab/telegram-service.ts:30-40 | the message's lines: the header, restaurant and party lines, a blank, the first five slot lines, a blank and the link; `MessageLayout` states it |
| TelegramMessage.SlotLines | lib/grub-grab/telegram-service.ts:31-33 | one bullet line per slot, `• <date> at <time>`, in order |
| TelegramMessage.MessageLayout | lib/grub-grab/telegram-service.ts:29-41 | the header, the restaurant line and the party line, a blank line, one line for each of the first five slots in order, a blank line, and the booking link last |
| TelegramMessage.MessageUsesFirstFive | lib/grub-grab/telegram-service.ts:30 | slots after the fifth never change the message |
| TelegramMessage.MessageSplitsIntoLines | lib/grub-grab/telegram-service.ts:41 | when no quoted field has a line break, splitting the message at line breaks gives back its lines |
| TelegramMessage.PartyLineSingle | lib/grub-grab/telegram-service.ts:37 | the party line has no line break |
| TelegramMessage.SlotLineSingle | lib/grub-grab/telegram-service.ts:33 | a slot line has no line break when the date and time have none |
| LinkCommand.ExtractInviteCode | app/api/telegram/link/route.ts:5-9 | a code found is non-empty and the message holds at least six more characters (`/link` and a space); `ExtractNoneIff`, `ExtractSound` and `ExtractComplete` tie it to the expression |
| LinkCommand.CharClasses | app/api/telegram/link/route.ts:7 | whitespace, `@`, word characters and code characters do not overlap where the expression needs them apart |
| LinkCommand.AfterNameOf | app/api/telegram/link/route.ts:7 | a well-formed `@botname` followed by whitespace is skipped up to the whitespace |
| LinkCommand.CodeAfterGapOf | app/api/telegram/link/route.ts:7 | whitespace then a code gives the code upper-cased |
| LinkCommand.ParseComplete | app/api/telegram/link/route.ts:7-8 | every way the trimmed text matches the expression is found, with the code upper-cased |
| LinkCommand.ExtractComplete | app/api/telegram/link/route.ts:5-9 | a message whose trimmed text matches gives its code upper-cased |
| LinkCommand.AfterNameParts | app/api/telegram/link/route.ts:7 | what the bot-name step skips is nothing or `@` and word characters |
| LinkCommand.CodeAfterGapParts | app/api/telegram/link/route.ts:7 | what the code step skips is whitespace, and what it returns is a code upper-cased |
| LinkCommand.ParseSound | app/api/telegram/link/route.ts:7-8 | every code found comes from a match of the expression |
| LinkCommand.ExtractSound | app/api/telegram/link/route.ts:5-9 | every code extracted comes from a match of the trimmed text |
| LinkCommand.ExtractNoneIff | app/api/telegram/link/route.ts:5-9 | `null` exactly when the trimmed text does not match |
| LinkCommand.ExtractedCodeChars | app/api/telegram/link/route.ts:8 | a code is non-empty and only upper-case letters, digits and hyphens |
| LinkCommand.ExtractIgnoresPadding | app/api/telegram/link/route.ts:6 | whitespace around the message does not change the result |
| CrowdsLatest.ParkKey | app/api/crowds/latest/route.ts:10-11 | the key is the park or else the park code, non-empty; a row is skipped exactly when both are missing or empty |
| CrowdsLatest.Normalise | app/api/crowds/latest/route.ts:12-19 | the entry is filed under the row's park |
| CrowdsLatest.Shaped | app/api/crowds/latest/route.ts:5-27 | the shape the rows define: every entry is filed under its own non-empty park |
| CrowdsLatest.ToFixtureShape | app/api/crowds/latest/route.ts:5-27 | the loop builds the shape the rows define, starting from no parks and the current time |
| CrowdsLatest.NormaliseDefaults | app/api/crowds/latest/route.ts:14-18 | a present score, label, wait, quality or time is taken, the alternate name next, and otherwise 5, "Moderate", 0, "good" and the time so far |
| CrowdsLatest.ShapedKeys | app/api/crowds/latest/route.ts:9-21 | a park has an entry exactly when some row names it |
| CrowdsLatest.ShapedKeepsEntry | app/api/crowds/latest/route.ts:9-21 | rows naming other parks, or none, leave a park's entry alone |
| CrowdsLatest.ShapedLastWins | app/api/crowds/latest/route.ts:12-19 | a park's entry is its last row's, normalised with the time the earlier rows left |
| CrowdsLatest.ShapedSkips | app/api/crowds/latest/route.ts:11 | rows without a park change nothing |
| CrowdsLatest.ShapedGeneratedAt | app/api/crowds/latest/route.ts:7-24 | the top-level time is the current time when no row is accepted, and otherwise the time of the last accepted row's entry |
| CrowdsLatest.LatestCrowds | app/api/crowds/latest/route.ts:48-58 | no rows give the fixture; otherwise the result is the shaped rows when all four parks are present, and the fixture when not |
| CrowdsLatest.LatestCrowdsChoice | app/api/crowds/latest/route.ts:48-58 | the rows are served exactly when each of MK, EPCOT, DHS and AK has a row, and the fixture otherwise |
| VirtualQueue.QueueAlert | components/VirtualQueueReminders.tsx:55-84 | no alert for a drop time without a colon; an alert is the text for some offset within 30 minutes of the drop |
| VirtualQueue.ReadDropTime | components/VirtualQueueReminders.tsx:57-68 | the drop hour read is the parsed hour converted to the 24-hour clock, and the minutes the parsed minutes |
| VirtualQueue.ClassifyQueue | components/VirtualQueueReminders.tsx:55-84 | one queue's step stores the queue's alert text, or nothing outside the window |
| VirtualQueue.CheckAlerts | components/VirtualQueueReminders.tsx:48-87 | the loop over the queues builds the alerts map the queues define |
| VirtualQueue.ParseDropTime | components/VirtualQueueReminders.tsx:57-59 | the two `split`s and `parseInt`s of a drop time; `SplitDropTime` and `ParseWellFormed` state what a well-formed time gives |
| VirtualQueue.To24Hour | components/VirtualQueueReminders.tsx:62-66 | the 12-hour to 24-hour step, `NaN` kept; `To24HourCases` and `To24HourIsClock` state it |
| VirtualQueue.AlertText | components/VirtualQueueReminders.tsx:75-83 | the text for the minutes until the drop; `AlertTextWindow` states when there is one and which |
| VirtualQueue.To24HourCases | components/VirtualQueueReminders.tsx:62-66 | PM adds 12 except at 12; 12 AM becomes 0; any other hour is kept |
| VirtualQueue.To24HourIsClock | components/VirtualQueueReminders.tsx:62-66 | a 12-hour time converts to an hour from 0 to 23, before noon exactly for AM, and different 12-hour times give different hours |
| VirtualQueue.AlertTextWindow | components/VirtualQueueReminders.tsx:75-83 | there is an alert exactly within 30 minutes either side of the drop: "DROP IN n MIN" before it, "DROP NOW!" at it, "DROPPED" after |
| VirtualQueue.SplitDropTime | components/VirtualQueueReminders.tsx:57-58 | splitting at the colon and then at the space gives the hour, minutes and period |
| VirtualQueue.ParseWellFormed | components/VirtualQueueReminders.tsx:57-68 | a time written as digits, a colon, digits, a space and a period parses to those numbers and that period |
| VirtualQueue.DigitValues | components/VirtualQueueReminders.tsx:59 | "7", "1" and "00" read as 7, 1 and 0 |
| VirtualQueue.SevenAM | components/VirtualQueueReminders.tsx:27 | "7:00 AM" parses to 7, 0 and AM |
| VirtualQueue.OnePM | components/VirtualQueueReminders.tsx:33 | "1:00 PM" parses to 1, 0 and PM |
| VirtualQueue.ListedDropTimes | components/VirtualQueueReminders.tsx:22-35 | both listed queues have well-formed drop times, 7:00 AM and 1:00 PM |
| VirtualQueue.AlertsKeys | components/VirtualQueueReminders.tsx:55-84 | a queue id has an alert exactly when some queue with that id is inside its window |
| VirtualQueue.AlertsDistinct | components/VirtualQueueReminders.tsx:77-81 | with distinct ids, each queue inside its window has its own alert text |
| VirtualQueue.AlertsOf | components/VirtualQueueReminders.tsx:48-87 | every stored text is the alert of a queue with that id |
| VirtualQueue.AlertsValue | components/VirtualQueueReminders.tsx:77-81 | under any classification, a stored text is the classification of some queue with that id |
| VirtualQueue.AlertsOfKeys | components/VirtualQueueReminders.tsx:55-84 | an id is in the alerts map exactly when a queue with that id is within 30 minutes of its drop |
| VirtualQueue.AlertsOfDistinct | components/VirtualQueueReminders.tsx:75-83 | with distinct ids, each queue within the window maps to its own alert text |
| VirtualQueue.FifteenText | components/VirtualQueueReminders.tsx:77 | 15 minutes before gives "DROP IN 15 MIN" |
| VirtualQueue.QueueAlertOfParts | components/VirtualQueueReminders.tsx:57-83 | a queue's alert is the text for the minutes between now and its converted drop time |
| VirtualQueue.ListedQueueAlerts | components/VirtualQueueReminders.tsx:22-84 | at 6:45 TRON says "DROP IN 15 MIN" and Guardians has no alert; at 13:10 Guardians says "DROPPED" |
| VirtualQueue.RelevantQueues | components/VirtualQueueReminders.tsx:96-98 | no more queues than given, each a given queue, and at the chosen park when one is chosen |
| VirtualQueue.RelevantQueuesFilter | components/VirtualQueueReminders.tsx:96-98 | with a park given, exactly the queues at that park are shown; with none, or an empty one, all are |
| Strings.Trim | lib/grub-grab/restaurants.ts:15 | `trim()`: the result is a slice `s[i..j]` of the input with only whitespace before `i` and after `j`, and neither end of a non-empty result is whitespace |
| Strings.TrimPadding | lib/grub-grab/restaurants.ts:15 | whitespace added on either side does not change the trimmed text |
| Strings.TrimOfTrimmed | app/api/telegram/link/route.ts:6 | trimming is idempotent |
| Strings.ToLower | lib/grub-grab/restaurants.ts:15 | `toLowerCase()` keeps the length and maps every character |
| Strings.Split | lib/grub-grab/telegram-service.ts:41 | `split` gives at least one part and no part holds the separator |
| Strings.SplitJoin | lib/grub-grab/telegram-service.ts:41 | splitting lines joined at a separator none of them holds gives the lines back |
| Strings.JoinSplit | lib/dashboard/crowdsToUI.ts:41-43 | joining the parts of a split at the same separator gives the text back |
| Strings.ParseIntDigits | components/VirtualQueueReminders.tsx:59 | `parseInt` of digits followed by a non-digit is the value of the digits |
| Strings.DigitsOfNat | lib/grub-grab/telegram-service.ts:36 | the decimal text of a number reads back as that number |
| Seqs.SortBy | lib/grog-trot/store.ts:29-31 | sorting keeps the length and the multiset of elements |
| Seqs.SortByOrdered | lib/grog-trot/store.ts:31 | the result is in non-decreasing key order |
| Seqs.SortByStable | lib/grog-trot/store.ts:31 | elements with equal keys keep their relative order, as `Array.prototype.sort` guarantees |
| Seqs.SortBySorted | lib/grog-trot/store.ts:29-31 | an input already in key order is unchanged |
| Seqs.FilterSubsequence | lib/grub-grab/restaurants.ts:28 | `filter` keeps input order |

## Left out

- Rendering, React state, effects and timers are not modelled: `useState`, `useEffect`, `setInterval`, JSX and class toggling. The virtual-queue check is modelled for one instant, and `isAnimating` is never set by `crowdsToUI`.
- The clock, `crypto.randomUUID` and `crypto.getRandomValues` are parameters: `now`, `nowIso`, the new alert id and the random bytes.
- Date parsing and `toISOString` are parameters. A date string becomes milliseconds through a supplied function, and a scanned day becomes its `YYYY-MM-DD` text through another. Time zones and daylight saving are not modelled.
- The JSON data the modules import are parameters: restaurants, venues, transport edges, fast-travel routes and the crowds fixture. So are the database rows, including the `.limit(16)` on the crowds query.
- Database, network and environment configuration are not modelled, nor are thrown fetch errors. In the crowds endpoint, a missing configuration, a query error and an exception all serve the fixture; only "no rows" is modelled.
- JavaScript numbers are modelled as unbounded integers, or as reals where a fraction occurs (the dashboard score's recency term). `NaN` and the infinities appear only where the source tests for them (`clampExpiryHours`).
- The bar crawl's `estimatedHours` is not modelled, because it is rounded floating point. Venue latitude and longitude are not used by the modelled code.
- `Number(...)` in the crowds normaliser is not modelled: scores and waits are taken to be numbers already.
- `parseInt` is modelled in base ten only. Radix prefixes such as `0x` are not modelled, and `NaN` is `None`.
- Case mapping covers ASCII letters only. The slugs, ids and dates the code compares are ASCII, but `searchRestaurants` lower-cases the user's query, and there non-ASCII letters are not folded: JavaScript turns "CAFÉ" into "café", the model into "cafÉ".
- A Dafny `char` is a Unicode scalar value, not a UTF-16 code unit, so `length` and `charCodeAt` differ from JavaScript for characters outside the Basic Multilingual Plane. No modelled computation depends on this: the seed hash reads an ASCII slug, a date and a number.
- `JSON.stringify(prev) !== JSON.stringify(next)` in `didSectionChange` is modelled as structural inequality. Property order inside objects is not modelled.
- Object and `Map` key order is not modelled. `Map` and record lookups become Dafny maps, or searches that return the last entry, as a `Map` built from pairs would.
- JavaScript's in-place sorts are modelled by a stable sort on a value: `Array.prototype.sort` is stable, and the arrays sorted are fresh copies or local arrays. Aliasing of object references is not modelled.
- `hydrateStoredCrawl` sorts a copy, so the caller's array is left alone. With Dafny values that holds by construction, and the model does not state it separately.
- The alert store is one `AlertStore` object in place of the module-level global that `getStore` creates lazily.
- AlertManager.AlertStore.CreateAlert: requires the new id to be unused, which `crypto.randomUUID` makes overwhelmingly likely but cannot guarantee.
- FastTravel.FindShortestPath: requires the target to be a route node whenever it differs from the start. For any other target, the source reads an `undefined` predecessor and throws a `TypeError`.
- FastTravel.FindShortestPath: edges that touch a place that is not a route node are never used, as in the source (`newDist < undefined` is false). Times are whole non-negative minutes.
- VirtualQueue.CheckAlerts: requires every drop time to contain a colon. For one without, the source reads `undefined.split` and throws; `QueueAlert` returns no alert there instead.
- Time until a drop has no midnight wrap, as in the source.
- DashboardBuilder.HomeHotTiles, DashboardBuilder.HomeSection and DashboardBuilder.BuildDashboardRenderModel model the corrected program: last cycle's hot tiles are matched by their item ids with the `hot-` prefix removed (`HotTileItemIds`). As written, the code passes the `hot-` ids (`HotTileIdsAsWritten`), so no tile is carried unless a candidate's own id starts with `hot-`. `HotTileFlipsAsWritten` shows the difference; see Findings.
- BeaconUtils.ClampExpiryHours: the input is a number or missing, as the TypeScript signature declares. Untyped JSON is not modelled: the group-creation route passes `body.expiresInHours` through unchecked, and for a string such as "abc" the source returns `NaN` (a numeric string such as "24" is floored like the number).
- The restaurant emoji are the intended characters 🏰 🌍 🎬 🦁 🛍️ 🏨 rather than a mis-decoded rendering of them.
- `hooks/`, the page components and the other route handlers are not part of this model. So are the message sender in `telegram-service.ts` and `monitoring.ts`.

## Findings

| source | as written | input that shows it | evidently intended | confidence | as-written member | corrected member |
|---|---|---|---|---|---|---|
| lib/dashboard/buildDashboardRenderModel.js:155-156 | last cycle's home hot tiles are passed to `stickyList` as previous items, but their ids are `hot-<id>` while the candidates' ids are the bare item ids, so no tile is ever carried unless a candidate's own id starts with `hot-` | last cycle showed event item `a` (tile id `hot-a`); this cycle `b` scores higher than `a` but by less than 2 | the tile stays `a`, as the hysteresis does for every other section | not executed | DashboardBuilder.HotTileFlipsAsWritten | DashboardBuilder.HotTileKeptCorrected |
