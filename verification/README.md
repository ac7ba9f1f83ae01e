# Verified model of the vote counting, questionnaire, submission and import cores

This project models four cores of the voting backend in Dafny and proves what they are for.

- **Tally and timeline** (`Whitelist`, `RegistryFacts`, `Selection`, `Tally`, `TallyFacts`, `TallyMeaning`, `Ranking`, `Trend`,
  `TrendClock`, `Conservation`, `QueryOrders`, `BallotGate`, `FavouriteGap`, `Covote`). An append-only table of ballots is reduced
  to one final ballot per voter and, separately, to the whole history. The final ballots are counted through a registry that
  knows two tokens per candidate. The history is replayed as set differences into hour buckets. The main results: every prefix
  sum of a key's timeline is the number of voters whose ballot in force at that hour names the key; the whole timeline adds up
  to the published vote count; and this holds for whatever was voted, and in whatever orders the two queries return the table,
  exactly when the newest rows of every voter are one row or all voided.
- **Questionnaire** (`Structure`, `Validation`, `ValidOnTree`, `Reachability`, `Completion`, `CompletionFacts`, `GateOnTree`,
  `LongChain`, `CompletionRates`, `AnswerStore`, `Nesting`, `Assembler`). The structure index, the row validator, the bounded
  reveal loop, the completion rule, the published completion figures, the append-only answer batches, and the assembler and
  importer of structure trees. The main results: the validator accepts exactly the submissions that fit the tree, and the gate
  passes exactly when every required questionnaire is completed on the tree, both stated on the tree and the rows alone; the
  reveal loop computes reachability in at most eight steps and is a fixpoint exactly when nothing is farther away; the gate is
  then too lenient exactly when an unanswered group lies farther away, with an accepted submission to a ten-group questionnaire
  where one does; completion is local to a questionnaire; the voting gate and the published figures agree; trees and rows
  convert into each other without loss.
- **Submission** (`SubmitTable`, `SubmitLock`). Attempt numbers and the preserved first fill duration over any run of
  submissions, and the per-user lock as an interleaved transition system: mutual exclusion and gapless attempt numbers for
  every schedule in which a live holder finishes before its key expires, and a schedule that breaks both otherwise.
- **Importers** (`ImportPlan`, `ImportRun`, `ImportFacts`, `ImportKeeps`, `LegacyPlan`, `LegacyPlanFacts`, `LegacyImport`,
  `LegacyImportFacts`, `LegacyAccounts`). Planning and executing a voteable import: which batches are rejected, stated on the
  tables and not on the lookups; an old id is replaced only by a row that names its entity; the second import of a conflict-free
  batch is silent exactly when no two rows disagree about one existing entity, and then changes nothing. The legacy voter
  import: every record has exactly one fate, the plan does not depend on the order of the dump, every created account is one
  survivor's, with his identities and one primary mapping, the import gets through exactly when the survivors who get an account
  bring no stored QQ or wiki account and share no phone, QQ or wiki account, and importing again repeats the verdict and adds
  nothing.

`Prelude` holds shared vocabulary: options, counting, grouping, and the stable sort that stands for Python's `sorted`.

Times are integers in microseconds. Clocks, the database, Redis and random ids enter as parameters or as state: a query without
a total order may return any admissible row, a Python set or dictionary of rows is iterated in an arbitrary order, and a random
id is a fresh one. Where the code keeps state (the ballot table, the answer store, the import tables, the legacy accounts) the
model is a class whose methods update its fields; loops stay loops with invariants and are proved against specification functions
or predicates; the specifications carry the lemmas.

Four findings where the code does less than its documentation says or its purpose asks for:

- `src/apps/result/trend.py:9` promises that a key's deltas sum to its final count. The count and the history are two queries
  without an order, and rows of one voter may share `(created_at, attempt)`. `QueryOrders.ConservedIffDecided` gives the exact
  condition over both orders: the newest rows of every voter are one row, or all voided. `QueryOrders.VoidedTieIsSeen` is an input
  with a voided and a valid row; within one and the same order the weaker condition of `Conservation.ConservedIffNoLiveTie` is
  enough. For favourites the sum can exceed the count although the gate accepts the ballot: one candidate named by id and, as the
  favourite, by old id (`FavouriteGap.AcceptedFavouriteLost`, `FavouriteGap.LostIffRepeated`, `FavouriteGap.FavouritesExceed`).
- `src/apps/questionnaire/completion.py:13` promises a fixpoint, the loop stops after eight rounds. `Reachability.ClosedIffShort`
  gives the exact condition for the shown groups, `CompletionFacts.BoundAgreesIff` and `CompletionFacts.GateAgreesIff` the one for
  completion and the gate, and `LongChain.NinthRevealIsMissed` an accepted input where an unanswered group does not block completion.
- The preview of a voteable import reports no change for a row that only links an entity without work to a work the same import
  creates. `ImportFacts.PreviewMisses` gives the exact condition and `ImportFacts.PreviewMissesNewWork` an input.
- A batch of the legacy import looks up stored identities once and not those it creates itself, so two survivors with different
  addresses and one phone stop the import at that batch, in every attempt, while in different batches both get through.
  `LegacyImportFacts.GetsThroughIff` gives the exact condition over the survivors, the batch size and the tables, and `LegacyImportFacts.SamePhoneOneBatch` an input.

## Model

| member | source | states |
|---|---|---|
| `Trend.NetDeltaTrends` | src/apps/result/trend.py:21-89 | for every key and every hour, the returned buckets up to that hour sum to the number of voters whose greatest ballot by (time, attempt) on record then names the key, likewise for favourites; the lists are sparse, ascending and inside the window; a key is present iff some ballot names it |
| `Trend.ReplayVoter` | src/apps/result/trend.py:51-75 | replaying one voter's ordered ballots adds to every prefix sum exactly 1 if the last ballot on record names the key, else 0 |
| `Trend.ReplayCount` | src/apps/result/trend.py:56-74 | one set difference changes a key's prefix sum by the change of the voter's ballot in force |
| `Trend.SortFindsInForce` | src/apps/result/trend.py:52 | the last ballot on record of the sorted list is the greatest one on record of the unsorted history |
| `Trend.BucketIsClock` | src/apps/result/trend.py:56-59 | the clamped truncating bucket is at most h iff the ballot is on record at the end of hour h |
| `Trend.BucketMonotone` | src/apps/result/trend.py:56-59 | later ballots never land in earlier buckets |
| `Trend.EmitPoints` | src/apps/result/trend.py:80-88 | dropping zero buckets and sorting keeps every prefix sum |
| `Trend.EmitAll` | src/apps/result/trend.py:77-89 | every key of either counter is emitted with both its sparse lists |
| `Trend.StandingBounded` | src/apps/result/trend.py:9-11 | a standing is never above the number of voters and is 0 before the window |
| `Trend.TimelineUnique` | src/apps/result/trend.py:77-89 | a sparse list is determined by its prefix sums, so the contract of the replay fixes its result |
| `TrendClock.BucketHour` | src/apps/result/trend.py:56-59 | inside the window a ballot lands in bucket b iff it was cast from b full hours of 3,600,000,000 microseconds after the start until before the next |
| `TrendClock.BucketOutside` | src/apps/result/trend.py:56-59 | earlier ballots land in hour 0, later ones in the last hour of the window |
| `TrendClock.OnRecordHour` | src/apps/result/trend.py:56-59 | on record at the end of hour h is what was cast before h + 1 full hours, and everything in the last hour |
| `TrendClock.InForceIsLatest` | src/apps/result/trend.py:52 | the ballot in force is on record, and none of the voter's on record has a later time, or the same time and a greater attempt |
| `TrendClock.FirstMentions` | src/apps/result/trend.py:62-66 | a ballot is a favourite for the keys of its flagged items only |
| `TrendClock.OneBallotOnePoint` | src/apps/result/trend.py:56-59 | the timeline of a single ballot is one point: one vote in the hour the clock shows |
| `TrendClock.PointsInWindow` | src/apps/result/trend.py:77-89 | no point of a timeline lies outside the window or is empty |
| `Whitelist.Build` | src/apps/result/whitelist.py:44-51 | the registry is built iff no token occurs twice among ids and non-empty old ids, otherwise a repeated token is reported; then every token leads to its entry and to nothing else |
| `Whitelist.Registry.CanonicalIdempotent` | src/apps/result/whitelist.py:67-77 | a canonical token is its own canonical token, keeps its system id, and is neither empty nor "none" |
| `Whitelist.Registry.CanonicalIsIdentity` | src/apps/result/whitelist.py:67-69 | two known tokens are merged iff they belong to one entry |
| `RegistryFacts.DistinctIffNoCollision` | src/apps/result/whitelist.py:44-51 | no token repeats iff no two entries share an id or a non-empty old id, and no old id is the numeral of an id |
| `RegistryFacts.KnownTokens` | src/apps/result/whitelist.py:58-77 | a token is known iff it is an entry's id or old id, and then leads to that entry; an unknown one ranks at 1,000,000,000 |
| `RegistryFacts.StrIsNumeral` | src/apps/result/whitelist.py:48 | the token of an id is its decimal numeral |
| `Selection.LatestPerVote` | src/apps/result/compute_dao.py:41-57 | one ballot per voter whose first newest row is not invalidated: exactly that row's normalised payload |
| `Selection.SortFindsNewest` | src/apps/result/compute_dao.py:46-52 | the first row of a voter after the reversed stable sort is the first of his greatest rows |
| `Selection.HistoryPerVote` | src/apps/result/compute_dao.py:60-83 | all rows of exactly the voters the latest selection keeps, in table order per voter |
| `Selection.LatestMeans` | src/apps/result/compute_dao.py:41-57 | a selected ballot is that of a valid row none of the voter's rows is later than, by time and then attempt, a missing attempt being 0 |
| `Selection.SnapshotKeeps` | src/apps/result/compute_dao.py:77-82 | a row of the history keeps voter, time, attempt (0 if missing) and entries |
| `Tally.CountBallots` | src/apps/result/compute.py:169-195 | all counters (votes, favourites, segments, active members, dropped classes) count the events of the ballots, each key once per ballot by its first entry |
| `Tally.CountBallot` | src/apps/result/compute.py:359-400 | one ballot moves every counter by its own events and dropped tokens |
| `Tally.CanonicalMembers` | src/apps/result/compute.py:366-379 | a combination is keyed iff all members are known, otherwise the first unknown member is reported |
| `Tally.SortedTupleIsMultiset` | src/apps/result/compute.py:380 | two sorted member tuples are equal iff the members are equal as multisets |
| `TallyFacts.TallyCountsBallots` | src/apps/result/compute.py:187-195 | the vote count is the number of ballots naming the key, the favourite count those whose first entry marks it, the segment count those of the segment's voters |
| `TallyFacts.SharesAreFractions` | src/apps/result/compute.py:100-108 | segment counts stay below the segment total and the vote count, favourites below votes, so every unrounded share lies in [0, 1] |
| `TallyFacts.BreakdownsAddUp` | src/apps/result/compute.py:395-396 | the segment counts and the active counts of a key each add up to its vote count |
| `TallyFacts.ItemsConserved` | src/apps/result/compute.py:176-192 | entries seen = entries counted + entries dropped over the three classes + repeats within a ballot |
| `TallyFacts.TallyIgnoresRepresentation` | src/apps/result/compute.py:169-195 | replacing entries by indistinguishable ones and shuffling the ballots leaves every counter unchanged |
| `TallyFacts.TokenSwapSameVote` | src/apps/result/compute.py:177-178 | two known tokens make the same vote iff they belong to one entry and agree on the mark |
| `TallyFacts.CombinationKey` | src/apps/result/compute.py:366-380 | two fully known combinations share a key iff their members lead to the same registry entries with the same multiplicities |
| `TallyMeaning.NormalizeOne` | src/apps/result/compute_dao.py:22-39 | a bare id is an unmarked entry for that id, an object is itself, anything else is dropped |
| `TallyMeaning.BareBallotVotes` | src/apps/result/compute_dao.py:22-39 | a ballot of bare ids votes for the entries with those ids and has no favourite |
| `TallyMeaning.CharacterKeyMeans` | src/apps/result/compute.py:176-183 | an entry names the candidate whose id or old id is its token; otherwise the token is what is reported as dropped |
| `TallyMeaning.MembersMean` | src/apps/result/compute.py:366-371 | a combination has two members, and a third one iff its field is set at all |
| `TallyMeaning.ActiveMeans` | src/apps/result/compute.py:395-398 | the active bucket is the active member's candidate, or "none" if nobody is named or known |
| `TallyMeaning.ActiveCountsBallots` | src/apps/result/compute.py:381-398 | an active counter is the number of ballots whose first entry for the combination names that member |
| `TallyMeaning.DropClasses` | src/apps/result/compute.py:33-50 | eight lower-case hex digits are an old id, other digits an unknown id, the rest malformed |
| `TallyMeaning.DropCountsEntries` | src/apps/result/compute.py:176-183 | a drop counter is the number of entries of all ballots that nobody knows and that look like its class |
| `TallyMeaning.SegmentMeans` | src/apps/result/compute.py:187-192 | a voter is counted in the segment he is mapped to, and in "unknown" without one |
| `Ranking.Rank` | src/apps/result/compute.py:213-226 | the lines list exactly the eligible keys; of two lines the first has more votes, or as many and more favourites, or as many of both and no greater system id; every display rank is 1 + the number of listed keys with strictly more votes |
| `Ranking.Order` | src/apps/result/compute.py:420-433 | the eligible keys, each once, in sort-key order |
| `Ranking.DisplayRank` | src/apps/result/compute.py:438-443 | the position where a vote count is first met is the number of keys with more votes |
| `Ranking.RankingUnique` | src/apps/result/compute.py:213-226 | with pairwise distinct system ids the counters determine the whole ranking |
| `Ranking.RankingIgnoresRepresentation` | src/apps/result/compute.py:169-226 | with pairwise distinct system ids the published ranking depends neither on the tokens used nor on the order of the ballots |
| `Conservation.Conservation` | src/apps/result/trend.py:9-11 | if the newest rows of every voter agree or are all voided, the final standing of the timeline is the ballot count, for any two query orders; for favourites it is at least that, and equal iff no counted ballot marks the key only on a repeat |
| `Conservation.SelectionsAgree` | src/apps/result/compute_dao.py:41-83 | without ties both selections and the replay end on the same row, whatever order the queries return |
| `Conservation.OrdersAgree` | src/apps/result/compute_dao.py:41-83 | if a voter's newest rows are one row or all voided, two query orders agree on whether he counts and on the row that counts |
| `Conservation.ConservedIffNoLiveTie` | src/apps/result/compute_dao.py:46-58 | if both selections read one and the same row order, the two counts agree for every payload iff no counted voter has two newest rows |
| `Conservation.TieBreaks` | src/apps/result/compute_dao.py:75-83 | a tie of a counted voter admits payloads for which the counts differ, within one row order |
| `Conservation.ReplayEndsThere` | src/apps/result/trend.py:51-75 | the replay of a kept voter ends on the last of his newest rows |
| `Conservation.Publish` | src/apps/result/compute.py:169-226 | from stored rows, read in two orders, to lines whose timelines add up to their published counts when the newest rows of every voter agree or are all voided |
| `QueryOrders.ConservedIffDecided` | src/apps/result/compute_dao.py:41-83 | over every payload assignment and every two query orders the vote count and the final standing of a key agree iff the newest rows of every voter are one row or all voided |
| `QueryOrders.AcrossIsPublished` | src/apps/result/trend.py:9-11 | agreement across two orders is exactly that the timeline of the one sums to the vote count of the other |
| `QueryOrders.ValidTieBreaks` | src/apps/result/compute_dao.py:46-58 | a second newest row beside a valid first one admits an order and payloads for which the counts differ |
| `QueryOrders.VoidedTieBreaks` | src/apps/result/compute_dao.py:53-58 | a valid newest row behind a voided first one admits an order and payloads for which the counts differ |
| `QueryOrders.VoidedTieIsSeen` | src/apps/result/compute_dao.py:41-83 | a voided and a valid row at one time: no tie within one order, and the counts of the two orders differ |
| `BallotGate.ValidatePicks` | src/apps/submit/service.py:68-106 | accepts iff the number is allowed, ids are non-blank and distinct, reasons have at most 4096 characters, and at most one favourite is marked; a refusal names the first rule broken by the first offending pick |
| `BallotGate.ValidateCp` | src/apps/submit/service.py:108-162 | accepts iff 1 to 4 combinations of 2 or 3 named members, reasons of at most 4096 characters, no triple with a repeat, active among the members, pairwise different as multisets, at most one favourite; a refusal names the first rule broken by the first offending combination |
| `BallotGate.AcceptedEntry` | src/apps/submit/service.py:254-278 | an accepted combination has a key and its active bucket is a member of that key or "none" |
| `BallotGate.AcceptedFullyTallied` | src/apps/result/compute.py:359-400 | if every ballot was accepted against a non-empty registry the recount drops nothing, and active counts over a key's distinct members and "none" add up to its votes |
| `BallotGate.CandidatesKnown` | src/apps/submit/service.py:254-278 | submitted tokens pass iff the year has no candidates, or every token is blank or some candidate's id or old id |
| `BallotGate.StoredKeepsVote` | src/apps/submit/service.py:108-162 | the stored form of a combination keeps its members, the favourite mark and the active member |
| `FavouriteGap.AcceptedFavouriteLost` | src/apps/submit/service.py:68-106 | a candidate picked by id and, as the favourite, by old id is accepted; the timeline sees the favourite, the count does not |
| `FavouriteGap.LostIffRepeated` | src/apps/result/compute.py:176-189 | an accepted ballot loses its favourite iff an earlier pick names the same candidate |
| `FavouriteGap.FavouritesExceed` | src/apps/result/trend.py:9-11 | wherever such a ballot counts the favourite deltas sum to strictly more than the favourite count |
| `FavouriteGap.OneBallotCounts` | src/apps/result/compute_dao.py:41-57 | a table with such a ballot alone meets the conditions of the strict inequality |
| `Covote.ComputeCovote` | src/apps/result/compute.py:707-752 | every unordered pair of the most voted ids has exactly one table, each table is the contingency table of the two, by descending ratio |
| `Covote.TableIsContingency` | src/apps/result/compute.py:727-734 | m00 counts the users with neither, the four cells partition the users, the margins are the two voter counts, the unrounded ratio is the Jaccard ratio in [0, 1] |
| `Covote.MarginIsVoteCount` | src/apps/result/compute.py:710-718 | for distinct voters the number of users holding an id is its vote count |
| `Covote.EveryPairOnce` | src/apps/result/compute.py:724 | of two distinct listed ids exactly one ordered pair is listed, once |
| `SubmitTable.Table.PreviousOf` | src/apps/submit/dao.py:43-50 | returns a row of the greatest attempt, or none iff the voter has no row |
| `SubmitTable.Table.Upsert` | src/apps/submit/dao.py:21-65 | adds one row with the submitted content and changes nothing else: without a numbered row it is number 1 with the fill duration submitted, otherwise it is numbered after the greatest number and keeps that row's fill duration |
| `SubmitTable.Table.Latest` | src/apps/submit/dao.py:71-90 | returns a row of the voter none of his rows is later than, by time and then attempt, a missing attempt being 0 |
| `SubmitTable.RunNumbers` | src/apps/submit/dao.py:52-60 | over any run on unnumbered rows a voter's new rows are numbered 1..n, all carry the fill duration his first submission brought, and each the payload submitted |
| `SubmitTable.LastSubmissionWins` | src/apps/submit/dao.py:71-90 | with non-decreasing times the last submission is the only row the reader may return, the tally's choice and the end of the replay |
| `SubmitTable.RunReadsLast` | src/apps/result/compute_dao.py:41-57 | over such a run the last payload submitted is what is read back and tallied |
| `SubmitLock.StepKeepsInv` | src/apps/submit/router.py:77-110 | every step keeps: who is inside owns the key, who owns the key is inside or crashed, nobody wrote behind a reader |
| `SubmitLock.StepIsUpsert` | src/apps/submit/dao.py:40-65 | every step leaves the table alone or is one sequential upsert |
| `SubmitLock.Safety` | src/apps/submit/router.py:94-110 | in every schedule at most one request of a user is inside, and attempts on unnumbered rows are 1..n |
| `SubmitLock.LockIsFreed` | src/apps/submit/router.py:87-91 | once all requests of a user are over without a crash the key is gone |
| `SubmitLock.ForeignKeyStays` | src/apps/submit/router.py:87-91 | a request that sees another one's key when it leaves does not delete it, however late it is |
| `SubmitLock.TakenKeyStoresNothing` | src/apps/submit/router.py:77-86 | a request that finds the key taken is over and changes nothing |
| `SubmitLock.LateHolderBreaks` | src/apps/submit/router.py:77-91 | if the key may expire under a live holder, two requests get in and store the same attempt |
| `Structure.BuildIndex` | src/apps/questionnaire/structure_index.py:18-52 | the nested loops fill the six lookups from the groups and questions of the tree, later entries overwriting earlier ones |
| `Structure.QuestionKnown` | src/apps/questionnaire/structure_index.py:42-52 | without repeated ids a question of the tree is found with its own group and options |
| `Structure.QuestionPlaced` | src/apps/questionnaire/structure_index.py:42-47 | every indexed question id occurs in the tree |
| `Structure.GroupKnown` | src/apps/questionnaire/structure_index.py:36-41 | without repeated ids a group of the tree is found with its own questionnaire |
| `Validation.ValidateAnswerRows` | src/apps/questionnaire/validation.py:38-105 | accepts iff every row is owned, its question in its group, its options of the question without repeats, its text within the limit, and no group is answered twice |
| `Validation.CheckRow` | src/apps/questionnaire/validation.py:53-105 | one row passes iff it is well formed and its group is new |
| `Validation.CheckOptions` | src/apps/questionnaire/validation.py:76-93 | the option loops pass iff the ids are distinct integers, all options of the active question |
| `Validation.AcceptedRowIsDone` | src/apps/questionnaire/validation.py:108-132 | an accepted row fails to be an answer only without an active question, without visible text (Input), or without an option (otherwise) |
| `ValidOnTree.AcceptedIffFits` | src/apps/questionnaire/validation.py:38-105 | on the tree alone: accepted iff every row is in a group of its questionnaire, its question in the group, its options different options of the question, its text at most as long as the question allows (1000 by default), and no group twice |
| `Reachability.Settled` | src/apps/questionnaire/completion.py:80-106 | a round that adds nothing settles all later rounds, so leaving the loop early is sound |
| `Reachability.ClosedIffShort` | src/apps/questionnaire/completion.py:13-15 | the bounded result is closed iff nothing is reachable only in more steps |
| `Reachability.LeastFixpoint` | src/apps/questionnaire/completion.py:13-15 | if at most n nodes can be added, n rounds give the least closed set |
| `Completion.RowsByGroup` | src/apps/questionnaire/completion.py:46-56 | files exactly the rows with integer ids under their pair, in order |
| `Completion.AddedByRow` | src/apps/questionnaire/completion.py:83-103 | adds exactly the hidden groups of the same questionnaire that a selected option of the active question points to |
| `Completion.Round` | src/apps/questionnaire/completion.py:80-103 | adds exactly the hidden groups one reveal away from a visible one |
| `Completion.VisibleGroupIds` | src/apps/questionnaire/completion.py:66-107 | returns exactly the groups reachable from the initially visible ones in at most eight reveals; `GateOnTree.ShownIffOnTree` says which those are on the tree |
| `Completion.QuestionnaireCompleted` | src/apps/questionnaire/completion.py:125-138 | completed iff something is shown and everything shown is answered; without questions iff every group has a row |
| `Completion.CompletedQuestionnaireIds` | src/apps/questionnaire/completion.py:110-139 | exactly the ids of completed questionnaires |
| `Completion.IsComplete` | src/apps/questionnaire/completion.py:142-148 | passes iff every required questionnaire is completed; `GateOnTree.GateIffOnTree` says the same on the tree alone |
| `GateOnTree.ShownIffOnTree` | src/apps/questionnaire/completion.py:66-107 | a group is shown iff at most eight answers, each selecting an option related to a question of the next group, lead to it from a group with questions that is first in order or not hidden |
| `GateOnTree.RevealsOnTree` | src/apps/questionnaire/completion.py:83-103 | one group reveals another iff a row of it selects, at one of its questions, an option related to a question of the other |
| `GateOnTree.AnsweredIffOnTree` | src/apps/questionnaire/validation.py:108-132 | a group is answered iff a row of it answers one of its questions, with text that is not blank or with one of the options |
| `GateOnTree.CompletedIffOnTree` | src/apps/questionnaire/completion.py:125-138 | a questionnaire is completed iff it has a shown group and all shown groups are answered on the tree; without questions iff every group has a row |
| `GateOnTree.GateIffOnTree` | src/apps/questionnaire/completion.py:142-148 | with unique ids the gate passes iff every required questionnaire is completed on the tree |
| `GateOnTree.StartIsAnswered` | src/apps/questionnaire/completion.py:72-78 | whoever passes has answered every group with questions that is first in order or not hidden, in every required questionnaire |
| `GateOnTree.HiddenIsRevealed` | src/apps/questionnaire/completion.py:72-103 | a hidden group that is not first in order is shown only if a shown group reveals it |
| `GateOnTree.InkIsLeft` | src/apps/questionnaire/validation.py:122-124 | a text counts iff something is left after stripping it |
| `CompletionFacts.RevealsToFixpoint` | src/apps/questionnaire/completion.py:80-107 | with at most eight groups to reveal the loop gives the least set closed under revealing |
| `CompletionFacts.AnswersOnlyReveal` | src/apps/questionnaire/completion.py:66-107 | further answer rows never hide a shown group |
| `CompletionFacts.CompletionIsLocal` | src/apps/questionnaire/completion.py:110-139 | with unique ids completion is the same in any two structures containing the questionnaire and for any two submissions with the same rows for it |
| `CompletionFacts.BoundAgreesIff` | src/apps/questionnaire/completion.py:13-15 | completion over the full fixpoint is completion plus no unanswered group more than eight reveals away |
| `CompletionFacts.GateAgreesIff` | src/apps/questionnaire/completion.py:141-148 | the gate over the full fixpoint is the gate plus no such group in a required questionnaire |
| `LongChain.NinthRevealIsMissed` | src/apps/questionnaire/completion.py:32-107 | a submission to a ten-group questionnaire is accepted and completes it although a group of every fixpoint is unanswered |
| `CompletionRates.LoadCompletion` | src/apps/result/compute_dao.py:193-226 | for every key exactly the voters of the year whose latest batch completes the configured questionnaire |
| `CompletionRates.ById` | src/apps/result/compute_dao.py:206-223 | the voters counted under each id are those with rows in the year whose current answers complete it |
| `CompletionRates.GateAgrees` | src/apps/questionnaire/completion.py:141-148 | a voter passes the gate iff he is counted for every required questionnaire with questions and covers every group of the required others |
| `AnswerStore.Store.ReplaceAnswers` | src/apps/questionnaire/dao.py:79-103 | appends one batch, numbered after the greatest one of this voter and year |
| `AnswerStore.Store.Submit` | src/apps/questionnaire/service.py:19-36 | accepted iff non-empty and well formed; then appended, otherwise nothing changes |
| `AnswerStore.Store.GetAnswers` | src/apps/questionnaire/dao.py:105-112 | if some row is numbered, the answers of exactly the rows with the greatest number, in table order; if none is, those of all rows |
| `AnswerStore.RunBatches` | src/apps/questionnaire/dao.py:82-96 | over any interleaving on unnumbered rows, batches are 1..n, each still holds what was submitted, legacy rows stay |
| `AnswerStore.ReadBack` | src/apps/questionnaire/dao.py:29-35 | whatever the table held, a submission is read back by its voter and year and changes nobody else's view |
| `AnswerStore.ReadsLastSubmission` | src/apps/questionnaire/dao.py:105-112 | over any run the answers read are exactly the last accepted submission of that voter and year |
| `Nesting.ChildrenOf` | src/apps/questionnaire/assembler.py:79-87 | grouping flattened children by parent id gives back each parent's children in order |
| `Nesting.Regrouped` | src/apps/questionnaire/assembler.py:79-95 | listing rows parent by parent, in any order, lists each row with a parent exactly once |
| `Assembler.Assemble` | src/apps/questionnaire/assembler.py:72-95 | the three grouping passes build the tree of sorted children |
| `Assembler.Parse` | src/apps/questionnaire/importer.py:13-79 | the nested loops list one row per node with its parent's id, in reading order |
| `Assembler.TreeRoundTrip` | src/apps/questionnaire/assembler.py:12-95 | assembling the parsed rows of a tree with distinct ids gives the tree with every level stably sorted by order |
| `Assembler.RowsRoundTrip` | src/apps/questionnaire/importer.py:13-79 | parsing the assembled tree of orphan-free rows gives the same rows with the same parents, as multisets |
| `Assembler.AssembledSorted` | src/apps/questionnaire/assembler.py:24-95 | whatever the rows, an assembled tree is in order on every level |
| `Assembler.SecondExport` | src/apps/questionnaire/assembler.py:72-95 | exporting, importing and exporting again gives the first export, for orphan-free rows with distinct ids |
| `ImportPlan.BuildPlan` | src/apps/admin/voteable_import_service.py:165-240 | conflicts, plans, creations, updates, new works and totals are those of the rows' verdicts, in order; `ImportPlan.ClashIffContradicts` says which rows clash |
| `ImportPlan.ClashIffContradicts` | src/apps/admin/voteable_import_service.py:243-267 | on the tables alone: a row clashes if it names nobody, or brings an old id only others own, or has a new old id and a name only entities with another old id bear; with unique names and old ids exactly then, and with that reason |
| `ImportPlan.MatchById` | src/apps/admin/voteable_import_service.py:248-256 | a row with an id finds that entity or clashes |
| `ImportPlan.MatchByKey` | src/apps/admin/voteable_import_service.py:258-267 | a row without id finds an owner of its old id, else a bearer of its name whose old id, if any, is the row's, else nobody |
| `ImportPlan.CleanIffImportable` | src/apps/admin/voteable_import_service.py:185-202 | a conflict-free batch repeats no name and no old id and contradicts the tables nowhere; with unique names and old ids exactly then |
| `ImportPlan.AcceptedIffClean` | src/apps/admin/voteable_import_service.py:185-202 | every row is accepted iff no name and no old id repeats and no row contradicts the tables |
| `ImportPlan.ConflictFreeIffClean` | src/apps/admin/voteable_import_service.py:131-133 | the report is free of conflicts iff the batch is, and then plans every row |
| `ImportPlan.TotalsAddUp` | src/apps/admin/voteable_import_service.py:177-231 | every row is counted once: matched by id, old id or name, created, or in conflict |
| `ImportRun.Database.LoadIndex` | src/apps/admin/voteable_import_service.py:152-157 | both lookups lead to a holder of the key, and every held key is found |
| `ImportRun.Database.CreateWorks` | src/apps/admin/voteable_import_service.py:299-303 | the missing works are added with fresh ids |
| `ImportRun.Database.Write` | src/apps/admin/voteable_import_service.py:305-338 | given fields overwrite, missing ones stay, the candidate row is added or keeps its sort order |
| `ImportRun.Database.Execute` | src/apps/admin/voteable_import_service.py:296-313 | completes iff every created entity has a name, and leaves no trace otherwise |
| `ImportRun.Database.Run` | src/apps/admin/voteable_import_service.py:109-148 | rejects a batch that repeats a key or contradicts the tables, as a whole, and with unique names and old ids no other; writes nothing in a dry run or on an error, otherwise executes the reported plans |
| `ImportKeeps.OldIdKept` | src/apps/admin/voteable_import_service.py:243-267 | after a run an entity's old id is another one only if a row names the entity by its id and brings it |
| `ImportKeeps.PreviewIsChange` | src/apps/admin/voteable_import_service.py:277-292 | the preview of an update lists exactly the fields the run changes, with what they become |
| `ImportKeeps.PreviewIsCreation` | src/apps/admin/voteable_import_service.py:269-275 | a created entity has what the preview announced, and the column defaults otherwise |
| `ImportKeeps.NewWorkKind` | src/apps/admin/voteable_import_service.py:205-213 | a new work has the kind given by the row that mentions it first, or "others" |
| `ImportKeeps.CandidatesAfter` | src/apps/admin/voteable_import_service.py:325-338 | an entity has a candidate row in the year iff it had one or was written, with the last sort order given or else the one it had; other years stay |
| `ImportFacts.FreshSlots` | src/apps/admin/voteable_import_service.py:305-311 | an update writes its target, a creation an entity no other plan writes |
| `ImportFacts.AllHeld` | src/apps/admin/voteable_import_service.py:316-323 | if plans for one entity agree, the tables hold what every plan gave |
| `ImportFacts.OldIdHolder` | src/apps/admin/voteable_import_service.py:253-258 | after a run a row's old id belongs to the row's entity alone |
| `ImportFacts.NameHolder` | src/apps/admin/voteable_import_service.py:260-265 | after a run the name of a row without ids belongs to the row's entity alone |
| `ImportFacts.MatchesAgain` | src/apps/admin/voteable_import_service.py:243-267 | a row whose entity holds what it gives finds that entity again |
| `ImportFacts.RerunSilentIffAgree` | src/apps/admin/voteable_import_service.py:165-292 | importing again finds nothing to do, for every index order, iff no two rows disagree about one existing entity |
| `ImportFacts.SecondReport` | src/apps/admin/voteable_import_service.py:165-240 | the second report has no conflict, creation, update or new work iff the rows agree |
| `ImportFacts.RerunChangesNothing` | src/apps/admin/voteable_import_service.py:296-338 | executing the second plan leaves entities, works and candidate rows unchanged |
| `ImportFacts.ImportTwice` | src/apps/admin/voteable_import_service.py:109-148 | the second import succeeds, reports nothing and leaves the tables as the first left them |
| `ImportFacts.PreviewMisses` | src/apps/admin/voteable_import_service.py:281-292 | an empty preview hides a change iff the only change is linking an entity without work to a work of the same import |
| `ImportFacts.PreviewMissesNewWork` | src/apps/admin/voteable_import_service.py:288-291 | a concrete row of this kind |
| `ImportFacts.DisagreeingRows` | src/apps/admin/voteable_import_service.py:248-255 | two disagreeing rows for one id form a batch that is imported without conflict |
| `LegacyPlan.KeyIsPrecedence` | scripts/import_legacy_voters.py:247-253 | the sort key orders by later activity, older registration, smaller id |
| `LegacyPlan.FirstOfIsFirst` | scripts/import_legacy_voters.py:233-239 | a merged field comes from the first record that has it |
| `LegacyPlan.MergeMissing` | scripts/import_legacy_voters.py:226-244 | the survivor keeps its own fields, takes missing ones from the first loser having them, and is verified if anyone was; the list of origins is exact and in order |
| `LegacyPlan.Decide` | scripts/import_legacy_voters.py:280-298 | one survivor per group, every other record points to it, reviews are those with differing hashes and no activity, and the merged fields are listed with survivor and origin |
| `LegacyPlan.PlanImport` | scripts/import_legacy_voters.py:256-298 | the plan of all records: invalid, skipped, one outcome per contact in the order of the contacts, reviews and origins of merged fields |
| `LegacyPlanFacts.Partition` | scripts/import_legacy_voters.py:267-297 | every record is exactly one of invalid, skipped, survivor, duplicate of a survivor |
| `LegacyPlanFacts.WinnerIsLeast` | scripts/import_legacy_voters.py:282-285 | the survivor precedes every record of its contact and is that record merged with the others |
| `LegacyPlanFacts.OrderIndependent` | scripts/import_legacy_voters.py:256-298 | a permuted dump gives the same survivors, duplicates, invalid and skipped records, reviews and origins of merged fields |
| `LegacyPlanFacts.ReviewMeans` | scripts/import_legacy_voters.py:292-297 | the survivors to review are those of contacts with two different passwords and no activity |
| `LegacyPlanFacts.PrecedesMeans` | scripts/import_legacy_voters.py:247-253 | later activity first, then earlier registration, then the smaller id in the order of strings |
| `LegacyPlanFacts.NoActivityIsEarliest` | scripts/import_legacy_voters.py:71 | a record without activity counts as active at the first representable instant |
| `LegacyPlanFacts.ContactMeans` | scripts/import_legacy_voters.py:274-278 | two records are of one contact iff they have the same address, or none and the same phone, if any |
| `LegacyPlanFacts.ContactsInOrder` | scripts/import_legacy_voters.py:280 | contacts with an address come first, and each kind in the order of their first records |
| `LegacyPlanFacts.SuppliedInOrder` | scripts/import_legacy_voters.py:233-239 | what one record supplies is listed as phone, QQ, wiki account, picture |
| `LegacyImport.ProcessBatch` | scripts/import_legacy_voters.py:425-504 | the loop over survivors computes the batch of accounts, identities and mappings; `LegacyAccounts.BatchMaps` and `LegacyImport.BatchHandsOut` say what is in it |
| `LegacyImport.BatchWell` | scripts/import_legacy_voters.py:485-504 | a batch maps new ids only, each once, and gives each account it creates exactly one primary mapping |
| `LegacyImport.BatchFinishes` | scripts/import_legacy_voters.py:441-504 | after a batch every survivor in it is mapped or claimed by two accounts |
| `LegacyImport.DoneEmitsNothing` | scripts/import_legacy_voters.py:442-457 | a batch of such survivors emits nothing |
| `LegacyImport.Accounts.Insert` | scripts/import_legacy_voters.py:512-517 | inserts iff no identity clashes, otherwise nothing |
| `LegacyImport.Accounts.Import` | scripts/import_legacy_voters.py:679-702 | leaves the tables and the verdict of inserting batch after batch until one clashes; only adds rows; on success every survivor is done; every account created is one survivor's: his id is its one primary id and its identities are exactly his, address and phone verified as he has them, QQ and wiki always; the figures are what was added |
| `LegacyImport.ImportedAgain` | scripts/import_legacy_voters.py:679-702 | importing again after an import that stopped or got through stops or gets through again and leaves the tables alone |
| `LegacyImport.ImportAgain` | scripts/import_legacy_voters.py:679-702 | the second run of the import reports no account and no mapping after a success and the same failure after a failure, and the tables stay |
| `LegacyImport.BatchHandsOut` | scripts/import_legacy_voters.py:485-504 | every account of a batch is handed out to a survivor of the batch, with his identities and nobody else's |
| `LegacyAccounts.AccountForEach` | scripts/import_legacy_voters.py:484-504 | when the import gets through, every survivor who gets an account has one of his own with exactly his identities |
| `LegacyAccounts.NewIdentities` | scripts/import_legacy_voters.py:301-333 | the import changes no identity, and stores none but those of the accounts it creates |
| `LegacyAccounts.BatchMaps` | scripts/import_legacy_voters.py:441-504 | an id not mapped yet, of a survivor or his duplicate, stays unmapped if two accounts hold his address and phone, is mapped as a conflict to the one that does, or to the created account as primary or duplicate |
| `LegacyImportFacts.PlanConsistent` | scripts/import_legacy_voters.py:256-298 | the survivors of a plan of normalised records have distinct ids and addresses and are nobody's duplicates |
| `LegacyImportFacts.BatchFits` | scripts/import_legacy_voters.py:512-517 | a batch is inserted iff the survivors it creates bring no stored identity and no two of them share one |
| `LegacyImportFacts.PlannedBatchFits` | scripts/import_legacy_voters.py:441-517 | a batch of a plan is inserted iff the unmapped survivors whose address and phone nobody owns bring no stored QQ or wiki account and share no phone, QQ or wiki account |
| `LegacyImportFacts.GetsThroughIff` | scripts/import_legacy_voters.py:679-702 | the whole import gets through iff that holds of the survivors who get an account, which is read off the tables before the import and the batch boundaries |
| `LegacyImportFacts.PlanGetsThroughIff` | scripts/import_legacy_voters.py:256-298 | the same from a dump of normalised records |
| `LegacyImportFacts.SamePhoneOneBatch` | scripts/import_legacy_voters.py:353-383 | two survivors with one phone fail in one batch, leaving nothing, and get through in two |

## Left out

- Approximate trend of `compute_ranking`/`compute_cp_ranking` without a history: the model always uses the replayed history.
- Percentages, averages, medians, weighted counts, reasons, display columns, names and historical snapshots of the rankings.
- `build_segment_map`, `compute_paper_results`, completion-rate percentages and `compute_global_stats`: the segment map is a parameter.
- `Tally.CountBallots`: `str.isdigit` is modelled for ASCII digits; other Unicode digits would be classified as unknown ids.
- `Covote.ComputeCovote`: rounding to four digits is a parameter of the model, and the order of equally voted ids is not fixed.
- `Ranking.Rank`: the order of combinations tied on votes, favourites and first member's system id is not fixed by the sort key, and not by the model.
- `Conservation.Conservation`: two newest rows of a voter that differ and are not both voided are excluded; `QueryOrders.ConservedIffDecided` says exactly when they matter.
- `Conservation.ConservedIffNoLiveTie`: speaks of one row order for both selections; `QueryOrders.ConservedIffDecided` covers two.
- `Trend.Bucket`: the quotient is exact, the code divides floats; time zones are normalised beforehand.
- `SubmitLock.Safety`: assumes that a live holder is done before its key expires; `SubmitLock.LateHolderBreaks` shows the assumption is needed.
- `SubmitTable.Table.Upsert`: the columns besides voter, time, attempt, fill duration, invalidation and payload; row ids.
- `BallotGate.ValidatePicks`: one method for characters and music, which differ in the allowed number only; the paper and dojin validators.
- The rate limit, tokens and the questionnaire check around a submission; the latter also refuses a voter without any answers.
- `Structure.BuildIndex`: starts from typed trees, so entries that are not objects are gone; ids are integers.
- `Completion.AddedByRow`: an option column that is neither a list nor empty counts as empty; JSON floats equal to an id are not ids.
- `Validation.ValidateAnswerRows`: one error code for all refusals as in the code; messages are reduced to reasons.
- `CompletionRates.LoadCompletion`: starts from the assembled structure instead of reading its rows.
- `Assembler.TreeRoundTrip`: trees are id-complete and fully populated, as the assembler produces them; defaults for missing fields and id-less imports are not modelled.
- Deleting and inserting a structure tree in the database (`replace_structure_tree`).
- Parsing CSV and JSON imports, blank columns and alias lists: the voteable import starts from typed rows.
- `ImportRun.Database.Run`: work names are taken to be unique in the work table; columns the import never writes.
- `LegacyPlan.PlanImport`: requires distinct legacy ids, which the dump's primary key provides; e-mail validity and the test accounts are parameters; two grouping dictionaries are one, keyed by kind and contact.
- `LegacyImport.Accounts.Import`: the committing mode only, with fresh numbers for random ids; encryption, blind indexes (taken to tell all subjects apart), passwords, reports and counters other than accounts and mappings.
- Reading the activity logs, normalising voter documents, candidate merge, caching, scraping and the user interface.
