# Gangwon sports passport: verification of the backend's core

This project models the parts of the backend where several steps, rows or requests have to agree, and proves what
they keep. Each module follows one component.

- **Day trips** (`CourseRoles`, `Travel`, `Candidates`, `DayTripPlanner`, `AiCourse`, `MatchScore`,
  `Recommendation`). Places are clustered around a sports anchor and cut to ten by random draws, a greedy planner
  grows a route from every affordable anchor and keeps the best, an itinerary written by a language model is
  accepted or refused, and the response is scored. Each draw may return any member of the pool, so the results
  hold for every outcome.
- **Rate limiter** (`RateLimiting`). A dictionary bounded in size, against a limiter that forgets nothing.
- **Tee campaign** (`RewardTables`, `RewardAllocation`). First the service one request at a time; then any number
  of workers that hold the campaign row and claim rows until they commit or roll back, beside fulfilment updates
  and account deletions.
- **Photo proofs** (`SubmissionTables`, `SubmissionProtocol`, `Missions`, `BadgeRules`, `Awards`). Submission and
  review under the passport lock, the query that decides which missions are complete, and the badges that follow.
- **Tourism sync** (`Paging`, `ActivityTable`, `ActivitySync`, `TourApi`, `Deduplication`, `SyncRun`, `QuietDays`,
  `SyncStability`). Full and delta synchronisation of one source, a day of the tourism service, cross-source
  duplicates, a whole run with a failure possible at each step, and a second run over data that have not moved.
- **Discovery** (`Discovery`), **activity history** (`History`), **stampbook** (`Stampbook`) and **access
  tokens** (`Tokens`).

`Lists`, `Chains` and `Wrappers` hold general list lemmas, step-by-step lists and the option and result types.

Operations that change state are classes whose methods are proved against functions of the old state; what the
source promises is then proved of those functions, or of a state machine that takes the same steps.

## Assumptions

- Row locks are exclusive and held until commit or rollback; a commit takes effect at once.
- In `SubmissionProtocol` the second check of a submission is a plain select. The parameter `Reads` says whether it
  sees committed rows or the rows of the transaction's first read (line 53 of `app/services/stamp_submission.py`
  after the unlocked read of line 45). Line 8 of `app/config/database.py` sets no isolation level, so MySQL's
  default, repeatable read, applies: the rows of the first read. One live submission a pair, and with it no proof
  pending for a collected stamp, holds for committed rows only; the other promises are proved for either reading.
- A review reads its own rows alike under either reading: it locks the submission (line 153 of
  `app/repositories/stamp_submission.py`) and then the passport (line 372) before its first plain select (line 374),
  and checking the reviewer reads no table, so that its snapshot starts under both locks.
- Storing a collected stamp makes the database read its passport with a shared lock, for the foreign key at lines
  19-21 of `app/models/collected.py`. A grant therefore waits while a submission or an approval holds the passport;
  removing a collected stamp waits for nothing.
- The database may return rows of equal sort keys, and rows without an order, in any order.
- The great-circle distance is an arbitrary non-negative function; texts are matched by arbitrary functions where
  the source uses keyword lists or regular expressions, except in `Discovery`, where they decide the result.

## What the code does not keep

- A place can vanish from discovery: a preferred twin hides a row even when the twin itself lies outside the
  province (`Discovery.PlaceDisappears`; `Discovery.OneShownIff` says exactly when).
- With reads of the first snapshot, MySQL's default, two pending proofs for one stamp can be stored
  (`SubmissionProtocol.SecondPendingOnFirstReads`; exactly when: `SubmissionProtocol.OneLiveIffCommittedReads` and, run
  by run, `SubmissionProtocol.OneLiveThroughoutIff`).
- A stamp granted by an administrator while its proof is pending leaves a pending proof for a collected stamp
  (`SubmissionProtocol.GrantWhilePending`; exactly when: `SubmissionProtocol.StepApartIff` and, for either kind of
  read, `SubmissionProtocol.StepPartsIff`), and removing a collected stamp leaves an approved proof without one
  (`SubmissionProtocol.RevokeLeavesProofAlone`; exactly when: `SubmissionProtocol.RevokeSoundIff` and, over whole
  runs, `SubmissionProtocol.RowsSoundIff`).
- The comment at line 311 of `app/repositories/activity.py` promises that a failed lookup never erases routes. For
  an event curated by its organizer it does (`ActivitySync.CuratedEventLosesRoutes`; exactly when:
  `ActivitySync.RoutesSurviveIff`). The sync itself never makes an event with routes: an administrator's edit of
  category and metadata does (lines 41-63 of `app/schemas/activity.py`).
- Of a source's rows without an external id a full sync retires only one, and a later sync another
  (`ActivitySync.FullSyncActive`, `SyncStability.UnnamedRowsLeaveOneByOne`).
- With ties at the cut, a history page can show another of the tied rows (`History.TieCutShowsAnother`; exactly
  when: `History.PageExactIff`).

- A reply of the language model can leave a request without a course, although lines 641-650 of
  `app/services/recommendation.py` mean to fall back to the planned one: only the errors listed there are caught. An
  infinite number as a stop's id raises an overflow at line 325, empty choices an index error at line 621, and
  nesting beyond the interpreter's limit a recursion error (`Recommendation.OneStopEscapes`; exactly when:
  `Recommendation.Recommend`).

## Model

| member | source | states |
|---|---|---|
| CourseRoles.RoleIff | app/services/course_roles.py:6-17 | food is a rest in a café and a meal elsewhere; other places are the experience exactly when they are sports |
| CourseRoles.UsualStay | app/services/recommendation.py:116-126 | the stay of a place that states none: golf four hours, water sports two, a meal one, a rest half an hour, else by category |
| Travel.RelevanceIff | app/services/recommendation.py:169-176 | a place fits the theme doubly exactly when the search matched it, and not at all exactly when neither search, keyword nor thrill speaks for it |
| Travel.ReachableIff | app/services/recommendation.py:137-164 | a leg between located places is reachable exactly within 25 km of straight line in the mountains, or 40 km less the detours of roads elsewhere |
| Travel.UnlocatedIff | app/services/recommendation.py:157-166 | a place without coordinates is 15 minutes from any place of its city and reachable from no other |
| Travel.Trip.TravelMinutes | app/services/recommendation.py:162-166 | a leg has a travel time exactly when its distance is known and at most 40 km: zero minutes for no distance, otherwise the minutes needed at 40 km/h, rounded up and at least ten |
| Travel.DriveWithinTravel | app/services/recommendation.py:162-166 | the minutes counted for a route are enough to drive its legs at 40 km/h |
| Travel.RouteMinutesAppend | app/services/recommendation.py:269-300 | adding a reachable stop costs exactly its segment and keeps every leg reachable |
| Candidates.ChooseAnchor | app/services/recommendation.py:194-219 | the anchor with the best cluster score is chosen, the earliest among equals; none exactly when there is no anchor |
| Candidates.ScoreIsTotalWeight | app/services/recommendation.py:208-213 | a cluster scores one for each place and two for each point of relevance, the total weight with which its places are drawn |
| Candidates.NearestMeans | app/services/recommendation.py:219-226 | in the sorted cluster the anchor leads, and an earlier place fits the theme no less, then lies no farther, then has no higher id |
| Candidates.ArrangedSpec | app/services/recommendation.py:228-233 | bringing food, rest and sights forward only reorders, the anchor stays first, and the rest stays sorted |
| Candidates.CutKeepsPurposes | app/services/recommendation.py:227-234 | the cut to thirty keeps every supporting purpose of the cluster |
| Candidates.CutKeepsThemes | app/services/recommendation.py:219-234 | the cut to thirty keeps at least three theme matches outside any four places, or all of them |
| Candidates.DrawOnTheme | app/services/recommendation.py:244-257 | drawing theme matches never meets an empty pool and reaches three matches or all that are left |
| Candidates.DrawRest | app/services/recommendation.py:259-265 | filling up to ten never meets an empty pool and yields ten distinct places |
| Candidates.CoherentCandidates | app/services/recommendation.py:187-267 | nothing exactly when no usable anchor exists; otherwise the anchor of the best cluster first, all within 40 km of it, as many as ten or the cluster, with purposes and theme matches kept, for every outcome of the draws |
| Candidates.OfferedMeans | app/services/recommendation.py:178-206 | every place offered was found, is no lodging, shop or undated festival, fits the time on its own and lies within 40 km of the anchor in front |
| DayTripPlanner.ChooseNext | app/services/recommendation.py:285-298 | the place with the smallest key among those that can follow, none exactly when nothing can |
| DayTripPlanner.NextIsBest | app/services/recommendation.py:291-296 | the next stop serves a new purpose if any place could, then fits the theme best, then is nearest, then has the lowest id |
| DayTripPlanner.RouteFrom | app/services/recommendation.py:281-300 | the route from a start is greedy: each stop is the best possible next one, and it ends at five stops or when nothing fits |
| DayTripPlanner.GreedyRouteUnique | app/services/recommendation.py:281-300 | two greedy routes from one start are the same route |
| DayTripPlanner.GreedyIsItinerary | app/services/recommendation.py:273-315 | a greedy route has distinct stops, reachable legs, valid roles and fits the time, and its main stop is its start |
| DayTripPlanner.Fallback | app/services/recommendation.py:273-309 | empty exactly when no anchor fits the time; otherwise best in purposes, stops and travel over all starts, the earliest among equals |
| DayTripPlanner.FallbackIsBest | app/services/recommendation.py:304-308 | against any other greedy route the planned one serves more purposes, or as many with more stops, or as many of both with less travel, or is as good and starts earlier |
| DayTripPlanner.MainIsStart | app/services/recommendation.py:317-319 | the main stop recomputed from a planned route is the stop it was planned from |
| DayTripPlanner.OneExperience | app/services/recommendation.py:311-319 | a course with an anchor and valid roles shows exactly one experience |
| AiCourse.AiStops | app/services/recommendation.py:321-359 | success exactly when what is kept of the list is an itinerary, and then its stops, and every entry names a candidate; otherwise the first error raised, which is the overflow of an infinite id exactly when every entry before it lets the check come to it |
| AiCourse.AcceptedEntry | app/services/recommendation.py:324-350 | of an accepted list every entry names a candidate not yet kept and within reach of the last one kept; it is left out exactly when it would exceed the budget, and otherwise has a reason |
| AiCourse.EntryExtends | app/services/recommendation.py:324-350 | conversely such an entry extends what is kept in just this way |
| AiCourse.FirstBrokenEntry | app/services/recommendation.py:324-343 | the first other entry decides the refusal: no readable id, unknown, repeated, out of reach, or within the budget without a reason, in this order |
| AiCourse.VerdictExact | app/services/recommendation.py:321-359 | a generated list is accepted exactly when what is kept of it is an itinerary |
| AiCourse.OverflowExact | app/services/recommendation.py:324-325 | the overflow is raised exactly when some infinite id has only entries before it that pass their checks |
| AiCourse.OverflowOrRefusalFirst | app/services/recommendation.py:324-327 | one infinite id alone overflows; behind a refused entry it does not |
| AiCourse.KeepsUnique | app/services/recommendation.py:324-350 | what is kept of a generated list is determined by the list |
| AiCourse.ItineraryKept | app/services/recommendation.py:324-350 | a course that can be followed, suggested with reasons, is kept whole |
| MatchScore.ScoreBounds | app/services/recommendation.py:361-393 | the score lies in 0..100 for every measured course, and is at least 20 with the requested sport |
| MatchScore.PartsWeigh | app/services/recommendation.py:390-393 | between two courses the sport is worth 20 points, and full against none 15 for the area, 20 for the theme, 15 for the time, 20 for closeness, 10 for different categories |
| MatchScore.FullScoreIff | app/services/recommendation.py:361-393 | the unrounded score is 100 exactly when the sport is there, every stop is in the area and on the theme, the time is used up, no leg has length and the categories are as many as can be |
| Recommendation.PresentFollowable | app/services/recommendation.py:404-452 | the response for an itinerary has known distinct stops, reachable legs, totals that add up within the budget even when every leg is driven at 40 km/h, one experience, and a score in range |
| Recommendation.PresentShows | app/services/recommendation.py:404-452 | it shows the stops of the route in order, each with its reason and stay |
| Recommendation.Plan | app/services/recommendation.py:469-477 | the course planned from the candidates is the best greedy route and can be followed; empty exactly without candidates |
| Recommendation.Suggested | app/services/recommendation.py:629-640 | the suggested course is used exactly when what is kept of it can be followed and serves every purpose of the planned course; the overflow is passed on |
| Recommendation.Answered | app/services/recommendation.py:612-650 | for a reply the course is the suggested one exactly when usable, else the planned one, except exactly when the choices are empty, the reply is nested too deep, or a described stop list overflows |
| Recommendation.Recommend | app/services/recommendation.py:454-650 | no course comes back exactly when there are candidates and reading the reply raises an error that is not caught, and it says which; otherwise the course is empty exactly without a usable anchor and else can be followed, and is the suggested one exactly when the reply has a title, a description and stops of which what is kept can be followed and serves every planned purpose |
| Recommendation.OneStopEscapes | app/services/recommendation.py:325-650 | a reply with one stop of infinite id leaves any request that has candidates without a course |
| RateLimiting.RateLimiter.Allow | app/deps/rate_limit.py:13-26 | one call answers and updates the buckets as the history of calls prescribes |
| RateLimiting.RemembersMostRecent | app/deps/rate_limit.py:15-25 | the keys kept are the most recently called ones, in the order of their last calls |
| RateLimiting.CapacityKept | app/deps/rate_limit.py:23-25 | the number of buckets never exceeds the capacity |
| RateLimiting.ForgottenIff | app/deps/rate_limit.py:15-25 | a called key is forgotten exactly when as many other keys as the capacity have been called since |
| RateLimiting.RefusedIff | app/deps/rate_limit.py:13-26 | a call of a key never forgotten is refused exactly when the window opened by its last opening call, which was admitted, is not over and the whole limit has been admitted since; a window opens at the first call at or after the end of the one before |
| RateLimiting.RefusedCallLeavesNoTrace | app/deps/rate_limit.py:16-19 | leaving a refused call out of the history changes no later answer of its key |
| RateLimiting.AgreesWithFree | app/deps/rate_limit.py:13-26 | a key never forgotten is answered as by a limiter without capacity |
| RateLimiting.FewKeysAgree | app/deps/rate_limit.py:13-26 | with at most as many keys as the capacity every answer is that of the limiter without capacity |
| RateLimiting.IntervalBound | app/deps/rate_limit.py:16-22 | any half-open interval of one window length admits at most twice the limit less one calls of a key never forgotten |
| RateLimiting.BoundReached | app/deps/rate_limit.py:16-22 | that bound is reached |
| RewardTables.PassportRewardService.Claim | app/services/passport_reward.py:37-70 | a stored claim is returned unchanged; otherwise success takes exactly one place and stores and returns one row, the member's, with the next number and the address given, requested now and not fulfilled, and nothing else changes; each refusal has its cause and changes nothing |
| RewardTables.PassportRewardService.Update | app/services/passport_reward.py:75-82 | fulfilment never moves backwards, the completion time is that of the first completion, and no other value or row changes; an unknown claim changes nothing |
| RewardTables.PassportRewardService.Status | app/services/passport_reward.py:16-35 | a member is shown as eligible exactly without a claim, with the campaign open, enough stamps and places left |
| RewardTables.EligibleMeansPlaceTaken | app/services/passport_reward.py:28-55 | a member is shown as eligible exactly when a claim made then, if it can be stored, takes a place |
| RewardTables.InsertFailsOnlyWithoutUser | app/services/passport_reward.py:52-63 | after the checks under the lock an insert breaks an integrity rule exactly when the account is gone |
| RewardAllocation.StepInv | app/services/passport_reward.py:37-82 | every step of every worker, update and deletion keeps the integrity rules, exclusive locks, the counter and each worker's checks |
| RewardAllocation.RunInv | app/services/passport_reward.py:37-82 | the same over whole runs |
| RewardAllocation.LiveWithinQuantity | app/models/passport_reward.py:31-47 | live claims are at most the places given away, and those at most the quantity |
| RewardAllocation.RunKeeps | app/repositories/passport_reward.py:46-62 | over a run stored claims keep member, number and address, statuses only advance, and new claims get numbers beyond all given before, deleted or not |
| RewardAllocation.CommitsTakeConsecutiveNumbers | app/repositories/passport_reward.py:46-62 | the k-th commit of a run takes the k-th next number, and the counter moves by commits alone |
| RewardAllocation.CommitAllocates | app/repositories/passport_reward.py:46-62 | each commit stores the row its worker asked for and nothing else |
| RewardAllocation.RequestFromArrival | app/services/passport_reward.py:37-52 | what a worker stores is what it arrived with |
| RewardAllocation.StoredAsCommitted | app/repositories/passport_reward.py:46-62 | over a run every new claim is the row of one of its commits, advanced by fulfilment alone |
| RewardAllocation.UpdateProgresses | app/repositories/passport_reward.py:93-99 | an interleaved update moves its claim's fulfilment and nothing else |
| RewardAllocation.ClaimLeavesIff | app/models/passport_reward.py:49-55 | a claim goes exactly with its member's account, and its place is not given back |
| RewardAllocation.CompletedIffTimed | app/repositories/passport_reward.py:93-99 | in every reachable state a claim has a completion time exactly when it is completed |
| RewardAllocation.EndsAsIfAlone | app/services/passport_reward.py:37-70 | however requests interleave, each answer and effect is that of the service running alone at that moment |
| RewardAllocation.WaitsNeverClose | app/services/passport_reward.py:38-43 | chains of workers waiting for each other's rows have at most three members and never close |
| RewardAllocation.ReachedPromises | app/models/passport_reward.py:31-47 | in every reachable state live claims are within the places given away and those within the quantity, each claim has a number of its own, and each member one live claim at most |
| RewardAllocation.NumbersFromOne | app/repositories/passport_reward.py:46-62 | from a campaign with no place given away the k-th commit ever takes number k |
| RewardAllocation.NoDeadlock | app/services/passport_reward.py:38-82 | from every reachable state all requests under way can run to their end without a rollback |
| SubmissionTables.StampSubmissionService.CheckTarget | app/services/stamp_submission.py:26-36 | which error is reported, and when there is none |
| SubmissionTables.StampSubmissionService.Create | app/services/stamp_submission.py:43-63 | a submission is stored exactly when both checks pass, the keys belong to it and the pair is open: pending, shared as asked, with its caption only if shared; nothing else changes |
| SubmissionTables.StampSubmissionService.Review | app/services/stamp_submission.py:270-285 | only a pending proof is reviewed, with reviewer and reason, its post left as it is; approval stores the stamp once and adds what the passport's proofs then earn to its badges; nothing else changes |
| SubmissionTables.StampSubmissionService.UpdateFeedVisibility | app/services/stamp_submission.py:246-255 | only the owner's post that was not removed is shown or hidden as asked; its proof and review, all other posts, collected stamps and badges stay |
| SubmissionTables.StampSubmissionService.DeleteFromFeed | app/services/stamp_submission.py:257-261 | the owner's post is no longer shown and keeps its first removal time; its proof and review, all other posts, collected stamps and badges stay |
| SubmissionTables.FeedChangeDetermined | app/services/stamp_submission.py:246-261 | these promises leave no choice about any row |
| SubmissionProtocol.StepInv | app/services/stamp_submission.py:26-63 | under committed reads every step of interleaved submissions, reviews, feed changes, grants and removals keeps the promises below and each worker's checks, but for a removal that strips an approved proof |
| SubmissionProtocol.RunInv | app/repositories/stamp_submission.py:370-384 | the same over whole runs |
| SubmissionProtocol.RunRowsInv | app/services/stamp_submission.py:270-285 | with either kind of read whole runs without such a removal keep what is promised of each submission, of collected stamps and of badges, exclusive locks, and each review's check |
| SubmissionProtocol.RowsSoundIff | app/services/collected.py:57-58 | over any run, with either kind of read, these promises last throughout exactly when no removal hits a stamp on which an approved proof rests |
| SubmissionProtocol.RowPromises | app/services/stamp_submission.py:270-285 | in every state reached without such a removal, with either kind of read, an approved proof has its stamp collected exactly once, its passport holds the badges it earns, and a removed post is not shared |
| SubmissionProtocol.PairPromises | app/services/stamp_submission.py:45-63 | in every reachable state under committed reads a pair has at most one pending and one approved proof, and never both |
| SubmissionProtocol.SubmitAsIfAloneIff | app/services/stamp_submission.py:45-63 | an interleaved submission is stored as by a request running alone at that moment exactly when the pair is then open; under committed reads, always |
| SubmissionProtocol.ReviewAsIfAlone | app/services/stamp_submission.py:270-285 | an interleaved approval or rejection answers and changes what a review running alone at that moment does, with either kind of read |
| SubmissionProtocol.FeedAsIfAlone | app/services/stamp_submission.py:246-261 | so does a change to the feed |
| SubmissionProtocol.ReviewsAreFinal | app/services/stamp_submission.py:274-280 | on every run, with either kind of read and any grants or removals, a reviewed proof keeps its review, a removed post its removal, a passport its badges |
| SubmissionProtocol.OneLiveIffCommittedReads | app/services/stamp_submission.py:45-53 | one live submission a pair in every reachable state exactly when the second check sees committed rows |
| SubmissionProtocol.SecondPendingOnFirstReads | app/services/stamp_submission.py:45-53 | otherwise a concrete run stores a second pending proof |
| SubmissionProtocol.StepOneLiveIff | app/services/stamp_submission.py:45-63 | with either kind of read a step keeps one live submission a pair exactly unless it stores one beside a live one |
| SubmissionProtocol.OneLiveThroughoutIff | app/services/stamp_submission.py:45-63 | over any run, whatever is granted or removed, no pair ever has two live submissions exactly when none is stored beside a live one |
| SubmissionProtocol.RevokeSoundIff | app/services/collected.py:57-58 | removing a collected stamp keeps the promises exactly when no approved proof rests on it |
| SubmissionProtocol.RevokeLeavesProofAlone | app/services/collected.py:57-58 | a reachable state in which removing a collected stamp leaves an approved proof without it |
| SubmissionProtocol.StepApartIff | app/services/collected.py:35-41 | under committed reads each step keeps pending and collected apart, except exactly a grant to a pending pair |
| SubmissionProtocol.StepPartsIff | app/services/collected.py:35-41 | with either kind of read, except exactly a grant to a pending pair, a submission stored for a collected stamp, or an approval with another proof of the pair pending |
| SubmissionProtocol.ApartThroughoutIff | app/repositories/stamp_submission.py:60-83 | over any run, with either kind of read, no pair is ever pending and collected exactly when no such step occurs |
| SubmissionProtocol.ApartIffUncontested | app/repositories/stamp_submission.py:60-83 | under committed reads, exactly when no stamp is granted whose proof is pending |
| SubmissionProtocol.GrantWhilePending | app/services/collected.py:35-41 | a reachable state in which a stamp is pending and collected at once |
| Missions.CompletedIff | app/repositories/stamp_submission.py:386-423 | the grouped query marks a course exactly when it is published, has a stamp, and each of its stamps is approved and in no other published course |
| Missions.CompletedShareNoStamp | app/repositories/stamp_submission.py:399-421 | completed courses share no stamp |
| Missions.FactsMean | app/repositories/stamp_submission.py:424-447 | a fact is that of a stamp of a completed mission, and a mountain one by the sport of the catalogue entry, else of the course, else of the activity |
| Missions.FactFor | app/repositories/stamp_submission.py:431-447 | each stamp of a completed mission with a stored activity yields a fact |
| Missions.MoreProofsMoreFacts | app/repositories/stamp_submission.py:409-447 | more approved stamps only add completed courses and facts about them |
| BadgeRules.BadgeProgress | app/services/badge_rules.py:94-113 | each count is the number of distinct missions, or sports, of its group, whatever the order and repetition of facts |
| BadgeRules.EarnedBadgeRules | app/services/badge_rules.py:116-131 | the rules earned are exactly those whose threshold is met and those of special missions |
| BadgeRules.SportCounted | app/services/badge_rules.py:81-110 | a mission counts for trekking, cycling or running by its verified sport, else by the course's, else by the activity's, and a generic olympic one for none |
| BadgeRules.SettingCounted | app/services/badge_rules.py:86-113 | outside the verified missions only surfing counts as marine and only rafting as inland water |
| BadgeRules.FirstOfGroup | app/services/badge_rules.py:119-131 | which rules one mission of a group is enough for |
| BadgeRules.ThreeOfGroup | app/services/badge_rules.py:119-131 | which rules need three distinct missions, treks or sports |
| BadgeRules.EarnsMonotone | app/services/badge_rules.py:116-131 | a rule once earned stays earned as facts are added |
| BadgeRules.NothingEarnsNothing | app/services/badge_rules.py:119-126 | without facts no rule is earned |
| Awards.MoreProofsMoreBadges | app/services/stamp_submission.py:281-284 | with the catalogue fixed, more approved proofs only enlarge the badges earned |
| Awards.BadgesFollowProofs | app/repositories/stamp_submission.py:449-458 | in every state reached without a removal that strips an approved proof, with either kind of read, every passport holds every badge its approved proofs earn |
| ActivityTable.ActivityRepository.SyncItems | app/repositories/activity.py:295-357 | fails exactly on an item without an external id; otherwise the table is the items written in order and, for a full sync, the missing rows retired, and the unique key holds |
| ActivityTable.ActivityRepository.HideUpstreamIds | app/repositories/activity.py:365-372 | exactly the source's rows with a listed id become invisible |
| ActivitySync.RowAfter | app/repositories/activity.py:301-351 | an existing row becomes what its own items write in order, every other row stays |
| ActivitySync.NewRow | app/repositories/activity.py:348-351 | a new row is for an id the source did not have and holds what its items write |
| ActivitySync.StoredAfter | app/repositories/activity.py:345-351 | the source then has exactly the ids it had and those of the items |
| ActivitySync.RepeatedIdTakesLastValues | app/repositories/activity.py:301-351 | a row takes the values of the last item with its id, an item without an image leaving the stored one; only where a route lookup failed and routes were stored does a tourism row keep category, sport and summary; metadata is told key by key, with which side wins |
| ActivitySync.TakenDetermined | app/repositories/activity.py:301-351 | this leaves no choice about any value of the row |
| ActivitySync.SyncedRowTakes | app/repositories/activity.py:301-357 | after a sync each row with an id of the items holds just that |
| ActivitySync.FullSyncActive | app/repositories/activity.py:352-355 | after a full sync a row is in use exactly when its id is in the snapshot; of rows without an id exactly the one read last leaves use |
| ActivitySync.SyncTouchesOnly | app/repositories/activity.py:362-363 | a sync leaves other sources alone, a delta every row not on its list |
| ActivitySync.NotesSurviveIff | app/repositories/activity.py:317-334 | a delivery keeps the organizer's notes exactly when the row is then an event or keeps its routes |
| ActivitySync.CaptionSurvivesIff | app/repositories/activity.py:326-332 | a delivery to a curated event keeps a caption exactly when the image is the same |
| ActivitySync.NotesOutlastEvents | app/repositories/activity.py:317-334 | the notes outlast any number of deliveries as an event |
| ActivitySync.CaptionNeverReturns | app/repositories/activity.py:326-334 | a caption once gone never returns |
| ActivitySync.RoutesSurviveIff | app/repositories/activity.py:309-316 | a delivery without routes loses stored ones exactly when its lookup did not fail or the row is a curated event |
| ActivitySync.CuratedEventLosesRoutes | app/repositories/activity.py:309-334 | a place delivered with routes and edited into a curated event loses them to the next delivery whose lookup failed |
| ActivitySync.RoutesOutlastFailures | app/repositories/activity.py:309-316 | routes of any other row outlast any number of failed lookups, with category, sport and summary |
| Paging.Pages | app/jobs/sync_tourism.py:591-603 | the first page after which there is no more to ask for decides between the rows collected and the error |
| Paging.CollectsAll | app/jobs/sync_tourism.py:591-603 | pages cut from one list are collected back into that list |
| TourApi.TourApiDay | app/jobs/sync_tourism.py:766-810 | a day fails exactly on an empty full load, repeated ids or a full load without places, changing nothing; otherwise it synchronises its rows and hides its hidden ids |
| TourApi.RepeatedIdSeen | app/jobs/sync_tourism.py:777-778 | comparing list and set sizes finds exactly the repeated ids |
| TourApi.FullLoadKeepsAPlace | app/jobs/sync_tourism.py:777-809 | a full load that works leaves at least one place in use and visible |
| TourApi.VisibleAfterDay | app/jobs/sync_tourism.py:749-809 | after a day an id is visible exactly when no change hides it and either the day lists it as a place or a changed festival, or it was not invisible before; a festival among no changes un-hides nothing |
| Deduplication.DuplicateActivityIds | app/jobs/sync_tourism.py:243-269 | the ids selected are exactly the unprotected rows that give way to another of their place, whatever the order of rows |
| Deduplication.LeavesProtectedOrOne | app/jobs/sync_tourism.py:252-269 | of a place exactly the protected rows stay, or exactly the one preferred to all others |
| Deduplication.PlaceMeans | app/jobs/sync_tourism.py:229-248 | a row without a name or area stands for no place, and a city given decides the area whatever the address says |
| Deduplication.PreferredIsBest | app/jobs/sync_tourism.py:257-265 | the row preferred comes from a source no worse, then has an image, then a location, if either has, then the lower id |
| Deduplication.SourcesRanked | app/jobs/sync_tourism.py:89-96 | which sources come before which |
| Deduplication.SameSurvivors | app/jobs/sync_tourism.py:243-269 | from any part still holding the rows that stayed, the same rows stay again |
| SyncRun.TourismSync.ApplyDay | app/jobs/sync_tourism.py:819-830 | a day works exactly when it is answered, its lists are sound and storing works: then its rows are loaded, counted and the watermark moves to it; else rows and watermark stay, and a failure leaves its error |
| SyncRun.TourismSync.ApplyDays | app/jobs/sync_tourism.py:816-830 | exactly the days from the one after the watermark up to the first that does not work are loaded, in order; the target is reached exactly when all work, and the run stops exactly when the process does at the first that does not |
| SyncRun.ChronicleIsContiguous | app/jobs/sync_tourism.py:816-822 | the days applied over any history are one full load followed by changes, a day at a time, without gap or repetition, ending at the watermark |
| SyncRun.TourismSync.SyncFeed | app/jobs/sync_tourism.py:841-868 | a snapshot is used exactly when it is complete, identified, without repeats and not shrunk by more than half, and storing works; otherwise only its error is recorded |
| SyncRun.UsableIff | app/jobs/sync_tourism.py:850-856 | a snapshot is usable exactly when it has rows, each with a name and an id of its own, and at least half as many as the last one used |
| SyncRun.TourismSync.SyncFeeds | app/jobs/sync_tourism.py:840-879 | each source is synchronised exactly when its own snapshot is usable against its own last count and storing works, whatever the others do, up to one at which the process stops; its count or its error is recorded |
| SyncRun.TourismSync.RemoveDuplicates | app/jobs/sync_tourism.py:880-890 | exactly the rows that give way leave use, or nothing changes |
| SyncRun.OnlyDuplicatesLeave | app/jobs/sync_tourism.py:880-890 | only sports rows in use and visible leave use, and none that a mission protects |
| SyncRun.PlaceKeepsARow | app/jobs/sync_tourism.py:880-890 | each place that had such a row keeps one as it was |
| SyncRun.TourismSync.Run | app/jobs/sync_tourism.py:812-891 | a run is the days, then the sources, then the duplicates, each committed on its own; the sources come unless the process stops in the days, each used or not on its own account, and duplicates are removed exactly when no step stops and their removal works |
| SyncStability.FullSyncSettles | app/repositories/activity.py:359-360 | after a full sync of a file source syncing the same snapshot again would change nothing |
| SyncStability.SecondRunChangesNothing | app/jobs/sync_tourism.py:840-886 | synchronising unchanged sources and removing duplicates again leaves every row as it was, whichever sources fail the second time |
| QuietDays.QuietDay | app/jobs/sync_tourism.py:766-810 | a day without changes, its festivals held as they would be written, leaves the table as it is |
| QuietDays.DayHoldsFestivals | app/jobs/sync_tourism.py:749-806 | after a day loaded with its festivals the table holds them as any later day without changes would write them |
| SyncStability.RunTwice | app/jobs/sync_tourism.py:812-891 | two whole runs: when the first catches up, stops nowhere and removes duplicates, a second one over data that have not moved, on the same day or after days without changes, leaves every row as it was |
| SyncStability.UnnamedRowsLeaveOneByOne | app/repositories/activity.py:296-299 | two rows without an external id can leave use in two successive syncs |
| Discovery.ClassIsClassified | app/repositories/activity.py:37-68 | a row of the same place as a verified, numbered one is verified and numbered itself |
| Discovery.ShownIff | app/repositories/activity.py:25-69 | a row of a class is shown exactly when it leads the class and lies inside the province |
| Discovery.LeaderIsBest | app/repositories/activity.py:44-49 | the leader has a stamp if any row of the class has, then comes from the facility source if any does, then has the lowest id |
| Discovery.OneShownIff | app/repositories/activity.py:25-69 | exactly the leader of a class is shown when it lies inside the province, and no row when it does not |
| Discovery.OthersStay | app/repositories/activity.py:60-69 | no row outside such classes is dropped as a duplicate |
| Discovery.PlaceDisappears | app/repositories/activity.py:28-69 | two rows of one place of which neither is shown although one lies inside the province |
| History.DecodesIff | app/services/me.py:56-96 | an id decodes to a kind and row id exactly when it is their history id and the row id is positive |
| History.ActivityHistory | app/services/me.py:70-89 | the page is sorted newest first and then by history id, has the length and times of a page cut from all rows, is that page when no tie is cut, and among rows that differ is that page exactly when every row up to its end was fetched |
| History.SameTimes | app/repositories/me.py:204-218 | whichever tied rows the queries return, the page shows the same times |
| History.SameRows | app/services/me.py:83-89 | without a tie at a cut the page is exactly the page cut from all rows |
| History.PageExactIff | app/repositories/me.py:204-218 | among rows that differ, the page is the one cut from all rows exactly when each of the first offset plus limit rows of all was fetched |
| History.DistinctTimesCutNoTie | app/repositories/me.py:211-218 | distinct times within a source leave no tie to cut |
| History.TieCutShowsAnother | app/repositories/me.py:211-218 | with a tie at the cut another row can be shown |
| Stampbook.SummaryAddsUp | app/repositories/stampbook.py:17-99 | collected, available and locked add up to the total, which is the size of the catalogue |
| Stampbook.SummaryMeans | app/repositories/stampbook.py:20-35 | an entry counts as collected with its stamp collected, else as available with a published visible course, else as locked |
| Stampbook.CampaignAgrees | app/repositories/passport_reward.py:33-44 | the campaign's stamp count is the stampbook's collected total |
| Stampbook.PagesShowEachEntryOnce | app/services/stampbook.py:28-67 | pages one to the last show each filtered entry exactly once in catalogue order, and their number of items is the summary's |
| Stampbook.PageIsDistinct | app/repositories/stampbook.py:101-104 | a page holds each catalogue entry at most once |
| Stampbook.Get | app/services/stampbook.py:34-57 | grouping the joined rows gives back the page's entries in order, each with its courses in order |
| Tokens.TextRoundTrip | app/deps/auth.py:43-49 | decoding inverts unpadded base64url encoding for all bytes |
| Tokens.SignedHasThreeParts | app/deps/auth.py:52-64 | a signed token splits at dots into exactly header, payload and signature |
| Tokens.VerifySigned | app/deps/auth.py:67-95 | a signed token is accepted as its user exactly while it has not expired, if the id is positive |
| Tokens.AcceptedIsSigned | app/deps/auth.py:68-78 | an accepted token carries the keyed hash of its own first two parts |

## Left out

- HTTP, object storage, mail, OAuth, weather and the language model itself: only their results enter, as arbitrary
  inputs or failures; routes, schemas and administration views.
- The wording of titles, summaries and reasons beyond the planner's own reasons, and the weather part of a
  recommendation.
- Floating-point rounding of distances, times and scores: real numbers stand for them.
- Candidates.CoherentCandidates: the weights of the random draws do not enter, because any member of the pool may
  be drawn.
- Keyword lists, sport aliases and name normalisation are arbitrary functions or finite maps; case folding and
  database collation are not modelled.
- MySQL beyond row locks, committed or first-snapshot reads and atomic commit: gap locks, lock timeouts, and the
  wait of an account deletion, which is one step here.
- RewardTables.PassportRewardService.Claim: the second look for a claim after a refused insert is not made, because
  under the campaign lock there is none to find; campaign settings do not change during a run.
- SubmissionProtocol.RunInv: deletion of accounts, stamps and courses is not a step, and the catalogue is fixed.
- Paging.Pages: the totals a service states are assumed to stay below some bound, without which the loop need not
  end.
- Retries, conversion of the tourism service's rows to items, and filling in missing addresses: an item's values
  are arbitrary. Sync timestamps and error texts.
- ActivitySync.NotesOutlastEvents: items are assumed to carry none of the organizer's own keys, as the tourism
  converter never writes them.
- SyncStability.SecondRunChangesNothing: one row without an external id at most for each file source is assumed,
  since with more it fails.
- SyncStability.RunTwice: when days have come between the runs, the festival list is assumed to name each festival
  once, its items carrying neither the organizer's keys nor a failed route lookup, which the converter never adds.
- Tokens.VerifySigned: JSON text and decimal numbers are given as functions that undo each other; non-finite
  numbers in a token's subject are not modelled.
- Generic create, read, update and delete services, saved activities, follows, likes, comments and profiles: they
  would add only easy members.
