# Verified models of the map's protocols, estimator and text handling

This project models the parts of the mobile-network map whose correctness is hard to see from the code, and proves
their properties in Dafny: the protocols that several server instances run over one Redis key, the algorithms of the
site estimator, the parsers, printers and sanitisers, and two fast forms that must agree with a simple rule.

`dafny verify dfyconfig.toml` checks everything.

## What is where

| files | part of the system |
|---|---|
| `RedisLock`, `Scheduler`, `SchedulerSafety`, `SchedulerInPlace`, `SchedulerRuns`, `SchedulerRefreshes`, `SchedulerElections`, `SchedulerSeries` | scheduler leadership by an expiring lock: any number of instances, their timers, terms, calls and task runs, over all runs |
| `StaleCache`, `StaleCacheRuns`, `StaleCacheResults` | stale-while-revalidate caching under a token lock, over all interleavings of callers |
| `Idempotency`, `IdempotencyRuns`, `IdempotencyReplays` | idempotent replay of POST requests, over all runs |
| `GoldenSection`, `StartingPoints`, `RefinedStarts`, `Sorting`, `AngularCoverage`, `Grouping`, `GroupCosts` | the estimator: golden-section search, the multi-start grid search, angular coverage, greedy grouping |
| `ClfTokenizer`, `ClfTokens`, `ClfRenderer`, `ClfShown` | description templates: tokenizer, renderer with its blanking scan, compiler |
| `CsvReader`, `CsvRoundTrip` | the chunked CSV reader, and a printer of which it is the inverse |
| `SensitiveKeys`, `ObjectGraphs`, `Redaction`, `RedactedGraphs` | the redacting copy of an object graph with sharing and cycles |
| `BatchDocument`, `BatchRanges`, `BatchAccounting`, `BatchLimits` | the range sanitiser of uploaded batches, with exact counts, and its ranges as inequalities |
| `TTLCache`, `TTLCacheRuns` | the cache bounded in entries and size, with expiry and recency order |
| `BandCatalog` | channel ranges against the frequency rule of each channel (section 5.4.2.1 of 3GPP TS 38.104) |
| `Ipv6Text` | IPv6 compression (sections 4.1 to 4.3 of RFC 5952) |
| `Options`, `Sequences` | an optional value and a fact about sequences that the others share |

Code that changes state in place is a class whose methods are proved equal to functions on the state and keep the
invariant of the class; the properties are lemmas about those functions. For the protocols a run is a sequence of states
and actions: a callback or the stretch of code between two awaits is one action, Redis carries out a command in an
action of its own, and answers may come late or never.

## Model

| member | source | states |
|---|---|---|
| RedisLock.LockKey.TryAcquire | apps/server/src/lib/redisLock.ts:6-12 | takes the key exactly when nobody holds it unexpired, and says so |
| RedisLock.LockKey.RefreshOwned | apps/server/src/lib/redisLock.ts:14-17 | extends the hold exactly when the caller's own token is there unexpired |
| RedisLock.LockKey.ReleaseOwned | apps/server/src/lib/redisLock.ts:19-22 | frees the key exactly when the caller's own token is there unexpired |
| RedisLock.LockHasOneHolder | apps/server/src/lib/redisLock.ts:6-22 | the lock is taken exactly while nobody holds it and moved or given back exactly by its holder; taken or moved it is held for its seconds and no longer, and what fails changes nothing |
| SchedulerInPlace.SchedulerProcess.ArmRun | apps/server/src/index.ts:59-67 | a task timer is armed and recorded in its term, or nothing happens once the term has ended |
| SchedulerInPlace.SchedulerProcess.EndSchedulerTerm | apps/server/src/index.ts:77-81 | the loop disarms every timer of the term and nothing else |
| SchedulerInPlace.SchedulerProcess.StartTerm | apps/server/src/index.ts:154-171 | a new current term with its renewal interval and the first timer of every series |
| SchedulerInPlace.SchedulerProcess.TimerFires | apps/server/src/index.ts:62-65 | a task timer leaves its set before the run asks for a renewal; an election timer asks for the lock unless stopping |
| SchedulerInPlace.SchedulerProcess.IntervalFires | apps/server/src/index.ts:157-159 | each turn of the interval asks for a renewal, whether or not the last one was answered |
| SchedulerInPlace.SchedulerProcess.RunGoesOn | apps/server/src/index.ts:70-75 | the task starts only with a renewal in an active term, else the series is armed again after the retry delay |
| SchedulerInPlace.SchedulerProcess.IntervalGoesOn | apps/server/src/index.ts:159-165 | a failed renewal ends an active term once, and the next election is armed |
| SchedulerInPlace.SchedulerProcess.ElectionGoesOn | apps/server/src/index.ts:173-185 | the lock, or else the renewal of a lock already held, opens a term; else the election is armed again |
| SchedulerInPlace.SchedulerProcess.AnswerArrives | apps/server/src/index.ts:55-57 | an answered call goes on where it awaited, once |
| SchedulerInPlace.SchedulerProcess.TaskEnds | apps/server/src/index.ts:72-73 | a finished task arms its series again after the interval, whether it failed or not |
| SchedulerInPlace.SchedulerProcess.Stop | apps/server/src/index.ts:187-192 | the first stop ends the current term and sends the release, a second one does nothing |
| SchedulerProcessSafety.OnTimerKeeps | apps/server/src/index.ts:62-65 | a fired timer keeps one term at most, series apart, and timer sets true |
| SchedulerProcessSafety.OnAnswerKeeps | apps/server/src/index.ts:69-75 | so does every answer, also of renewals that overlap or that come after the term has ended |
| SchedulerProcessSafety.OnStopKeeps | apps/server/src/index.ts:187-192 | so does a stop |
| SchedulerRuns.StepKeepsInvariant | apps/server/src/index.ts:55-81 | every action keeps lock, log, calls and processes in agreement |
| SchedulerRuns.RunKeepsInvariant | apps/server/src/index.ts:55-81 | so that they agree in every state of every run |
| SchedulerRuns.TaskStartsAreSeparated | apps/server/src/index.ts:69-75 | every task start follows a granted owner-checked refresh of its instance; between those behind starts of two instances the earlier one released the lock or let 30 s pass since its last refresh |
| SchedulerRefreshes.TaskStartsHaveTheirOwnRefresh | apps/server/src/index.ts:69-73 | in every run each task start has a granted refresh of its own: no refresh stands behind two |
| SchedulerRuns.OneTermIsActive | apps/server/src/index.ts:150-185 | in every run at most one term of an instance is active, and no series is in two places at once |
| SchedulerSeries.EverySeriesGoesOn | apps/server/src/index.ts:59-75 | in every state of every run each series of an active term is armed, awaits its renewal or works, and is so in one place only; the renewing interval runs |
| SchedulerSeries.TasksAreRepeated | apps/server/src/index.ts:72-73 | when a task of an active term ends, its series is armed for the end of the task plus the interval of its series |
| SchedulerSeries.RenewedRunsStart | apps/server/src/index.ts:69-75 | with its renewal granted a run starts its task and the log says so; otherwise it is armed again after the interval or a minute, whichever is less, and in an ended term nothing happens |
| SchedulerSeries.TimersAsk | apps/server/src/index.ts:59-70 | a due run asks for a renewal with the series and interval of the schedule, and a due election for the lock unless the process is stopping |
| SchedulerSeries.LockIsRenewed | apps/server/src/index.ts:157-168 | the interval asks for a renewal every 15 s; one that fails ends an active term, stops the interval and arms an election in 30 s |
| SchedulerSeries.ElectionsGoOn | apps/server/src/index.ts:150-185 | a won election opens a current term with every series armed for its first delay and a renewal in 15 s; a refused lock is followed by a renewal, and a refused renewal by an election in 30 s |
| SchedulerSeries.InstancesComeAndGo | apps/server/src/index.ts:173-192 | an instance asks for the lock when it starts; the first stop ends its term and sends the release, and a second one changes nothing |
| SchedulerRuns.EndedTermStaysQuiet | apps/server/src/index.ts:77-81 | after a term has ended its timer set is empty and none of its timers is armed, for the rest of the run |
| SchedulerRuns.EndedTermStartsNothing | apps/server/src/index.ts:69-75 | after a term has ended none of its tasks starts, runs that awaited a renewal included |
| SchedulerElections.InstanceStaysInElection | apps/server/src/index.ts:150-185 | an instance that is not stopping always has an active term, an election to come or one in flight: it never drops out |
| SchedulerElections.TermsOpenByElection | apps/server/src/index.ts:173-185 | an action opens a term if and only if it is the answer that wins an election in flight, stopping or not |
| SchedulerElections.StoppedOpensNoTerm | apps/server/src/index.ts:173-174 | a stopping instance without an election in flight opens no term any more |
| SchedulerElections.ElectionOutlivesStop | apps/server/src/index.ts:176-184 | with one in flight it does when the election is won: stopping does not call it off |
| SchedulerElections.StoppedOpensByElection | apps/server/src/index.ts:173-192 | over a run a stopping instance opens a term if and only if it wins an election that was in flight, and at most one |
| SchedulerElections.StopIsFinalUnlessWinnable | apps/server/src/index.ts:173-192 | some continuation of the run opens a term after the stop if and only if an election in flight can still be won: granted, asking for the lock, or with a renewal to come of a lock it holds or has asked for |
| SchedulerElections.PlayedIsRun | apps/server/src/index.ts:173-192 | and every such continuation is a run |
| SchedulerElections.TermOpensAfterStop | apps/server/src/index.ts:173-192 | a run of four actions in which it happens: boot, stop, grant, answer |
| StaleCache.Call.FirstReadDone | apps/server/src/lib/staleCache.ts:65-72 | a fresh envelope is returned as it is, else the caller goes for the lock |
| StaleCache.Call.LockAnswered | apps/server/src/lib/staleCache.ts:74-82 | without the lock a cached value is returned stale, else the caller waits, or loads past the deadline |
| StaleCache.Call.Wake | apps/server/src/lib/staleCache.ts:50-51 | after the sleep the key is read again, within the same turn |
| StaleCache.Call.Polled | apps/server/src/lib/staleCache.ts:45-57 | a value found while waiting is returned with its staleness, else the wait goes on |
| StaleCache.Call.Loaded | apps/server/src/lib/staleCache.ts:85-94 | an accepted value is written, a rejected one gives way to the cached value |
| StaleCache.Call.WriteAnswered | apps/server/src/lib/staleCache.ts:94-98 | a failed write gives way to the cached value |
| StaleCache.Call.Leave | apps/server/src/lib/staleCache.ts:99-101 | the lock is released exactly when this caller took it |
| StaleCache.Call.ReleaseAnswered | apps/server/src/lib/staleCache.ts:100-100 | the call ends as decided, whether or not the release succeeded |
| StaleCacheRuns.RunKeepsInvariant | apps/server/src/lib/staleCache.ts:59-102 | the invariant behind the results below holds in every state of every run |
| StaleCacheResults.StoredValuesWereAccepted | apps/server/src/lib/staleCache.ts:84-95 | whatever is stored was loaded by a caller whose `shouldCache` accepted it, fresh until that caller's `freshTtlSeconds` after the load; a value that a caller returns as its own its loader produced, and if acceptable it was stored |
| StaleCacheResults.StaleIsToldTruly | apps/server/src/lib/staleCache.ts:65-79 | a result from the cache is marked stale if and only if the loading caller's `freshTtlSeconds` have passed since the load when the call is decided |
| StaleCacheResults.FailuresHaveCauses | apps/server/src/lib/staleCache.ts:65-98 | a call fails only at the failed request or loader that the failure names, and one that found an envelope only where the request for the lock fails |
| StaleCacheResults.NobodyIsStuck | apps/server/src/lib/staleCache.ts:65-100 | in every state a caller has ended, sleeps, loads, or awaits the one request that its place in the code sends |
| StaleCacheResults.AnswersAreFollowed | apps/server/src/lib/staleCache.ts:65-100 | what each answer leads to: a fresh envelope ends the call, a refused lock the stale one, a wait of 150 ms or the load, a granted one the load, a written value is returned, and a taken lock is given back first |
| StaleCacheResults.TheRestIsFollowed | apps/server/src/lib/staleCache.ts:84-101 | what a failed answer and the end of a loader lead to: an accepted value is written as fresh for `freshTtlSeconds` from now, otherwise the call falls back on its envelope |
| StaleCacheResults.RequestsAreCarriedOut | apps/server/src/lib/staleCache.ts:72-100 | the key lives for `staleTtlSeconds`, the lock for `lockTtlSeconds`, and what a read finds is unexpired text that is an envelope |
| StaleCacheResults.WaitIsBounded | apps/server/src/lib/staleCache.ts:45-82 | no caller waits longer than one turn past its wait deadline, and one poll |
| StaleCacheResults.LoadersExcludeEachOther | apps/server/src/lib/staleCache.ts:71-82 | of two callers that load at once, one passed its wait deadline or lost its lock to the clock |
| StaleCacheResults.OnlyTheOwnerFrees | apps/server/src/lib/staleCache.ts:99-101 | an unexpired lock is freed only by its owner's own release, sent when it was leaving |
| Idempotency.Middleware.IdempotencyHook | apps/server/src/middlewares/idempotency.middleware.ts:66-82 | which requests take part, and the claim they send |
| Idempotency.Middleware.SetAnswered | apps/server/src/middlewares/idempotency.middleware.ts:80-92 | a granted claim is held, a refused one is looked up, a failed one is ignored |
| Idempotency.Middleware.GetAnswered | apps/server/src/middlewares/idempotency.middleware.ts:92-100 | another fingerprint is refused, no answer is a duplicate, an answer is replayed |
| Idempotency.Middleware.RememberIdempotentAnswer | apps/server/src/middlewares/idempotency.middleware.ts:103-114 | a holder's response is kept or its key deleted, once |
| IdempotencyRuns.ReplayedAnswersWereGiven | apps/server/src/middlewares/idempotency.middleware.ts:92-112 | in every run, holds lapsed or not, a replayed answer is what another request with the same caller, path, key and content was given and kept |
| IdempotencyRuns.KeysAreTrue | apps/server/src/middlewares/idempotency.middleware.ts:32-37 | the key of a request is made of its own caller, path and header |
| IdempotencyRuns.StepKeepsOrder | apps/server/src/middlewares/idempotency.middleware.ts:80-90 | for one key: where Redis answers requests with it and their writes land within the hold, every action keeps its holders apart |
| IdempotencyRuns.PunctualRunKeepsOrder | apps/server/src/middlewares/idempotency.middleware.ts:66-114 | so they are apart in every state up to which the run was punctual for the key, whatever becomes of other keys |
| IdempotencyRuns.OneHandlerPerKey | apps/server/src/middlewares/idempotency.middleware.ts:87-94 | as long as a run is punctual for a key, at most one handler runs for it, and none while an answer is kept for it |
| IdempotencyRuns.KeptAnswerStays | apps/server/src/middlewares/idempotency.middleware.ts:103-114 | and nothing but the clock takes or changes its kept answer |
| IdempotencyReplays.RepeatsAreReplayed | apps/server/src/middlewares/idempotency.middleware.ts:80-100 | from the moment an answer is kept until it expires, every request with the key that arrives is given that very answer if its content is the same, is told that the key was used before if not, and runs no handler; for runs punctual for the key |
| IdempotencyReplays.AnswersAreFollowed | apps/server/src/middlewares/idempotency.middleware.ts:80-100 | in every run: a granted claim is held, a refused one looks the key up, without an answer the handler runs; same content and a kept answer are replayed, other content is key reuse, anything else a duplicate |
| IdempotencyReplays.ResponsesAreKept | apps/server/src/middlewares/idempotency.middleware.ts:103-114 | a holder's response sends the kept answer with its content, or the removal of the key, and gives up the hold |
| IdempotencyReplays.CommandsAreCarriedOut | apps/server/src/middlewares/idempotency.middleware.ts:80-114 | a claim takes a free key for 30 s, a kept answer stands for a day, and what a look finds is unexpired and readable |
| IdempotencyReplays.NobodyIsStuck | apps/server/src/middlewares/idempotency.middleware.ts:80-92 | a request that waits has sent the command that it waits for |
| IdempotencyReplays.ArrivalsClaimTheirKeys | apps/server/src/middlewares/idempotency.middleware.ts:66-82 | a POST with a key and a caller, not yet answered and with Redis there, claims its key; all others go on to their handlers or were answered |
| IdempotencyReplays.KeysOfRequests | apps/server/src/middlewares/idempotency.middleware.ts:66-78 | the key of a request is its caller, path and header, and it has one exactly if it is a POST with both |
| IdempotencyReplays.CallersAreToldApart | apps/server/src/middlewares/idempotency.middleware.ts:32-37 | two requests have the same caller text if and only if they have the same caller, or one OAuth client is the other, a colon and the beginning of the other's user |
| IdempotencyReplays.UsersOfTwoClientsMayCollide | apps/server/src/middlewares/idempotency.middleware.ts:32-33 | two users of two clients, one with a colon, that have the same caller text |
| IdempotencyReplays.WhatIsKept | apps/server/src/middlewares/idempotency.middleware.ts:48-64 | an answer is kept if and only if replay is allowed, the status is a success or a refusal other than 429, and the body is absent or a text of at most 64 KiB; with it the two headers where they are text |
| IdempotencyReplays.LengthsAdd | apps/server/src/middlewares/idempotency.middleware.ts:55-55 | the length of a text is the sum of the UTF-8 lengths of its characters |
| GoldenSection.GoldenMinimum | engine/crates/estimate/src/search.rs:108-129 | the loop evaluates the cost at exactly the listed probes, in order, and gives the cheaper probe of the 24-round search |
| GoldenSection.SearchKeepsGoldenPoints | engine/crates/estimate/src/search.rs:113-127 | both probes stay at the golden points of a bracket that shrinks by the ratio each round |
| GoldenSection.SearchKeepsMinimiser | engine/crates/estimate/src/search.rs:113-127 | for every strictly unimodal cost the minimiser stays in the bracket |
| GoldenSection.ResultIsNearMinimiser | engine/crates/estimate/src/search.rs:108-129 | and the result is within ratio^26 of the initial width of it, sharper than ratio^24 |
| GoldenSection.ResultIsCheapestProbe | engine/crates/estimate/src/search.rs:108-129 | for any cost the result is the cheapest of those probes, 26 in all |
| StartingPoints.StartingPointsOf | engine/crates/estimate/src/search.rs:69-106 | minima, sort, truncation, refinement, second sort and the selection loop, one after the other, give the specified points |
| StartingPoints.FirstMinimumIsCheapest | engine/crates/estimate/src/search.rs:74-84 | the cheapest grid cell is a local minimum, and comes first |
| StartingPoints.MinimaAreTheCheapest | engine/crates/estimate/src/search.rs:82-84 | a local minimum that does not go on costs at least as much as each of the ten that do |
| StartingPoints.FirstRefinedIsCheapest | engine/crates/estimate/src/search.rs:86-97 | the first refined candidate costs no more than any coarse grid point |
| StartingPoints.FineGridHoldsItsCentre | engine/crates/estimate/src/search.rs:90-94 | refining never raises the cost, as the fine grid holds the coarse point |
| StartingPoints.SelectionIsApart | engine/crates/estimate/src/search.rs:99-104 | the kept points are pairwise at least 500 m apart and start with the cheapest |
| StartingPoints.CandidateIsKeptOrRejectedForCause | engine/crates/estimate/src/search.rs:100-104 | a rejected candidate lies within 500 m of a kept one of no greater cost, or came after five |
| StartingPoints.StartingPointsAreGood | engine/crates/estimate/src/search.rs:69-106 | all of this together, for every area and cost: 1 to 5 points, apart, the first no dearer than any grid point |
| RefinedStarts.StartsAreRefinedMinima | engine/crates/estimate/src/search.rs:69-106 | for every area and cost each of the 1 to 5 starts is the cheapest of the 81 points around a coarse point that no neighbour undercuts, the first of equally cheap ones; the better start comes first, none lies within 500 m of another, and the first costs no more than any coarse point |
| RefinedStarts.CandidatesAreRefinedMinima | engine/crates/estimate/src/search.rs:86-97 | so is every candidate before the selection |
| RefinedStarts.MinimaAreRefined | engine/crates/estimate/src/search.rs:82-96 | every coarse point that no neighbour undercuts gives a candidate, unless ten come from cheaper ones, or from equally cheap ones before it in the grid |
| RefinedStarts.RejectedIsRuledOut | engine/crates/estimate/src/search.rs:99-104 | a candidate that is no start has one of no greater cost within 500 m, or five starts of no greater cost |
| Sorting.SortedIsSorted | engine/crates/estimate/src/search.rs:83-97 | the sort by a total order sorts; that it permutes is part of its contract |
| AngularCoverage.LargestGapIsLargest | engine/crates/estimate/src/estimate.rs:132-134 | the folded maximum is one of the gaps and bounds them all |
| AngularCoverage.CoverageIsReached | engine/crates/estimate/src/estimate.rs:131-134 | the arc behind the largest gap, the one across north included, holds all bearings |
| AngularCoverage.CoverageIsLeast | engine/crates/estimate/src/estimate.rs:131-134 | no arc that holds all bearings is narrower |
| AngularCoverage.CoverageIsSmallestArc | engine/crates/estimate/src/estimate.rs:126-135 | for bearings in any order the coverage is the width of the smallest arc that holds them all |
| Grouping.Combine | engine/crates/estimate/src/group.rs:17-35 | the loop with its running offset gives the combined site |
| Grouping.CombinedKeepsTargets | engine/crates/estimate/src/group.rs:20-28 | every handover of the combined site points at its own site's cells |
| Grouping.CombinedAddsNoHandover | engine/crates/estimate/src/group.rs:23-27 | and there is no other handover |
| Grouping.JointCostOf | engine/crates/estimate/src/group.rs:44-54 | the sum over the members with their own parameters, or none as soon as one is missing |
| Grouping.FormGroups | engine/crates/estimate/src/group.rs:62-85 | the loop gives the specified groups |
| Grouping.GroupsPartitionTheSites | engine/crates/estimate/src/group.rs:62-85 | every site index is in exactly one group, members strictly increasing, no group empty |
| Grouping.SiteIsPlaced | engine/crates/estimate/src/group.rs:65-82 | seen from the final groups: every earlier group, cut to its members before the site, refused it; its own, so cut, took it in; if that was empty no later group was there |
| Grouping.JoiningCostsLittle | engine/crates/estimate/src/group.rs:13-15 | an accepted excess is at most twice the squared joint ellipse scale |
| Grouping.GroupsAreWellCosted | engine/crates/estimate/src/group.rs:65-82 | a group's cost is at most its members' own costs plus 2 times the squared scales of its joins |
| GroupCosts.SitesJoinExactly | engine/crates/estimate/src/group.rs:65-73 | a site joins a group if and only if they lie within their uncertainties, all have a joint estimate and a joint cost, and the cost exceeds the parts' by at most twice the squared scale, or is below theirs where the scale is 0 |
| GroupCosts.JoinsExactlyBelow | engine/crates/estimate/src/group.rs:13-15 | the threshold on the tempered excess, without the division |
| GroupCosts.JointCostIsSum | engine/crates/estimate/src/group.rs:44-54 | the joint cost is the sum of each member's cost at the joint place with its own slice of the parameters, and there is none if and only if a member has none |
| GroupCosts.CombinedHoldsAll | engine/crates/estimate/src/group.rs:17-35 | the combined site has the cells of every site in turn and no others, and the largest contributor and person counts |
| ClfTokens.MatchAtFindsTheMatch | packages/shared/src/clfExportTemplates.ts:173-174 | the greedy matcher finds exactly the matches of the two regular expressions |
| ClfTokenizer.TokenizeSegment | packages/shared/src/clfExportTemplates.ts:180-196 | the loop over the matches gives the specified tokens |
| ClfTokenizer.TokenizeTemplate | packages/shared/src/clfExportTemplates.ts:198-214 | the same one level up |
| ClfTokens.TemplateIsLossless | packages/shared/src/clfExportTemplates.ts:180-214 | printing the key tokens gives the template back |
| ClfTokens.TemplateIsWellFormed | packages/shared/src/clfExportTemplates.ts:180-214 | no literal is empty, no two are adjacent, no group holds a group |
| ClfTokens.TemplateIsComplete | packages/shared/src/clfExportTemplates.ts:180-214 | no literal holds a variable, every value is a key, and no group is left between the groups |
| ClfRenderer.RunEnd | packages/shared/src/clfExportTemplates.ts:242-253 | the inner scan terminates at the end of the dropped run |
| ClfRenderer.BlankRun | packages/shared/src/clfExportTemplates.ts:255-265 | which literals one run blanks |
| ClfRenderer.Scan | packages/shared/src/clfExportTemplates.ts:235-268 | the in-place scan gives the closed form: a literal is blanked exactly before a dropped value, or when it is blank and follows a dropped run from token 0 |
| ClfRenderer.RunIsScanned | packages/shared/src/clfExportTemplates.ts:241-267 | one turn of the scan, from what is blanked before to what is blanked after |
| ClfRenderer.RenderTokens | packages/shared/src/clfExportTemplates.ts:231-271 | rendering is the closed form, groups included |
| ClfRenderer.EvaluateTokens | packages/shared/src/clfExportTemplates.ts:216-224 | a group is rendered inside out and dropped when it renders to nothing |
| ClfRenderer.RenderTemplate | packages/shared/src/clfExportTemplates.ts:274-276 | tokenizing and rendering one after the other give the specified text |
| ClfRenderer.KeptValueIsShown | packages/shared/src/clfExportTemplates.ts:231-271 | every value that is not dropped appears, in order |
| ClfShown.TokensAreShown | packages/shared/src/clfExportTemplates.ts:216-272 | rendering joins, token by token, the text of each value, each group that shows something between brackets, and each literal but one before a gone token or a blank one after tokens gone from the start |
| ClfShown.MatchesAreSpelled | packages/shared/src/clfExportTemplates.ts:173-174 | what counts as a variable and as a bracket group, character by character |
| ClfRenderer.TemplateIsResolved | packages/shared/src/clfExportTemplates.ts:280-286 | resolving the key tokens gives the tokens of a direct run |
| ClfRenderer.CompiledRendersTheSame | packages/shared/src/clfExportTemplates.ts:274-291 | compiling and applying equals rendering, for every template and value function |
| CsvReader.Reader.Consume | packages/country-packs/core/csv.ts:10-38 | one chunk takes the state machine over all its characters and yields its rows |
| CsvReader.Reader.ReadRows | packages/country-packs/core/csv.ts:3-45 | the rows of a chunked text are those of the whole text, however it is cut |
| CsvReader.ReadJoins | packages/country-packs/core/csv.ts:10-38 | reading a text in two parts is reading it at once |
| CsvRoundTrip.PrintedIsParsed | packages/country-packs/core/csv.ts:10-45 | what any printed text gives back: quoted or plain fields, CR LF or LF, with or without an unterminated last row |
| CsvRoundTrip.RoundTripsExactly | packages/country-packs/core/csv.ts:29-43 | the rows come back if and only if none is empty, no LF-ended row's last field ends in CR, and the unterminated row is not one empty field |
| CsvRoundTrip.ReturnIsLost | packages/country-packs/core/csv.ts:29-33 | a row that does not come back: one quoted field that ends in CR, before a bare LF |
| CsvRoundTrip.EmptyRowIsLost | packages/country-packs/core/csv.ts:41-44 | nor does an unterminated row of one empty field |
| CsvRoundTrip.TailAfterQuotesIsKept | packages/country-packs/core/csv.ts:12-35 | text after a closing quote belongs to the field |
| CsvRoundTrip.OpenQuoteTakesTheRest | packages/country-packs/core/csv.ts:20-44 | a quote left open takes the rest of the text |
| CsvRoundTrip.QuotedRowsComeBack | packages/country-packs/core/csv.ts:3-45 | quoting everything with CR LF ends (section 2 of RFC 4180) loses nothing, in any chunks, if and only if no row is empty |
| SensitiveKeys.FragmentAnywhereIsSensitive | apps/server/src/utils/logger.ts:44-47 | a fragment anywhere in a key, in any case and with any separators, makes it sensitive |
| SensitiveKeys.SpellingIsIgnored | apps/server/src/utils/logger.ts:44-47 | capitals and separators make no difference |
| SensitiveKeys.KeysAreSensitiveExactly | apps/server/src/utils/logger.ts:44-47 | a key is sensitive if and only if its letters and digits in small letters are one of the two names or hold a fragment |
| SensitiveKeys.ShortKeysAreShown | apps/server/src/utils/logger.ts:44-47 | a key with fewer than three letters and digits is always shown |
| Redaction.Redactor.Redact | apps/server/src/utils/logger.ts:56-60 | terminates, leaves half-built copies alone, and gives the image of the value |
| Redaction.Redactor.RedactError | apps/server/src/utils/logger.ts:62-78 | the copy of an error is its image, cause and own properties included |
| Redaction.Redactor.RedactList | apps/server/src/utils/logger.ts:80-85 | the copy of an array is its image |
| Redaction.Redactor.RedactRecord | apps/server/src/utils/logger.ts:87-95 | the copy of an object is its image |
| Redaction.Redactor.RedactEntries | apps/server/src/utils/logger.ts:72-75 | the loop writes every property over what stood there, redacted or replaced |
| ObjectGraphs.ImageOfStays | apps/server/src/utils/logger.ts:87-95 | an image does not change once all its links are seen |
| ObjectGraphs.ReachableIsLeast | apps/server/src/utils/logger.ts:91-93 | what shown keys reach is the least closed set |
| RedactedGraphs.RedactSensitiveData | apps/server/src/utils/logger.ts:56-96 | exactly the objects reachable through shown keys are copied, once each, and every copy is the image of its object |
| RedactedGraphs.HiddenKeysAreRedacted | apps/server/src/utils/logger.ts:72-93 | the placeholder stands under every sensitive key of a finished copy, and under `params` of an error |
| RedactedGraphs.WalkIsPreserved | apps/server/src/utils/logger.ts:56-96 | whatever a walk along shown keys finds in the input, the same walk finds its image in the copy |
| RedactedGraphs.SharingIsPreserved | apps/server/src/utils/logger.ts:60-93 | two walks meet in the copy exactly when they meet in the input: sharing and cycles survive |
| RedactedGraphs.CopiesAreSafe | apps/server/src/utils/logger.ts:56-96 | every text of a copy is the redacted text of the same step in the input or the placeholder, but an error's name under `name` and an empty stack under `stack` |
| RedactedGraphs.CopiesShowExactly | apps/server/src/utils/logger.ts:56-96 | what stands under each key and index of a finished copy: the placeholder exactly under sensitive keys and an error's `params`, otherwise the redacted text, the object's copy or the value itself |
| RedactedGraphs.WalkFollowsWhatIsShown | apps/server/src/utils/logger.ts:70-93 | the walk goes on to exactly the objects under shown keys, in arrays and in `cause` |
| BatchDocument.AcceptedIsBounded | engine/crates/batch/src/structure.rs:50-150 | the checks accept exactly the documents within the limits and the span, with positive bands and bandwidths, no negative accuracy, and every reader and cell index inside its list |
| BatchDocument.SpanIsLargestDistance | engine/crates/batch/src/structure.rs:58-63 | the folded span keeps the limit exactly when no two times lie further apart |
| BatchRanges.DroppedValues.Add | engine/crates/batch/src/dropped_values.rs:150-154 | one counter goes up by the count, the others stay, and 32 bits must hold it |
| BatchRanges.Keep | engine/crates/batch/src/ranges.rs:169-187 | a value out of range goes and is counted once |
| BatchRanges.DropForeign | engine/crates/batch/src/ranges.rs:176-180 | a value of another technology goes and is counted once |
| BatchRanges.CheckValues | engine/crates/batch/src/ranges.rs:132-145 | the loop over the fields leaves exactly the admitted values and counts exactly the refused ones |
| BatchRanges.KeepBands | engine/crates/batch/src/ranges.rs:189-195 | the bands in range stay in order, the others are counted |
| BatchRanges.KeepFix | engine/crates/batch/src/ranges.rs:79-91 | a fix with a bad coordinate goes, and only its bad coordinates are counted |
| BatchRanges.CheckCell | engine/crates/batch/src/ranges.rs:93-130 | a cell keeps what its technology's ranges admit |
| BatchRanges.CheckSignal | engine/crates/batch/src/ranges.rs:132-145 | a measurement keeps what its cell's technology has and admits |
| BatchRanges.CountsFit | engine/crates/batch/src/limits.rs:3-5 | no count of an accepted document passes 1,405,000, far below 32 bits |
| BatchRanges.Batch.RetainFixes | engine/crates/batch/src/ranges.rs:65-65 | the retained fixes are the placed ones, sanitised, in order |
| BatchRanges.Batch.CheckCells | engine/crates/batch/src/ranges.rs:66-68 | all cells in place |
| BatchRanges.Batch.CheckSnapshots | engine/crates/batch/src/ranges.rs:69-75 | all measurements in place, no index outside the cell list |
| BatchRanges.Batch.DropOutOfRange | engine/crates/batch/src/ranges.rs:63-77 | an accepted batch becomes its sanitised form, with the specified counts and no overflow |
| BatchAccounting.SanitisedIsClean | engine/crates/batch/src/ranges.rs:63-195 | only values in range are left, each for the technology of its own cell |
| BatchLimits.WhatIsInRangeStands | engine/crates/batch/src/ranges.rs:20-195 | by ranges written out apart from the sanitiser's tables: of a document the fixes on earth stay in order, and all cells and measurements with exactly the values, and of the bands exactly those in order, that lie in the ranges of their technology |
| BatchLimits.CellStandsInRange | engine/crates/batch/src/ranges.rs:93-130 | for one cell |
| BatchLimits.SnapshotStandsInRange | engine/crates/batch/src/ranges.rs:132-145 | for the measurements of a snapshot, by the technology of each one's cell |
| BatchLimits.FixInRangeStands | engine/crates/batch/src/ranges.rs:79-91 | for one fix and its coordinates |
| BatchAccounting.CountsAreExact | engine/crates/batch/src/ranges.rs:63-195 | per field, the count is what the kept records lost plus the bad coordinates of the removed fixes |
| BatchAccounting.SecondPassIsIdle | engine/crates/batch/src/ranges.rs:63-195 | a second pass changes and counts nothing, and a first one changes nothing if and only if all is in range |
| TTLCache.BoundedTTLCache.Create | apps/server/src/lib/boundedTTLCache.ts:16-23 | limits that are no positive safe integers are refused |
| TTLCache.BoundedTTLCache.Get | apps/server/src/lib/boundedTTLCache.ts:25-38 | a hit moves its entry to the end, an expired entry goes, and the limits hold |
| TTLCache.BoundedTTLCache.Set | apps/server/src/lib/boundedTTLCache.ts:40-57 | the guards, the eviction loop with its unreachable break, and the new entry; the limits hold |
| TTLCache.BoundedTTLCache.Remove | apps/server/src/lib/boundedTTLCache.ts:59-62 | a key that is there goes and the given size comes off; for the entry stored under it the sizes stay true |
| TTLCache.EvictedIsShortestPrefix | apps/server/src/lib/boundedTTLCache.ts:49-53 | eviction takes the shortest least recently used prefix that makes room, and there always is one |
| TTLCache.SetLeavesSuffix | apps/server/src/lib/boundedTTLCache.ts:43-56 | an accepted set leaves the rest in order behind that prefix, and its own entry last |
| TTLCache.GetKeepsSound | apps/server/src/lib/boundedTTLCache.ts:25-38 | total size is the sum of sizes, limits hold and keys are distinct after a get |
| TTLCache.SetKeepsSound | apps/server/src/lib/boundedTTLCache.ts:40-57 | and after a set |
| TTLCacheRuns.RunIsSound | apps/server/src/lib/boundedTTLCache.ts:25-62 | and after any sequence of both, at any clock |
| TTLCacheRuns.MapIsInRecencyOrder | apps/server/src/lib/boundedTTLCache.ts:35-55 | map order is the order of last uses, and every entry is that of the latest accepted set of its key |
| TTLCacheRuns.KeyStaysUntilLost | apps/server/src/lib/boundedTTLCache.ts:25-62 | a key is there if and only if it was set and no later operation evicted it or found it expired |
| TTLCacheRuns.StoredIsFound | apps/server/src/lib/boundedTTLCache.ts:26-55 | what stands under a key is what the latest accepted set of it stored |
| TTLCacheRuns.HitIsLatestSet | apps/server/src/lib/boundedTTLCache.ts:25-38 | a get hits if and only if the latest accepted set is neither lost nor expired, and gives its value and remaining time |
| TTLCacheRuns.SetReplacesIfAccepted | apps/server/src/lib/boundedTTLCache.ts:40-57 | a set replaces the entry of its key if and only if its time to live is positive and its size is known, not negative and within the limit |
| TTLCacheRuns.RejectedSetLeavesOld | apps/server/src/lib/boundedTTLCache.ts:40-44 | after a rejected second set the value of the first is still hit |
| BandCatalog.FindChannelKhz | packages/shared/src/bandCatalog.ts:461-476 | the early-returning loop gives the specified frequency |
| BandCatalog.FrequenciesAreExact | packages/shared/src/bandCatalog.ts:455-476 | the frequency of a channel is that of the first block that has it, in steps of 100 or 200 kHz, and for NR that of the global raster if the band holds it; otherwise there is none |
| BandCatalog.RasterAgrees | packages/shared/src/bandCatalog.ts:490-495 | on one raster the rounded ends hold exactly the channels whose frequency lies in the band |
| BandCatalog.RangesHoldTheChannels | packages/shared/src/bandCatalog.ts:482-496 | for every band a channel lies in a range exactly when it has a frequency there |
| BandCatalog.BandsHoldTheChannel | packages/shared/src/bandCatalog.ts:478-480 | the bands of a channel are those of the technology with a range that holds it |
| BandCatalog.BandsKeepTheirOrder | packages/shared/src/bandCatalog.ts:478-480 | in catalogue order |
| BandCatalog.NrFrequencyRises | packages/shared/src/bandCatalog.ts:455-459 | NR frequencies are strictly increasing across all three rasters |
| BandCatalog.RasterHasNoGap | packages/shared/src/bandCatalog.ts:30-34 | the rasters cover 0 to 3279165 without a gap, each its own frequency range of the standard |
| BandCatalog.NrRangesAscend | packages/shared/src/bandCatalog.ts:487-495 | the ranges of an NR band are ascending and disjoint |
| Ipv6Text.FindElision | apps/client/src/lib/format.ts:124-133 | the nested loops find the specified run |
| Ipv6Text.CompressIpv6 | apps/client/src/lib/format.ts:122-137 | the text is the short form of the normalised groups |
| Ipv6Text.ElidedIsFirstLongest | apps/client/src/lib/format.ts:126-133 | the elided run is the first longest of at least two zero groups, and there is none only where no two are neighbours |
| Ipv6Text.HexIsCanonical | apps/client/src/lib/format.ts:123-123 | groups lose leading zeros and capitals |
| Ipv6Text.HexIsParsed | apps/client/src/lib/format.ts:123-123 | and keep their value |
| Ipv6Text.CompressedIsExpanded | apps/client/src/lib/format.ts:122-137 | expanding the output, as section 2.2 of RFC 4291 reads it, gives the normalised groups back |
| Ipv6Text.CompressedIsCanonical | apps/client/src/lib/format.ts:122-137 | two spellings have one short form exactly when they are one address |
| Ipv6Text.NothingIsShown | apps/client/src/lib/format.ts:139-143 | nothing is shown exactly for a missing or unspecified address, however it is spelled |
| Ipv6Text.AddressIsShown | apps/client/src/lib/format.ts:120-143 | of eight groups of up to four digits the shortest form is shown, with two colons for the first longest run of zeros; any other text as it is |
| Ipv6Text.SplitIsJoined | apps/client/src/lib/format.ts:123-123 | splitting takes the text apart at all its colons |
| Ipv6Text.JoinJoins | apps/client/src/lib/format.ts:135-136 | joining puts one colon between the parts |
| Ipv6Text.DigitsHaveTheirValues | apps/client/src/lib/format.ts:123-123 | each of the sixteen digits has its value in both cases, and each place is worth sixteen of the next |

## Left out

- User interface, routes, database queries, cryptography, decompression and JSON, whose meaning lies in libraries.
- Floating point: the estimator and the batch ranges are over the reals, without rounding, infinities or NaN. Distances are compared by their squares, and a division by a zero ellipse scale follows its sign.
- The estimator's `estimate`, its cost functions and `cost_at` are uninterpreted; the bearing of a place and the padding of the search area are inputs.
- Redis is one atomic store with expiry times. Digests of path, key, query and body are taken to tell any two apart, and writing a value as JSON to read it back.
- Clocks are one per run and do not go back, except in the cache of `TTLCache`, where each call brings its own time. A timer fires at any moment after it is due.
- What tasks, loaders and handlers do; cluster restart and worker draining; log messages.
- The interval of a term that a stop has ended goes on in the source until the process exits; it does so here too, and the exit itself is not part of the model.
- IdempotencyReplays.RepeatsAreReplayed: as OneHandlerPerKey, and until the kept answer expires.
- IdempotencyRuns.OneHandlerPerKey: only as long as Redis answers the requests with the key and each of its holders' writes lands within 30 s; the source promises no more.
- A request that is still handled when its connection breaks, and header lists; a header is present as text or not.
- BandCatalog.RangesHoldTheChannels: integers only; for other numbers the source gives no frequency. The tables of the catalogue are a parameter, and the labels and duplex modes of a band play no part.
- The text redaction by regular expressions is an uninterpreted function of a text. Getters, property order, holes in arrays and the key `__proto__` are not modelled.
- An object of the graph is an error, an array or a record of its own enumerable properties. An error's name is a text and its stack a text or missing.
- The optional numbers of a cell, measurement or fix are a map from field to number instead of one struct field each, and `check_cell`'s row of calls is a table of rules.
- BatchDocument.AcceptedIsBounded: without the checks on what the sanitiser does not read: format version, identifiers, names, dates, network codes, provenance, sims, sessions and events.
- Decoding UTF-8 and the byte order mark: CSV starts at code points. Splitting of a code point between chunks is the decoder's.
- Five claims do not hold of the code. Different callers have different keys only if no OAuth client holds a colon: `CallersAreToldApart` says exactly when, and `UsersOfTwoClientsMayCollide` shows two. A term can open after a stop: `StopIsFinalUnlessWinnable` says exactly when, and `TermOpensAfterStop` shows a run. A last field ending in CR does not survive a bare LF, and an unterminated row of one empty field is not yielded: `RoundTripsExactly` says exactly when rows come back, `ReturnIsLost` and `EmptyRowIsLost` show texts. A rejected set does not remove the old value: `SetReplacesIfAccepted` and `RejectedSetLeavesOld`.
