# Verified model of the audit engine

A Dafny model of the deterministic core of an audit-automation platform, with proofs of what
that core promises: the audit scope graph and its lifecycle, work planning, auditor
allocation, risk scoring, sampling, evidence conflicts and anomalies, the evidence hash
chain, the scope-change workflow, and the three limiters and breakers used by connectors.

Verify everything with `dafny verify dfyconfig.toml`.

## How it is modelled

- An object the program updates in place is a class with the same fields. Each of its methods
  is proved against a function on values (`Apply`, `Step`, `Refill`, `Fill`, ...), and the
  theorems are proved about runs of that function, for every sequence of calls.
- Floating-point numbers are exact reals, and results are taken before `round`. Times are
  parameters that never go back; Go durations are whole nanoseconds, and their truncation is
  modelled. Random identifiers are parameters. Concurrent calls are an arbitrary interleaving
  of critical sections: a method that lets its lock go, or makes two round trips, takes the
  calls that others make in between as a parameter.
- A raised exception or a returned error is a `Result`. A Python dictionary is a map, with its
  key order beside it where the program iterates in that order. Iteration over a set visits
  its elements in an arbitrary order.
- The digests of the hash chain are arbitrary functions. Tamper evidence is constructive: the
  proof hands over the colliding inputs.

| file | models |
|---|---|
| `Graphs.dfy` | directed graphs, colouring cycle detection, Kahn's sort, reachability |
| `Scope.dfy`, `ScopeDag.dfy` | the scope document as a value, and as a mutable object |
| `Validation.dfy`, `History.dfy`, `Workflow.dfy` | boundary rules, versions and diffs, change requests and audit trail |
| `WorkProgram.dfy`, `Allocation.dfy` | greedy planning under a budget, allocation to auditors |
| `Scorer.dfy`, `Sampler.dfy`, `Conflicts.dfy`, `Exceptions.dfy` | Bayesian scoring, sample sizes, conflicting evidence, anomaly stream |
| `Pipeline.dfy`, `Chain.dfy` | the composed reasoning run, the evidence hash chain |
| `TokenBucket.dfy`, `RateLimit.dfy` | token bucket, sliding window |
| `Breaker.dfy`, `Probes.dfy` | circuit breaker, and its probes with outcomes tied to requests |
| `Common.dfy`, `Ordering.dfy` | shared datatypes, finite sets and sequences, stable sorting |

## Where the code and its documentation disagree

The model follows the code; each disagreement is settled by a lemma.

- `generate_work_program_from_dag` is documented to respect topological order
  (`engine/economy/work_program.py:229-243`), but items are sorted by efficiency and then by
  risk (`:206`, `:218`). `AncestorListedFirstIff` says when a node precedes one below it, and
  `ChildCanComeFirst` gives an approved document where it does not.
- A rename is documented as a removal and an addition (`engine/scope/history.py:151-152`);
  the diff does not compare control ids (`:189`): `DiffIsFaithful` says what a diff shows, and
  `RenameLeavesNoTrace` what it does not.
- The package comment of the circuit breaker lists four state changes
  (`sdk/connector/circuit/breaker.go:10-15`). A late success moves Open straight to Closed
  (`:125-128`): `ChangeIsDocumentedIff`, `LateSuccessCloses`.
- A comment allows one probe at a time in half-open (`sdk/connector/circuit/breaker.go:111`),
  but any call's outcome clears the probe flag or reopens the circuit (`:126-140`). While a
  probe is out no second one can go out exactly if, when it went out, every other request let
  through had been answered: `OneProbeIff`, with `LateOutcomeFreesProbe` as an instance in
  which two probes wait for their outcome.
- `allocate_resources` is documented to return the items that could not be assigned
  (`engine/economy/resource_allocation.py:101-102`); with no auditors it returns none of them
  (`:104-105`): `AllReportedIff`.
- `Acquire` is documented to block until a token is available
  (`sdk/connector/ratelimit/token_bucket.go:56-57`). Below a burst of one it never is:
  `SleepSufficesIff`. `WaitTime` truncates to nanoseconds (`:111`), so its wait can fall short:
  `WaitTimeSufficesIff`, `WaitCanFallShort`.
- `Count` is documented as the number of requests in the window
  (`shared/cache/ratelimit.go:98-99`), but it includes the instant `Increment` prunes
  (`:57`, `:104-105`): `CountIsExact`, `CountIncludesEdge`.
- `Increment` is documented to allow at most `limit` requests in a window
  (`shared/cache/ratelimit.go:44-45`). The window is measured in whole milliseconds, so this
  holds exactly of intervals a millisecond shorter, or too short to matter: `LimitHoldsIff`,
  with `TwoWithinOneSecond` as an instance.
- `RetryAfter` is documented as the time until the oldest request leaves the window
  (`shared/cache/ratelimit.go:22-23`). It is read in a second round trip (`:76-88`), and in
  range exactly if the refused request is still held by then: `RetryInRangeIff`,
  `RefusalHint`, and `LateHintIsTooLong` for an input where it is not.
- The limits are documented per organisation and endpoint (`shared/cache/ratelimit.go:27`),
  but the key joins the two with a colon (`:38`). Organisations without one in their ids do
  not share keys, others can: `KeysAreSeparate`, `ColonsCollide`.
- `verify` is documented to prove the chain unbroken (`engine/documentation/chain.py:149`); it
  ignores the stored previous hash: `VerificationSeesHashedFields`, `ForgedPreviousHashPasses`.
- The boundary rules look only for out-of-scope parents (`engine/scope/validation.py:67-118`),
  so an in-scope control may hang from a CONDITIONAL one: `ConditionalParentPasses`, with the
  exact condition in `AncestorsInScopeIff`.
- The module comment of the sampler wants a ratio above 0.8 for sufficiency
  (`engine/quality/sampler.py:32`); the code accepts 0.8 itself (`:219`). They differ exactly
  there: `VerdictIff`, `FourOfFiveIsSufficient`.
- The scorer's comment reduces the strength of items of quality below 0.5
  (`engine/risk/scorer.py:108-109`); the code reduces that of every item of quality below 1
  (`:117-128`): `ReducedStrengthIff`, `HighQualityIsReducedToo`.
- The pipeline's default expected deviation rate (`engine/orchestrator/pipeline.py:72`) equals
  the tolerable rate of material controls, so a material control always fails with it:
  `SucceedsIff`, `DefaultRateFailsMaterialControls`.
- Organisation thresholds accept any penalty ratio (`engine/risk/aggregator.py:284-297`). A
  higher penalty never improves a conclusion unless -1 or -2 lies between the two ratios:
  `PenaltyNeverHelps`, `PenaltyHelpsAcrossPole`.

## Model

| member | source | states |
|---|---|---|
| Graphs.IsDag | engine/scope/dag.py:175-190 | on any graph, the three-colour search ends and answers true exactly when no directed cycle exists |
| Graphs.Dfs | engine/scope/dag.py:180-188 | one visit either meets a cycle, or blackens the node and leaves the gray nodes the search path and the black ones ranked |
| Graphs.TopologicalSort | engine/scope/dag.py:128-150 | on any graph, succeeds exactly when it is acyclic, and then lists every node once with every edge forward |
| Graphs.InDegrees | engine/scope/dag.py:130-133 | the in-degree of each node is the number of its predecessors |
| Graphs.Roots | engine/scope/dag.py:135-137 | the initial queue holds each node of in-degree zero once and no other |
| Graphs.VisitChildren | engine/scope/dag.py:143-146 | lowering the children's degrees restores the invariant: emitted and queued nodes are exactly those of degree zero |
| Graphs.EmitKeepsState | engine/scope/dag.py:140-142 | a node taken from the queue comes after all its predecessors |
| Graphs.LowerKeepsState | engine/scope/dag.py:143-146 | lowering one child by one, and queueing it at zero, keeps the degrees and the queue right |
| Graphs.DryQueueDecides | engine/scope/dag.py:148-150 | with the queue empty, all nodes were emitted exactly when the graph is acyclic |
| Graphs.StuckHasCycle | engine/scope/dag.py:148-149 | nodes that all keep a predecessor among themselves contain a cycle |
| Graphs.TopologicalIsAcyclic | engine/scope/dag.py:128-150 | a graph with a topological order has no cycle |
| Graphs.AboveIsEarlier | engine/scope/dag.py:128-150 | a topological order lists every node after all those that reach it |
| Graphs.ReachableFrom | engine/scope/dag.py:152-164 | the search ends with exactly the reflexive-transitive closure of the root |
| Scope.EveryRunIsConsistent | engine/scope/dag.py:94-121 | after any run of commands the graph is acyclic, children are the exact inverse of parents, and parents were inserted first |
| Scope.AddKeepsConsistent | engine/scope/dag.py:94-109 | one insertion keeps that invariant |
| Scope.ConsistentIsAcyclic | engine/scope/dag.py:111-115 | insertion order is topological, so the roll-back of an insertion is unreachable |
| Scope.TopologicalListsParentsFirst | engine/scope/dag.py:128-150 | any topological order lists every node once, after all of its parents |
| Scope.ParentsExist | engine/scope/dag.py:100-104 | every parent of a node is a node |
| Scope.LockedIsFinal | engine/scope/dag.py:32-38 | once LOCKED every command fails and no run changes anything |
| Scope.LockedWasApproved | engine/scope/dag.py:32-38 | a LOCKED document was PROPOSED, and later APPROVED, before |
| Scope.RunOnlyExtends | engine/scope/dag.py:94-121 | along any run nodes are only added and only their boundary changes |
| ScopeDag.AuditScopeDag.constructor | engine/scope/dag.py:69-72 | starts as the empty DRAFT document |
| ScopeDag.AuditScopeDag.ChangeState | engine/scope/dag.py:78-88 | moves to an allowed state, or raises and changes nothing |
| ScopeDag.AuditScopeDag.Add | engine/scope/dag.py:94-115 | inserts the node, or raises the right error and changes nothing; the cycle branch is dead |
| ScopeDag.AuditScopeDag.Insert | engine/scope/dag.py:106-109 | inserting keeps the document consistent |
| ScopeDag.AuditScopeDag.SetStatus | engine/scope/dag.py:117-121 | sets the boundary of one node in place, or raises and changes nothing |
| ScopeDag.AuditScopeDag.TopologicalOrder | engine/scope/dag.py:128-150 | never raises; returns each node object once, every parent before its children |
| ScopeDag.AuditScopeDag.Reachable | engine/scope/dag.py:152-164 | raises exactly for an unknown root, else returns the nodes linked to it by a path |
| Validation.ValidateNoOrphans | engine/scope/validation.py:67-92 | reports, in node order, each in-scope node with parents all of which are out of scope |
| Validation.ValidateParentConsistency | engine/scope/validation.py:95-118 | reports each out-of-scope parent of each in-scope node |
| Validation.ValidateCoverage | engine/scope/validation.py:121-152 | reports each required control without an in-scope node once, and nothing else |
| Validation.ValidateEvidenceMapping | engine/scope/validation.py:155-181 | reports each in-scope node whose control has no evidence source |
| Validation.ValidateDagBoundaries | engine/scope/validation.py:187-211 | the merged report; empty exactly when no in-scope control has an out-of-scope parent, and coverage and evidence hold where asked for |
| Validation.OrphanReportHolds | engine/scope/validation.py:67-92 | a violation is reported exactly if it is about a listed orphan |
| Validation.ConsistencyReportHolds | engine/scope/validation.py:95-118 | a violation is reported exactly if it is about a listed in-scope node with an out-of-scope parent |
| Validation.EvidenceReportHolds | engine/scope/validation.py:155-181 | a violation is reported exactly if it is about a listed in-scope node without evidence |
| Validation.BoundaryReportsEmptyIff | engine/scope/validation.py:67-118 | the orphan rule adds no failure to the parent rule |
| Validation.AncestorsInScopeIff | engine/scope/validation.py:187-211 | all ancestors of in-scope nodes are in scope exactly when the rules pass and no in-scope node has a CONDITIONAL parent |
| Validation.ConditionalParentPasses | engine/scope/validation.py:95-118 | a document that passes although an in-scope node has an ancestor that is not in scope |
| History.DiffSnapshots | engine/scope/history.py:148-202 | one record for each node whose boundary or risk differs, and no other |
| History.DiffOver | engine/scope/history.py:159-200 | one of the three loops reports exactly the changes among its identifiers |
| History.DiffIsFaithful | engine/scope/history.py:148-202 | applying the diff to the first snapshot gives the second; it is empty exactly when they agree |
| History.RenameLeavesNoTrace | engine/scope/history.py:151-152 | changing a control id alone gives an empty diff |
| History.VersionsArePermanent | engine/scope/history.py:205-249 | recorded versions never change under later commands or recordings, later versions keep every node, and all agree once LOCKED |
| History.DiffAlongRun | engine/scope/history.py:274-282 | two versions recorded after LOCKED have an empty diff; from an earlier to a later version nothing is removed and no risk changes |
| History.ScopeVersionHistory.RecordVersion | engine/scope/history.py:220-249 | copies the nodes as they are; fails exactly on a version already recorded |
| History.ScopeVersionHistory.Diff | engine/scope/history.py:274-282 | fails exactly when a version is missing, else returns the diff of the two |
| WorkProgram.GenerateWorkProgram | engine/economy/work_program.py:159-219 | items, hours and coverage are those of greedy selection over the candidates ranked by efficiency |
| WorkProgram.BuildCandidates | engine/economy/work_program.py:184-203 | one candidate per control with its estimated hours, and their total risk |
| WorkProgram.SelectGreedily | engine/economy/work_program.py:208-214 | takes each item that still fits, keeping hours and covered risk the sums of what was taken |
| WorkProgram.WorkProgram.AddItem | engine/economy/work_program.py:83-85 | appends the item and adds its hours |
| WorkProgram.SelectionFacts | engine/economy/work_program.py:205-214 | the budget holds, items split exactly into taken and rejected, and no rejected item fits the leftover hours |
| WorkProgram.CoverageSplits | engine/economy/work_program.py:208-216 | the total risk is the covered risk plus that of the rejected items, so coverage is complete when there are none |
| WorkProgram.GreedyBound | engine/economy/work_program.py:205-214 | covered risk, items of negative weight aside, plus the risk of the first rejected item is at least the risk of any selection within the budget |
| WorkProgram.FirstRejection | engine/economy/work_program.py:211-214 | everything before the first rejected item was taken, and the item overflows the budget |
| WorkProgram.ListedFirstIff | engine/economy/work_program.py:205-218 | of two items taken, the earlier candidate comes first exactly when its risk and control id compare before or equal |
| WorkProgram.AncestorListedFirstIff | engine/economy/work_program.py:229-279 | in a program from a document, a node precedes one it reaches exactly when its risk and control id compare before or equal |
| WorkProgram.ChildCanComeFirst | engine/economy/work_program.py:229-279 | an approved document whose program lists a child before its parent |
| WorkProgram.GapHolds | engine/economy/work_program.py:282-292 | the gap names exactly the controls without an item |
| WorkProgram.GapIsRejected | engine/economy/work_program.py:282-292 | the gap names exactly the control ids of rejected items that no item taken has |
| WorkProgram.GapNamesRejected | engine/economy/work_program.py:282-292 | for distinct controls, exactly the controls of the rejected items |
| WorkProgram.GenerateFromDag | engine/economy/work_program.py:222-279 | succeeds exactly for APPROVED or LOCKED; items, hours and coverage are those of the in-scope nodes in topological order with their evidence lists |
| WorkProgram.InScopeControls | engine/economy/work_program.py:258-275 | the controls are those of the in-scope nodes, each once, after the in-scope nodes that reach it |
| WorkProgram.OnlyInScope | engine/economy/work_program.py:260 | the in-scope nodes, in order |
| Allocation.AllocateResources | engine/economy/resource_allocation.py:80-138 | the mutated auditors and the result are those of the priority-ordered allocation |
| Allocation.AllocateOne | engine/economy/resource_allocation.py:112-136 | one item goes to the chosen auditor, changing that auditor alone, or is left |
| Allocation.FindBest | engine/economy/resource_allocation.py:116-129 | one pass over the auditors finds the best eligible one |
| Allocation.BestIsBest | engine/economy/resource_allocation.py:116-129 | it is eligible, has the most hours left, and is the earliest such; none found means none eligible |
| Allocation.ChoiceIsBest | engine/economy/resource_allocation.py:112-136 | specialists first; an item is left only if no auditor can absorb it |
| Allocation.BooksBalance | engine/economy/resource_allocation.py:107-138 | items split exactly into given and left; each auditor's hours and list grew by what was given; cost is hours at each auditor's rate |
| Allocation.CapacityIsKept | engine/economy/resource_allocation.py:43-55 | no auditor is over-allocated, and every item left exceeds every auditor's remaining hours |
| Allocation.LowerPriorityChangesNothing | engine/economy/resource_allocation.py:107-138 | adding lower-priority items continues the allocation and takes nothing from the others |
| Allocation.AllocationMaps | engine/economy/resource_allocation.py:131-136 | the assignment map sends exactly the items given to their auditors |
| Allocation.AllReportedIff | engine/economy/resource_allocation.py:104-105 | all items are accounted for exactly when there are auditors or there is nothing to assign |
| Allocation.AuditorResource.AssignItem | engine/economy/resource_allocation.py:52-55 | adds the hours and the id |
| TokenBucketLimiter.GrantsAreBounded | sdk/connector/ratelimit/token_bucket.go:80-124 | over any run and any window, at most burst + rate * length tokens are granted |
| TokenBucketLimiter.Potential | sdk/connector/ratelimit/token_bucket.go:116-124 | grants since an instant, plus the tokens left, never exceed burst + rate * time since |
| TokenBucketLimiter.RefusalIsJustified | sdk/connector/ratelimit/token_bucket.go:82-91 | after a refusal some window ending there would overflow its bound with one more grant |
| TokenBucketLimiter.SinceLastFull | sdk/connector/ratelimit/token_bucket.go:116-124 | since the bucket was last full, the tokens missing are the grants less the refill |
| TokenBucketLimiter.NeedIsLeast | sdk/connector/ratelimit/token_bucket.go:103-112 | undisturbed, n tokens are there exactly after the computed wait, if the bucket can hold them |
| TokenBucketLimiter.SleepSufficesIff | sdk/connector/ratelimit/token_bucket.go:67-76 | after its sleep Acquire succeeds exactly when the burst is at least 1 |
| TokenBucketLimiter.WaitTimeSufficesIff | sdk/connector/ratelimit/token_bucket.go:101-112 | WaitTime is enough exactly when the bucket can hold n and no nanosecond was truncated |
| TokenBucketLimiter.WaitCanFallShort | sdk/connector/ratelimit/token_bucket.go:101-112 | a bucket whose WaitTime leaves less than the token asked for |
| TokenBucketLimiter.TokenBucket.New | sdk/connector/ratelimit/token_bucket.go:40-54 | starts full; fails exactly for a rate or burst that is not positive |
| TokenBucketLimiter.TokenBucket.RefillNow | sdk/connector/ratelimit/token_bucket.go:114-124 | adds rate * elapsed up to the burst |
| TokenBucketLimiter.TokenBucket.TryAcquire | sdk/connector/ratelimit/token_bucket.go:80-91 | takes a token exactly when one is there after the refill |
| TokenBucketLimiter.TokenBucket.Acquire | sdk/connector/ratelimit/token_bucket.go:56-78 | a run of attempts ended by a grant or by cancellation, with the calls of others during each sleep, and the wait it sleeps |
| TokenBucketLimiter.TokenBucket.Tokens | sdk/connector/ratelimit/token_bucket.go:93-99 | refills and reports |
| TokenBucketLimiter.TokenBucket.WaitTime | sdk/connector/ratelimit/token_bucket.go:101-112 | 0 when available, else the truncated wait |
| CircuitBreaker.EveryRun | sdk/connector/circuit/breaker.go:100-186 | in every interleaving the counter is the run of failures since the last success, Closed exactly when it is below the threshold, the probe flag implies HalfOpen, and at most one probe goes out between outcomes |
| CircuitBreaker.ProbeNeedsOutcome | sdk/connector/circuit/breaker.go:105-136 | in any run a second probe goes out only after an outcome was recorded |
| Probes.OneProbeIff | sdk/connector/circuit/breaker.go:105-143 | no second probe can go out while one is unanswered, exactly if every earlier request let through had been answered when it went out |
| Probes.AfterIsRun | sdk/connector/circuit/breaker.go:98-143 | operations tied to requests run like the plain calls |
| Probes.LateOutcomeFreesProbe | sdk/connector/circuit/breaker.go:111-136 | an instance: two probes are out, both without an outcome |
| CircuitBreaker.OpeningStartsTimeout | sdk/connector/circuit/breaker.go:135-142 | only a recorded failure opens the circuit, and it starts the timeout |
| CircuitBreaker.OpenForTimeout | sdk/connector/circuit/breaker.go:135-142 | without a recorded success an open circuit grants nothing for the whole timeout, and late failures do not prolong it |
| CircuitBreaker.GrantAfterOpening | sdk/connector/circuit/breaker.go:100-143 | in any run, a grant after an opening with no success between comes at least the timeout later |
| CircuitBreaker.OpenGrantsIff | sdk/connector/circuit/breaker.go:100-117 | in any run, an open circuit grants exactly when the timeout has passed |
| CircuitBreaker.ChangeIsDocumentedIff | sdk/connector/circuit/breaker.go:10-15 | every state change is reported once, and is a documented one unless a success is recorded while open |
| CircuitBreaker.LateSuccessCloses | sdk/connector/circuit/breaker.go:121-133 | a late success closes an open circuit without a probe |
| CircuitBreaker.Breaker.constructor | sdk/connector/circuit/breaker.go:87-96 | defaults replace a threshold or timeout that is not positive |
| CircuitBreaker.Breaker.AllowRequest | sdk/connector/circuit/breaker.go:98-117 | grants and changes the circuit as its state and the clock say |
| CircuitBreaker.Breaker.RecordOutcome | sdk/connector/circuit/breaker.go:119-143 | closes on success, counts and opens on failure |
| CircuitBreaker.Breaker.Do | sdk/connector/circuit/breaker.go:145-153 | a granted operation is followed by its recorded outcome, with the calls of others in between |
| CircuitBreaker.Breaker.CurrentState | sdk/connector/circuit/breaker.go:155-161 | reports the state after the clock is taken into account |
| CircuitBreaker.Breaker.Transition | sdk/connector/circuit/breaker.go:170-178 | sets the state and reports a real change |
| CircuitBreaker.Breaker.MaybeTransitionToHalfOpen | sdk/connector/circuit/breaker.go:180-186 | half-opens an open circuit once the timeout has passed |
| SlidingWindow.RunTracks | shared/cache/ratelimit.go:54-68 | after any run the sorted set holds exactly the requests of the window, and its key outlives them |
| SlidingWindow.RunIsWindow | shared/cache/ratelimit.go:54-71 | the returned count is the number of requests in the window: expiry and earlier pruning never change it |
| SlidingWindow.MillisecondWindowIsLimited | shared/cache/ratelimit.go:41-71 | any window of consecutive milliseconds contains at most limit allowed requests |
| SlidingWindow.NanosecondWindowIsLimited | shared/cache/ratelimit.go:41-71 | any interval one millisecond shorter than the window contains at most limit allowed requests |
| SlidingWindow.LimitHoldsIff | shared/cache/ratelimit.go:41-71 | in every run an interval contains at most limit allowed requests exactly if it is a millisecond shorter than the window, or spans fewer nanoseconds than the limit, or the limit is 0 |
| SlidingWindow.TwoWithinOneSecond | shared/cache/ratelimit.go:48-49 | the instance for one request a second: two allowed requests less than a second apart |
| SlidingWindow.RetryAfterIsExact | shared/cache/ratelimit.go:82-87 | unless it is already past, the hint runs out exactly when the oldest request stops counting |
| SlidingWindow.HeldIff | shared/cache/ratelimit.go:54-64 | a request is still held exactly if the key has not expired and the last request has not pruned it |
| SlidingWindow.HeldWhileInWindow | shared/cache/ratelimit.go:54-64 | a request is held as long as it is in the window |
| SlidingWindow.RetryInRangeIff | shared/cache/ratelimit.go:73-89 | for windows of a millisecond or more, 0 < RetryAfter <= window exactly if the refused request is still held at the second round trip |
| SlidingWindow.RefusalHint | shared/cache/ratelimit.go:73-89 | so for a refusal in any run, with others' requests between the round trips; and in range if the second comes within the window |
| SlidingWindow.LateHintIsTooLong | shared/cache/ratelimit.go:74-88 | a hint of six seconds for a window of one |
| SlidingWindow.EndsAreApart | shared/cache/ratelimit.go:48-49 | it does for windows of a millisecond and more, and whenever a second request counts |
| SlidingWindow.RunGoesOn | shared/cache/ratelimit.go:76-80 | requests between the two round trips continue the same run |
| SlidingWindow.CountIsExact | shared/cache/ratelimit.go:98-110 | after any run Count is the number of requests in the window plus those at its very start that nothing has pruned |
| SlidingWindow.CountIncludesEdge | shared/cache/ratelimit.go:98-110 | a request exactly a window ago is counted by Count and not by Increment |
| SlidingWindow.CountAgreesUpToEdge | shared/cache/ratelimit.go:98-110 | in any state, Count differs from what Increment would return by the new request and those on the edge |
| SlidingWindow.KeysAreSeparate | shared/cache/ratelimit.go:36-39 | distinct organisation and endpoint pairs have distinct keys, if organisation ids hold no colon |
| SlidingWindow.ColonsCollide | shared/cache/ratelimit.go:36-39 | two organisations share a key when one id holds a colon |
| SlidingWindow.RateLimitCache.Increment | shared/cache/ratelimit.go:46-96 | prunes, adds, counts and decides under one key, leaving all others alone; in any run the hint of a refusal is in range exactly while the request is held |
| SlidingWindow.RateLimitCache.RetryHint | shared/cache/ratelimit.go:74-88 | the hint comes from the oldest request the second round trip finds, and is 0 if it finds none |
| SlidingWindow.RateLimitCache.OldestScore | shared/cache/ratelimit.go:75-82 | finds the smallest score |
| SlidingWindow.RateLimitCache.Count | shared/cache/ratelimit.go:98-110 | for a key as any run leaves it, the number of requests in the window plus the lingering ones; 0 for a key that holds nothing |
| SlidingWindow.RateLimitCache.Reset | shared/cache/ratelimit.go:112-119 | forgets one key |
| Chain.SameTailSameChain | engine/documentation/chain.py:77-162 | verifying chains with one tail hash agree in all hashed fields, or exhibit a collision or a preimage of the genesis hash |
| Chain.AppendedChainsCollide | engine/documentation/chain.py:117-162 | for chains numbered by position only a collision can tell them apart |
| Chain.AlterationIsCaught | engine/documentation/chain.py:148-162 | altering a hashed field of a link breaks verification, or exhibits a collision |
| Chain.VerificationSeesHashedFields | engine/documentation/chain.py:148-162 | verification depends on the hashed fields and on nothing else |
| Chain.ForgedPreviousHashPasses | engine/documentation/chain.py:148-162 | a forged stored previous hash passes verification |
| Chain.EvidenceHashChain.constructor | engine/documentation/chain.py:113-115 | starts empty at the genesis hash |
| Chain.EvidenceHashChain.Append | engine/documentation/chain.py:117-146 | appends one link for the content; the chain still verifies, with indices equal to positions |
| Chain.EvidenceHashChain.Verify | engine/documentation/chain.py:148-162 | true exactly when every link hash checks, and always after appends alone |
| RiskScorer.BayesianUpdate | engine/risk/scorer.py:97-137 | the loop computes the fold of updates; a prior outside [0, 1] is an error |
| RiskScorer.InformativeIff | engine/risk/scorer.py:117-128 | both likelihoods are positive for the documented tiers, and for others exactly within bounds of the weight |
| RiskScorer.ReducedStrengthIff | engine/risk/scorer.py:108-120 | an item counts for less than its tier exactly when its quality is below 1 |
| RiskScorer.HighQualityIsReducedToo | engine/risk/scorer.py:108-120 | an item of quality 0.75 counts for less than its tier |
| RiskScorer.ClosedForm | engine/risk/scorer.py:114-137 | the fold is prior * prod L_h / (prior * prod L_h + (1 - prior) * prod L_nh), within [0, 1] without the clamp |
| RiskScorer.NoZeroDenominator | engine/risk/scorer.py:130-135 | no update of a run divides by zero |
| RiskScorer.DenominatorPositiveIff | engine/risk/scorer.py:130-135 | the denominator is positive for every belief exactly if both likelihoods are |
| RiskScorer.OrderDoesNotMatter | engine/risk/scorer.py:114-137 | permuting the evidence does not change the posterior |
| RiskScorer.FoldMonotone | engine/risk/scorer.py:114-137 | the posterior grows with the prior and with the strength of each item |
| RiskScorer.QualityMonotone | engine/risk/scorer.py:114-137 | better quality raises the posterior for a passing item and lowers it for a failing one |
| RiskScorer.DefaultsReproduceScorer | engine/risk/aggregator.py:271-390 | default organisation thresholds reproduce score_control |
| RiskScorer.PenaltyNeverHelps | engine/risk/aggregator.py:289-342 | a higher penalty ratio never improves a conclusion when no pole of the thresholds lies in between |
| RiskScorer.PenaltyHelpsAcrossPole | engine/risk/aggregator.py:289-342 | across a pole it improves one |
| RiskScorer.ConfidenceIsFraction | engine/risk/scorer.py:196-202 | confidence is in [0, 1] |
| RiskScorer.FlipNeverHelps | engine/risk/scorer.py:182-194 | a pass turned into a failure never improves the conclusion, and raises the deviation rate |
| RiskScorer.FlipLowersPosterior | engine/risk/scorer.py:114-137 | nor does it raise the posterior |
| Sampler.CorrectedAtMost | engine/quality/sampler.py:164-166 | the rounded correction, as a comparison of integers |
| Sampler.FinalInRange | engine/quality/sampler.py:160-167 | 1 <= n_final <= min(n0, N), and n_final = n0 exactly when N > (n0 - 1)^2 |
| Sampler.FinalMonotone | engine/quality/sampler.py:160-167 | a larger population never needs a smaller sample |
| Sampler.InfiniteSizeIsLeast | engine/quality/sampler.py:150-155 | the infinite-population size is the least sample whose error bound is within the tolerable rate |
| Sampler.AssessSufficiency | engine/quality/sampler.py:197-235 | the first error of an item, or the weighted sum, ratio, verdict and exact tier counts |
| Sampler.VerdictIff | engine/quality/sampler.py:217-224 | the verdict boundaries in terms of the sum; code and module comment differ exactly at 0.8 |
| Sampler.FourOfFiveIsSufficient | engine/quality/sampler.py:29-32 | perfect evidence for four out of five is sufficient, against the module comment |
| Sampler.ScorableIff | engine/quality/sampler.py:185-194 | evidence can be scored exactly when all tiers are 1 to 6 and all qualities in [0, 1] |
| Conflicts.DetectConflicts | engine/quality/conflict_resolver.py:104-161 | lists the conflicts of all pairs in index order |
| Conflicts.ResolveConflicts | engine/quality/conflict_resolver.py:164-199 | conflicts, flagged ids and the accepted items in order |
| Conflicts.ListedIff | engine/quality/conflict_resolver.py:124-161 | a conflict is listed exactly when some pair has it |
| Conflicts.FlaggedIff | engine/quality/conflict_resolver.py:84-96 | an id is flagged exactly when an item that carries it conflicts with one that beats it |
| Conflicts.AcceptedIff | engine/quality/conflict_resolver.py:190-192 | an item is accepted exactly when no item that carries its id loses |
| Conflicts.AcceptedIsCoherent | engine/quality/conflict_resolver.py:164-199 | all accepted items share the verdict of the strongest, none conflict, resolving them again changes nothing; the strongest is accepted exactly if no namesake loses, so always for distinct ids |
| Conflicts.SharedIdDropsBoth | engine/quality/conflict_resolver.py:191-192 | items that share an id and disagree are both dropped |
| ExceptionDetection.ExceptionDetector.constructor | engine/risk/exceptions.py:74-80 | starts with nothing seen and the tolerable rate of the materiality |
| ExceptionDetection.ExceptionDetector.Update | engine/risk/exceptions.py:86-182 | running state equals recomputation from the items seen; the flags are those of the item after the prefix |
| ExceptionDetection.ExceptionDetector.PerItemFlags | engine/risk/exceptions.py:98-156 | the four per-item anomalies |
| ExceptionDetection.ExceptionDetector.Finalize | engine/risk/exceptions.py:184-206 | flags two or more items of one verdict |
| ExceptionDetection.DetectExceptions | engine/risk/exceptions.py:227-241 | the flags of the stream, then those of the batch |
| ExceptionDetection.SpikesAtIff | engine/risk/exceptions.py:158-179 | a spike is raised exactly on entering a breach |
| ExceptionDetection.BreachHasSpike | engine/risk/exceptions.py:158-179 | every breach was announced by a spike and has lasted since |
| ExceptionDetection.SpikeIffBreach | engine/risk/exceptions.py:158-179 | a spike is raised exactly when some prefix of five or more items exceeds the tolerable rate |
| ExceptionDetection.SpikesAreSeparated | engine/risk/exceptions.py:158-179 | between two spikes the rate is back at the tolerable one |
| Pipeline.Run | engine/orchestrator/pipeline.py:154-306 | the outcome, or the first error; the control in scope; a valid chain documenting every item in order; a working paper of both |
| Pipeline.RegisterControl | engine/orchestrator/pipeline.py:161-173 | neither scope step can raise, and the node ends in scope |
| Pipeline.DocumentEvidence | engine/orchestrator/pipeline.py:233-239 | one valid chain with one link per item |
| Pipeline.Finalize | engine/documentation/chain.py:206-236 | the paper reports the outcome, the hashed fields of every link in order, and whether the chain verifies |
| Pipeline.PaperTellsValidity | engine/documentation/chain.py:206-236 | links rebuilt from a paper alone verify exactly when the chain does |
| Pipeline.SucceedsIff | engine/orchestrator/pipeline.py:154-227 | a conclusion is reached exactly for parameters in range |
| Pipeline.DefaultRateFailsMaterialControls | engine/orchestrator/pipeline.py:72-187 | the default expected rate fails every material control |
| Pipeline.AdjustKeepsOrder | engine/orchestrator/pipeline.py:118-135 | the sufficiency adjustment keeps the order of conclusions and never improves one |
| Pipeline.FailingEvidenceNeverHelps | engine/orchestrator/pipeline.py:154-227 | a pass turned into a failure never improves the final conclusion, nor changes sample size or sufficiency |
| Workflow.EveryRunAgrees | engine/scope/workflow.py:156-300 | in every run, replaying the trail gives every status, per engagement too; one requested event, and one decision event unless pending |
| Workflow.HistoryIsFinal | engine/scope/workflow.py:187-300 | the trail only grows, requests stay, decisions are final |
| Workflow.DecisionFollowsRequest | engine/scope/workflow.py:187-243 | a decision event comes after its one request event and after no other decision |
| Workflow.PendingFromTrail | engine/scope/workflow.py:255-267 | the pending list can be read off the trail |
| Workflow.ModificationWorkflow.constructor | engine/scope/workflow.py:150-152 | starts with no request and no event |
| Workflow.ModificationWorkflow.SubmitRequest | engine/scope/workflow.py:156-185 | adds one pending request and one event |
| Workflow.ModificationWorkflow.ReviewRequest | engine/scope/workflow.py:187-243 | decides a pending request in place with one event, or raises the right error and changes nothing |
| Workflow.ModificationWorkflow.PendingRequests | engine/scope/workflow.py:255-261 | the pending request objects of an engagement, in submission order |
| Workflow.ModificationWorkflow.GetAuditTrail | engine/scope/workflow.py:263-267 | the events of an engagement in order; they replay to its statuses |

## Left out

- IEEE rounding, `round` in output fields, and Go duration overflow: values are exact.
- SHA-256, JSON encoding, UUID generation and clocks: digests are arbitrary functions on the tuple of hashed fields, identifiers and times are parameters, and a newly drawn identifier is one not in use.
- Edits through the node and request objects that `get_node`, `add_node` callers, `submit_request` and `get_request` hand out: they bypass the methods.
- Titles, descriptions, article references, node metadata other than the evidence list, narratives, severities, messages, event details and review times.
- ScopeDag.AuditScopeDag.Add: the cycle search is recursive in the code, and on a path of about a thousand nodes the interpreter's recursion limit ends it after the node was inserted; the model has no such limit.
- Validation.ValidateDagBoundaries: the rules only read the document, so they take it as a value; the two coverage messages are one violation.
- Graphs.TopologicalSort: children that become ready together are queued in any order, which covers the order by identifier text that the code uses.
- History.ScopeVersionHistory.RecordVersion: the capture time is not kept.
- Allocation.AllocateResources: the auditors are distinct objects; a list that repeats one is not modelled.
- Allocation.AllocateOne: the auditors are distinct objects there too.
- SlidingWindow.RunIsWindow: one clock with a new reading for each request, and one window length per key; Redis errors are not modelled.
- TokenBucketLimiter.GrantsAreBounded: the clock never goes back.
- RiskScorer.ClosedForm: both likelihoods of every item are positive, as they are for the documented tiers; an undocumented tier far enough off makes one negative.
- CircuitBreaker.Breaker.Do: a panic inside the operation is not modelled.
- Progress tracking of work programs, utilisation figures, version listings and the serialisers: single-branch facts or simple sums.
- Aggregation by article and risk trends: counters over dictionaries.
- Budget tracker, heat map, floors, impact look-up, registry, retry loop, HTTP gateway, sessions, user interface, report texts.
