# CipherLake core, modelled and proved in Dafny

This project models the parts of CipherLake whose correctness does not rest on a storage or crypto library, and
proves what those parts promise. Every statement holds for all inputs, all runs or all reachable states of the model.

| module | models |
|---|---|
| `Glob`, `Matching`, `Policy`, `Statements` | IAM policy evaluation: the wildcard matcher, action and resource patterns, the layered decision, and what one statement says |
| `Postings`, `Segments`, `InvertedIndex` | the full-text index: a flat log of documents, the segments that must agree with it, the tables on top |
| `PostingsCodec`, `MachineWords` | the delta and varint codec of posting lists, over 64-bit words |
| `EventBus`, `EventBusProofs`, `EventBusShutdown`, `EventBusProgress`, `DeadLetters`, `Deliveries` | the event bus and its dead-letter queue as a transition system with one step per atomic action, and what runs promise to subscribers |
| `Hooks`, `HookOrchestrator` | hook chains: a flat plan and its meaning, and the loops and the recursive onion that refine it |
| `ObjectCache` | the byte-bounded recency cache |
| `Resumable`, `ResumableRuns`, `ResumableAccess` | resumable uploads, with storage faults and broken connections as inputs of each call, whole runs of them, and who may touch them |
| `HotReload`, `HotReloadDiff` | diff and merge of configuration trees, and what the diff reports |
| `CanonicalQuery`, `CanonicalForm`, `PresignedQuery` | the canonical query string and path of a signed request, its order and its bytes, and the query of a presigned one |
| `Stemmer`, `Endings`, `Tokenizer`, `Highlight` | the stemmer and what it makes of each ending, the tokenizer, and highlighting of query terms |
| `Options`, `Sequences`, `Sorting`, `Splitting`, `Strings` | shared helpers |

Objects the program updates in place are classes here (`Segment`, `SegmentManager`, `InvertedIndex`,
`HookOrchestrator`, `ObjectCache`, `UploadHandler`); loops are methods with invariants, proved equal to functions whose
properties are then proved as lemmas; the bus, which several goroutines drive, is a state machine whose runs interleave
its steps in any way. Clocks, replies of remote services, map iteration orders, identifiers, hashes, condition results
and Unicode classes are parameters. `dafny verify dfyconfig.toml` checks the whole project.

## What the code does not do

These are facts about the code as it is. Where a property fails, the lemma named says for which inputs, or exactly when the
code does meet it. Where code and comments disagree, the model follows the code.

- The wildcard matcher compares bytes before it looks for a star, so a `*` in the *string* can use up the pattern's
  star. A positive answer is always right; the matcher decides the relation for every pattern exactly when the string
  has no `*` (`Glob.CompleteExactlyWithoutStars`).
- An action pattern `service:*` compares the service part byte by byte, so wildcards inside the service part are not
  expanded. Action matching is globbing exactly for the other patterns
  (`Matching.ActionMatchIsGlobExactlyForTameServices`).
- A session policy of temporary credentials is added to the role's policies although its field is described as scoping
  them down. It does scope them down exactly when a Deny or the bucket policy decides the request anyway, or role and
  session policy agree on whether to allow it (`Policy.ScopesDownExactlyWhenAgreed`). A role without policies gets
  everything that a session policy allows (`Policy.SessionPolicyWidens`).
- Publishing does not check for the stop signal first, as a comment says: a publisher may still send when the dispatcher
  has drained the channel and gone. In every run, events are left in the channel exactly when one was sent after the
  dispatcher had exited (`EventBusShutdown.StrandedExactlyAfterLateSend`). Such an event is never delivered and only the
  timeout ends the drain (`EventBusShutdown.StrandedForever`), and every bus has such a run
  (`EventBusShutdown.LateSendHappens`). As long as no event is sent too late, the drain can complete without the
  timeout, and so can the shutdown (`EventBusProgress.DrainCompletes`, `EventBusProgress.ShutdownCompletes`).
- The retry delay is computed in 64-bit arithmetic before it is capped: the base in nanoseconds is a product that may
  wrap, and so is each doubling. When the base fits, all delays are right exactly when base * 2^(maxRetries - 1) stays
  below 2^63 ns. When it does not fit, they are right exactly when every product happens to wrap to at least 16 s
  (`DeadLetters.DelaysRightExactlyWithoutOverflow`). A base of 18446744073710 ms makes the first retry come after
  896768 ns (`DeadLetters.WrappedBase`), and after 64 attempts every base gives a delay of zero
  (`DeadLetters.SixtyFourAttemptsAreTooMany`).
- A PATCH whose connection breaks leaves its bytes in the temporary file while the session keeps the old offset. A
  resend without a digest is then accepted and the file holds the first part twice (`Resumable.ResendAfterBreak`). The
  file can also be wrong when it is as long as the offset, because a rejected digest cuts it back to the offset after
  such a resend (`ResumableRuns.LengthIsNotEnough`). Over a whole run, everything accepted and everything stored is
  exactly the bodies sent if and only if every accepted PATCH and every store found the file as long as the offset
  (`ResumableRuns.RunIsRightIffNoResidue`). A digest guards the PATCH that carries it, once all of its body has arrived
  (`Resumable.DigestGuards`). It does not guard a finalize: the bytes of a broken PATCH are stored, whatever digest that
  PATCH carried (`Resumable.FinalizeAfterBreak`).
- An upload can be stored twice, because errors are ignored when a finalized session is marked and cleaned up. A second
  finalize stores again exactly when the first left the session unmarked and neither session nor file went away
  (`Resumable.StoresAgainExactlyWhenReopened`, `Resumable.StoredTwice`); in every other run an upload is stored at most
  once (`ResumableRuns.StoredAtMostOnce`).
- A presigned query is parsed into a map before it is brought into canonical form, and the parser drops parameters that
  have a semicolon or do not decode. The form is that of the query without the excluded parameters exactly when none of
  the others is dropped (`PresignedQuery.PresignedFormExactlyWhenNothingLost`); a lone semicolon is
  (`PresignedQuery.SemicolonIsLost`).
- The comments on the order of before and after hooks disagree with the sort. The model follows the code: before and
  around hooks run from the highest priority down, after hooks in reverse of their sorted list. The comments hold exactly
  when all hooks of that type have the same priority (`Hooks.CommentedOrderExactlyWhenEqual`).
- The highlighter looks for a term in the lower-case text and cuts the text itself at the offsets found, so it panics
  exactly when the last match it takes ends behind the text (`Highlight.MarkedExactlyWithin`). A text can be marked for
  every term exactly when lower-casing does not make it longer (`Highlight.SafeForAllTermsExactlyWhenNotLonger`); the
  letter U+023A is one that gets longer (`Highlight.LongerLowerCasePanics`).
- An empty term would stop the highlighter from moving (`Highlight.EmptyTermStandsStill`); the tokenizer never yields
  one.

## Model

| member | source | states |
|---|---|---|
| `Glob.GlobMatch` | internal/iam/policy.go:554-581 | the two-cursor loop with one remembered star ends; true implies the glob relation for every string, and the two agree when the string has no star |
| `Glob.SoundFrom` | internal/iam/policy.go:559-574 | a positive outcome from any loop configuration means a match from the cursors or from a later restart of the last star |
| `Glob.Sound` | internal/iam/policy.go:554-581 | a positive answer is right for every pattern and string |
| `Glob.NewerStarSuffices` | internal/iam/policy.go:563-571 | forgetting the older star loses no match, because the cursors moved in step over star-free pattern since |
| `Glob.CompleteFrom` | internal/iam/policy.go:559-574 | whatever match is still open in a loop configuration is found, for star-free strings |
| `Glob.Complete` | internal/iam/policy.go:554-581 | for star-free strings the answer is the relation |
| `Glob.CompleteExactlyWithoutStars` | internal/iam/policy.go:559-563 | the answer is the relation for all patterns if and only if the string has no star |
| `Glob.LiteralIsEquality` | internal/iam/policy.go:535-551 | a pattern without wildcards matches only itself |
| `Matching.ResourceMatchIsGlob` | internal/iam/policy.go:535-551 | the shortcuts of resource matching do not change its meaning as a glob |
| `Matching.ActionMatchIsGlobExactlyForTameServices` | internal/iam/policy.go:498-522 | for any case folding, action matching is folded globbing on star-free actions for exactly the patterns that are not `service:*` with a wildcard in the service |
| `Policy.FirstHit` | internal/iam/policy.go:105-120 | finds the first applicable statement of an effect in document and statement order, and finds none only if there is none |
| `Policy.AppendNamed` | internal/iam/policy.go:73-79 | appends the documents of exactly the policy names that resolve |
| `Policy.CollectIdentity` | internal/iam/policy.go:63-94 | collects exactly the inline, attached and group-attached statements, each with its origin |
| `Policy.CollectResource` | internal/iam/policy.go:96-103 | collects exactly the statements of the bucket's policy |
| `Policy.EvaluateGate` | internal/iam/policy.go:317-374 | a boundary or SCP allows if and only if some Allow applies and no Deny does, and denies if and only if a Deny applies |
| `Policy.EvaluateWithBoundary` | internal/iam/policy.go:193-314 | the decision is the declarative layered formula for the given user; the report is justified: an Allow names a statement of the user's own that applies and the policy or inline document it comes from, a Deny names a denying statement of the layer it blames, or none when the boundary only fails to allow |
| `Policy.Evaluate` | internal/iam/policy.go:31-190 | the decision is the SCP gate followed by the layered formula for the named user, so without an SCP it is that of `EvaluateWithBoundary`; the report is justified as there, and an SCP denial names the first statement that denies, or none when the SCP only fails to allow |
| `Policy.EvaluateWithTempCreds` | internal/iam/policy.go:377-430 | the decision is the layered formula over the union of role and session statements, with no boundary; the report names a statement of the layer it blames that applies, and a resource Allow only when no identity statement allows |
| `Policy.ScopesDownExactlyWhenAgreed` | internal/iam/policy.go:377-430 | a session policy scopes the role down if and only if a Deny or a bucket Allow decides the request, or role and session policy agree on whether to allow it |
| `Policy.SessionPolicyWidens` | internal/iam/policy.go:388-391 | a role without policies is denied everything on its own and allowed everything with a session policy that allows all, where scoping down would deny |
| `Policy.UpToSlash` | internal/iam/policy.go:872-881 | the bucket part of a resource ends at the first slash |
| `Policy.OrderIsIrrelevant` | internal/iam/policy.go:31-190 | permuting statements, documents, attachments or groups never changes the decision |
| `Statements.ListedActions` | internal/iam/policy.go:445-457 | a statement with a list of actions applies where it would apply to any action and one of its patterns matches the folded action as a glob |
| `Statements.OtherActionsAreTheRest` | internal/iam/policy.go:446-457 | the same patterns as NotAction and as Action split the requests that the statement otherwise fits: exactly one of the two applies, and outside neither does |
| `Statements.BothActionLists` | internal/iam/policy.go:445-457 | with both lists a statement applies where either does, and with none nowhere |
| `Statements.ListedResources` | internal/iam/policy.go:459-468 | a statement with a list of resources applies where it would apply to any resource and one of its patterns matches as a glob |
| `Statements.OtherResourcesAreTheRest` | internal/iam/policy.go:459-468 | the same patterns as NotResource and as Resource split the requests that the statement otherwise fits |
| `Statements.BothResourceLists` | internal/iam/policy.go:459-468 | with both lists a statement applies where either does, and with none nowhere |
| `Statements.PrincipalRestricts` | internal/iam/policy.go:470-475 | a principal only restricts a statement, to the requesters it names by a star, by name, by a glob for their ARN or by naming nobody |
| `Statements.ConditionsRestrict` | internal/iam/policy.go:477-482 | conditions only restrict a statement, to requests of which all of them hold |
| `Statements.AppliesInGlobs` | internal/iam/policy.go:444-485 | for requests without stars the whole matcher is a statement about globs, principals and conditions |
| `Statements.EverythingBut` | internal/iam/policy.go:193-314 | a user whose only policy allows everything but some actions is allowed exactly the others |
| `Statements.BucketOfResource` | internal/iam/policy.go:872-881 | the bucket policy consulted is that of the bucket the resource is in, with or without a key, and none for other resources |
| `Postings.KeepFlatSearch` | internal/fts/segment.go:88-104 | filtering postings by id is searching the log without that id |
| `Postings.LogIsSurvivors` | internal/fts/segment.go:213-346 | the log after a run is exactly the added documents that no later delete names, in order |
| `Postings.AddAgrees` | internal/fts/segment.go:42-69 | adding a document to the last table keeps every search equal to the flat log's |
| `Postings.RemoveAgrees` | internal/fts/segment.go:88-111 | deleting an id from every table keeps every search equal to the flat log's |
| `Postings.MergeAgrees` | internal/fts/segment.go:315-346 | joining the closed tables keeps every search equal to the flat log's |
| `Segments.Segment.AddDocument` | internal/fts/segment.go:42-69 | the table gains one posting per distinct term with all its positions; the answer says whether the segment is full |
| `Segments.Segment.CollectPositions` | internal/fts/segment.go:46-52 | the collected map has exactly the document's terms, each with its positions in order |
| `Segments.Segment.DeleteDocument` | internal/fts/segment.go:88-111 | every list loses exactly the id's postings and empty lists are dropped |
| `Segments.SegmentManager.AddDocument` | internal/fts/segment.go:213-237 | the manager then stands for the old log plus the document; a full segment is closed and a new active one is last |
| `Segments.SegmentManager.Search` | internal/fts/segment.go:240-250 | returns exactly the postings of the flat log, in its order |
| `Segments.SegmentManager.DeleteDocument` | internal/fts/segment.go:253-260 | the manager then stands for the log without the id |
| `Segments.SegmentManager.MergeSegments` | internal/fts/segment.go:291-346 | the log is unchanged, the active segment stays and stays last, and all closed segments become one |
| `Segments.SegmentManager.MergedContents` | internal/fts/segment.go:318-334 | every term's merged list is the closed segments' lists joined in order |
| `Segments.SearchAfterRun` | internal/fts/segment.go:189-346 | after any run of adds, deletes and merges with any segment size, a search reads the surviving documents of the run in order |
| `InvertedIndex.AddCounts` | internal/fts/index.go:209-216 | adding one to each distinct term keeps every document frequency at least the number of postings |
| `InvertedIndex.AddCountsExactly` | internal/fts/index.go:209-216 | as long as nothing is removed, every document frequency is exactly the number of postings, and only terms with postings have one |
| `InvertedIndex.RemoveCounts` | internal/fts/index.go:373-402 | deleting leaves frequencies that are still at least the number of postings |
| `InvertedIndex.InvertedIndex.CountTerms` | internal/fts/index.go:209-216 | each distinct term of a document is counted once more |
| `InvertedIndex.InvertedIndex.AddDocument` | internal/fts/index.go:193-223 | refuses when closed or over quota, otherwise the log gains the document; all index invariants are kept |
| `InvertedIndex.InvertedIndex.AddDocumentWithInfo` | internal/fts/index.go:226-276 | the log afterwards is the old one and the new document, without exactly the ids that eviction took out of the table; table and list are those of `Eviction`, every posting's id stays known, and the table holds at most max(maxDocs, documents loaded at start) |
| `InvertedIndex.InvertedIndex.EvictExcessDocs` | internal/fts/index.go:161-174 | eviction leaves the table and list of `Eviction`, within the bound, even with ids listed twice, and the log loses exactly the documents that left the table |
| `InvertedIndex.InvertedIndex.SetMaxDocs` | internal/fts/index.go:177-182 | the new bound holds at once: table and list are those of `Eviction` with that bound, and the log loses exactly the documents that left the table |
| `InvertedIndex.EvictionIsShortest` | internal/fts/index.go:161-174 | eviction uses up the shortest prefix of the list that makes the table fit, or all of it |
| `InvertedIndex.InvertedIndex.DeleteDocument` | internal/fts/index.go:373-402 | the id leaves the log and the table, on a storage failure as well |
| `InvertedIndex.InvertedIndex.Candidates` | internal/fts/index.go:313-336 | a query can return exactly the ids with a posting for one of its terms, and each of them is a known document |
| `InvertedIndex.InvertedIndex.UpdateTermStats` | internal/fts/compaction.go:86-110 | afterwards the frequencies are exactly the numbers of postings, and terms without postings are gone |
| `InvertedIndex.InvertedIndex.RunCompaction` | internal/fts/compaction.go:72-83 | with one segment nothing changes, otherwise the segments are merged, the log is unchanged and the frequencies are exact |
| `PostingsCodec.UvarintRoundTrip` | internal/fts/segment.go:355-383 | every 64-bit word parses back to its value and to the number of bytes it took, at most ten |
| `PostingsCodec.SignedDeltaCancels` | internal/fts/segment.go:374-379 | position deltas and their sums cancel modulo 2^64 |
| `PostingsCodec.EncodePostings` | internal/fts/segment.go:355-383 | the loops write the varints of the list's words |
| `PostingsCodec.DecodePostings` | internal/fts/segment.go:386-440 | the loops compute the recursive reader on any bytes: they stop at a bad header, leave later positions zero after a bad position, and panic on a count no slice can have |
| `PostingsCodec.PositionsRoundTrip` | internal/fts/segment.go:374-379 | positions in any order are read back, and the reader stops where they end |
| `PostingsCodec.WordsRoundTrip` | internal/fts/segment.go:355-440 | reading the bytes of a posting list gives the list back, by induction over it |
| `PostingsCodec.RoundTrip` | internal/fts/segment.go:355-440 | decoding what was encoded gives back every posting list, sorted or not |
| `DeadLetters.StepKeepsInv` | internal/events/deadletter.go:76-153 | each delivery sent so far is in exactly one of succeeded, queued, being retried, dead and abandoned, and its entry knows how often it was sent; every step keeps this |
| `DeadLetters.EnqueueKeepsInv` | internal/events/deadletter.go:76-101 | putting a failed delivery on the queue or among the dead letters keeps the invariant |
| `DeadLetters.FailedGoesOn` | internal/events/deadletter.go:76-101 | after a failed attempt the entry, with its number of sends, is the last of the retry channel if and only if it was sent less often than allowed and the channel has room, and the last of the dead letters otherwise; nothing else moves |
| `DeadLetters.DiesExactlyWhenSpent` | internal/events/deadletter.go:76-101 | a step makes a delivery dead if and only if it fails it and it may not be tried again, and the dead stay dead |
| `DeadLetters.DoneExactlyWhenThrough` | internal/events/deadletter.go:138-142 | a delivery is done if and only if some attempt got it through |
| `DeadLetters.RetriesInOrder` | internal/events/deadletter.go:109-136 | entries are retried in the order they were queued, and one is given up only when the loop is told to stop |
| `DeadLetters.SendsAreCounted` | internal/events/deadletter.go:109-153 | a delivery's count goes up by one exactly when it is sent, and it is never sent more than maxRetries times |
| `DeadLetters.Backoff` | internal/events/deadletter.go:117-125 | the doubling loop computes the wrapped and then capped delay of baseMs milliseconds |
| `DeadLetters.DoubledIsWrapped` | internal/events/deadletter.go:119-121 | wrapping at each doubling equals wrapping the product once, for a base of any size |
| `DeadLetters.DelayRightExactly` | internal/events/deadletter.go:117-125 | one delay is min(base * 2^attempts, 16 s) if and only if the product fits a word or wraps to at least 16 s |
| `DeadLetters.DelaysRightExactlyWithoutOverflow` | internal/events/deadletter.go:117-125 | over the configured milliseconds: when the base fits a word, every delay is min(base * 2^attempts, 16 s) if and only if base * 2^(maxRetries - 1) < 2^63; when it does not, if and only if every product wraps to at least 16 s |
| `DeadLetters.WrappedBase` | internal/events/deadletter.go:117-125 | a base whose nanoseconds wrap to less than a millisecond, so that the first delay is 896768 ns instead of 16 s |
| `DeadLetters.SixtyFourAttemptsAreTooMany` | internal/events/deadletter.go:117-125 | after 64 doublings the delay of every base is zero |
| `EventBusProofs.InitInv` | internal/events/bus.go:147-188 | a new bus satisfies the invariant |
| `EventBusProofs.PublishKeepsInv` | internal/events/bus.go:232-249 | beginning, completing or dropping a publish keeps the invariant |
| `EventBusProofs.DispatchKeepsInv` | internal/events/bus.go:303-349 | receiving and routing an event keeps the invariant |
| `EventBusProofs.HandOverKeepsInv` | internal/events/bus.go:79-81 | putting a delivery on its worker's queue keeps the invariant |
| `EventBusProofs.WorkKeepsInv` | internal/events/bus.go:83-118 | beginning and finishing a delivery keeps the invariant |
| `EventBusProofs.TryKeepsInv` | internal/events/bus.go:95-118 | a first attempt, successful or not, is for a delivery never sent before, and keeps the invariant |
| `EventBusProofs.ControlStepKeepsInv` | internal/events/bus.go:199-229 | each stage of shutdown keeps the invariant |
| `EventBusProofs.BusStepKeepsInv` | internal/events/bus.go:65-400 | every step of any goroutine keeps the invariant |
| `EventBusProofs.RunKeepsInv` | internal/events/bus.go:147-400 | every state of every interleaved run satisfies the invariant |
| `EventBusProofs.KeyOrder` | internal/events/bus.go:79-118 | per key, what was begun, is queued at its worker, is in the dispatcher's hand and is in the channel spells out the accepted order without the events that matched no rule |
| `EventBusProofs.DrainedMeansDealtWith` | internal/events/bus.go:199-229 | the drain counter is never negative, and at zero every accepted event matched no rule or was finished with all its webhooks sent |
| `EventBusProofs.NoReportAfterRetriesStop` | internal/events/bus.go:199-229 | once the retry loop is told to stop, no worker can deliver any more |
| `EventBusProofs.EveryRun` | internal/events/bus.go:65-400 | in every state of every run: per-key order, exact drain counter, complete drain at zero, one place per delivery, bounded sends |
| `EventBusShutdown.StrandedExactlyAfterLateSend` | internal/events/bus.go:232-249 | in every run, events stay in the channel behind the dispatcher if and only if one was sent after it had exited |
| `EventBusShutdown.StrandedForever` | internal/events/bus.go:303-330 | such an event is never begun by a worker nor found unmatched in any continuation, and the drain counter stays above zero, so only the timeout ends the drain |
| `EventBusShutdown.LateSendHappens` | internal/events/bus.go:199-249 | every bus has a run that ends with a given event stranded |
| `EventBusProgress.WorkLeavesLess` | internal/events/bus.go:199-374 | every step that sends, receives, routes, hands over, begins, tries or finishes leaves less to do in a lexicographic order |
| `EventBusProgress.NoEndlessWork` | internal/events/bus.go:199-374 | no endless behaviour of the bus works forever without new publications |
| `EventBusProgress.NeverStuck` | internal/events/bus.go:199-374 | with work left, all workers there and the dispatcher if it is still needed, some step of the work can be taken: full queues never block each other |
| `EventBusProgress.DrainCompletes` | internal/events/bus.go:199-229 | in every run before workers are told to stop, unless an event is stranded or is about to be, the bus can work on without dropping anything until the counter is zero and every accepted event was dealt with |
| `EventBusProgress.ShutdownCompletes` | internal/events/bus.go:199-229 | in every run before workers are told to stop, unless an event is stranded or is about to be, the bus can be shut down to the end by way of an empty drain counter, without the timeout |
| `Deliveries.TypeMatchIsGlob` | internal/events/rule.go:50-62 | an event type, or a family of types, matches as a glob |
| `Deliveries.PrefixAndSuffixRestrict` | internal/events/rule.go:27-48 | a rule matches by one of its types, and prefix and suffix only restrict it |
| `Deliveries.RuleListIsWanted` | internal/events/bus.go:384-400 | in whichever order the subscriptions are visited, the rules found are exactly the matching ones under the bucket of the event and under `*` |
| `Deliveries.EitherOrderHappens` | internal/events/bus.go:384-400 | the rules of the bucket may come first, or those of `*` |
| `Deliveries.WithoutRuleKeeps` | internal/events/bus.go:265-282 | unsubscribing takes out exactly the rules with the id |
| `Deliveries.HashIsFnv1a` | internal/events/bus.go:376-380 | workers are chosen by FNV-1a: offset basis, a published value, and the workers of both |
| `Deliveries.Defaults` | internal/events/bus.go:147-185 | without numbers of its own a bus has 16 workers and sends at most three times |
| `Deliveries.DrainedMeansSentToAll` | internal/events/bus.go:199-400 | in every run, when the drain counter is zero every accepted event was sent to every webhook that was subscribed to it when it was routed |
| `Deliveries.DeadExactlyWhenGivenUp` | internal/events/deadletter.go:76-153 | in every run, a delivery is dead if and only if it failed after it was sent as often as allowed or found the retry channel full |
| `Hooks.PrioritySortIsStable` | internal/gateway/plugin_hooks.go:446-450 | the sort keeps the hooks, descends by priority and keeps equal priorities in list order |
| `Hooks.OfTypeKeepsOrder` | internal/gateway/plugin_hooks.go:429-440 | classifying keeps the hooks of a type where they stand in the list and drops the others |
| `Hooks.OfTypeCount` | internal/gateway/plugin_hooks.go:429-440 | a hook of the type is kept as often as it is listed |
| `Hooks.CommentedOrderExactlyWhenEqual` | internal/gateway/plugin_hooks.go:181-262 | before hooks run by ascending priority, and after hooks by descending priority, if and only if all hooks of that type have the same priority |
| `Hooks.PlanSplits` | internal/gateway/plugin_hooks.go:177-287 | the plan is a way in, the operation once, and a way out |
| `Hooks.EveryHookIsPlanned` | internal/gateway/plugin_hooks.go:177-287 | the plan visits every listed hook that matches, in the phases of its type, as often as it is listed, and no other |
| `Hooks.UnendedChainVisitsAll` | internal/gateway/plugin_hooks.go:177-288 | a chain that nothing ended visited every listed hook that matches, as often as it is listed |
| `Hooks.TraceFollowsPlan` | internal/gateway/plugin_hooks.go:152-288 | whatever the replies, the trace is a prefix of the plan, the first abort or error is its last event, and it is cut short by nothing else |
| `Hooks.InnerRunsOnce` | internal/gateway/plugin_hooks.go:199-254 | the operation runs at most once, right after the whole way in |
| `Hooks.EventsAreProper` | internal/gateway/plugin_hooks.go:352-410 | every hook event is what the loader said, if it was asked and answered; otherwise the failure is tolerated exactly for operations that are not critical and hooks whose policy allows it; the loader is asked exactly when the breaker is not open; operation and user are shown unchanged |
| `Hooks.FailsClosed` | internal/gateway/plugin_hooks.go:327-410 | with critical hooks, if the operation ran then every listed before and around hook that matches got a genuine reply that was no abort, before the operation |
| `Hooks.ContextPatches` | internal/gateway/plugin_hooks.go:487-519 | a reply changes a context only where it says something, never the caller, header by header, and the last word wins |
| `Hooks.ResultPatches` | internal/gateway/plugin_hooks.go:529-543 | the same of a result, whose action stays |
| `Hooks.ShownAndTakenBack` | internal/gateway/plugin_hooks.go:256-287 | a result is shown to a hook on the way out with its status, headers and body, and what an abort says is the result |
| `HookOrchestrator.OnionPeels` | internal/gateway/plugin_hooks.go:199-252 | the onion's outermost layer is the first visit of the way in and the last of the way out |
| `HookOrchestrator.RunBefore` | internal/gateway/plugin_hooks.go:179-197 | the before loop carries out the before part of the plan |
| `HookOrchestrator.AroundInner` | internal/gateway/plugin_hooks.go:199-252 | the recursive closure carries out the flat onion |
| `HookOrchestrator.RunAfter` | internal/gateway/plugin_hooks.go:262-285 | the after loop carries out the after part in reverse of the sorted list |
| `HookOrchestrator.RunChain` | internal/gateway/plugin_hooks.go:177-288 | the three parts together carry out the plan of all listed hooks that match, with the same trace and outcome |
| `HookOrchestrator.HookOrchestrator.constructor` | internal/gateway/plugin_hooks.go:43-75 | a new breaker is closed, with a threshold of five unless a positive one is set |
| `HookOrchestrator.HookOrchestrator.ListHooks` | internal/gateway/plugin_hooks.go:327-345 | no call while the breaker is open; it opens only after at least `threshold` timeouts since the last other reply |
| `HookOrchestrator.HookOrchestrator.Execute` | internal/gateway/plugin_hooks.go:152-176 | hooks that cannot be listed refuse a critical operation and are skipped for others; a critical operation runs only if they were listed and, when every hook is for critical operations, only after each listed before and around hook that matches gave a genuine reply that was no abort |
| `ObjectCache.FitIsLongestPrefix` | internal/cache/cache.go:84-86 | dropping from the end until the rest fits keeps the longest prefix that fits |
| `ObjectCache.AgreeWithout` | internal/cache/cache.go:127-132 | taking a key out of map and list keeps them in one-to-one agreement, and the size drops by the item's |
| `ObjectCache.AgreeRefront` | internal/cache/cache.go:63-65 | moving an item to the front keeps agreement, size and number of items |
| `ObjectCache.WithoutKeepsOrder` | internal/cache/cache.go:127-132 | taking a key out leaves the other items where they are in the recency order |
| `ObjectCache.ObjectCache.constructor` | internal/cache/cache.go:30-44 | an empty cache, with 30 GiB and five minutes when the arguments are not positive |
| `ObjectCache.ObjectCache.Get` | internal/cache/cache.go:46-70 | a hit is the value last set for the key and moves it to the front; expired items are dropped; hits and misses are counted |
| `ObjectCache.ObjectCache.Set` | internal/cache/cache.go:72-100 | afterwards the list is the new item and the longest fitting prefix of the old order without the key; agreement and the byte bound hold although the map names a removed element in between |
| `ObjectCache.ObjectCache.MakeRoom` | internal/cache/cache.go:84-86 | evicts just enough, while the map may hold one stale entry, and every other entry stays recorded |
| `ObjectCache.ObjectCache.Delete` | internal/cache/cache.go:102-109 | the key leaves map and list, and nothing else does |
| `ObjectCache.ObjectCache.Clear` | internal/cache/cache.go:111-118 | everything is gone and the size is zero |
| `Resumable.OpenedKeeps` | internal/gateway/resumable.go:113-137 | opening a session keeps the run invariant and exactness |
| `Resumable.AcceptKeeps` | internal/gateway/resumable.go:237-278 | an accepted body moves offset, file and checksum together; the upload becomes mixed exactly when the file held other bytes |
| `Resumable.PatchedKeeps` | internal/gateway/resumable.go:158-296 | every PATCH keeps the invariant whatever goes wrong: the offset counts accepted bytes; unless a body was ever accepted over residue, the file starts with the bodies accepted, and a checksum computed since the last body is theirs |
| `Resumable.PatchedExact` | internal/gateway/resumable.go:218-278 | without faults the file is exactly the accepted bodies and the checksum empty or theirs |
| `Resumable.RollbackRestores` | internal/gateway/resumable.go:258-268 | a PATCH rejected for its digest cuts the file back to the offset and changes nothing else, so it leaves the state as it was if and only if the file was as long as the offset |
| `Resumable.DigestGuards` | internal/gateway/resumable.go:208-268 | an accepted PATCH with the digest of everything meant leaves exactly the bodies sent, and a store right after it stores them, unless two files share a digest |
| `Resumable.ResendAfterBreak` | internal/gateway/resumable.go:237-240 | after a broken body, a resend without a digest is accepted and the file is not the bodies sent |
| `Resumable.FinalizeAfterBreak` | internal/gateway/resumable.go:237-240 | after a broken body, with or without a digest, a finalize stores a file that is not the bodies accepted |
| `ResumableRuns.RunIsRightIffNoResidue` | internal/gateway/resumable.go:86-475 | over every run with any faults: each accepted PATCH leaves and each store stores exactly the bodies sent, if and only if each of them found the file as long as the offset |
| `ResumableRuns.LengthIsNotEnough` | internal/gateway/resumable.go:237-278 | a run without storage failures in which a PATCH finds the file as long as the offset, is accepted, and the file is still not the bodies sent, because it was cut back in between |
| `Resumable.FinalizedKeeps` | internal/gateway/resumable.go:344-475 | every finalize keeps the invariant, whatever goes wrong, the removal of the file included; an upload that was never left open by a store is stored at most once |
| `Resumable.StoresAgainExactlyWhenReopened` | internal/gateway/resumable.go:344-475 | after a store, a finalize that is not refused for another reason stores again if and only if the mark was not saved and neither session nor file went away |
| `Resumable.StoredTwice` | internal/gateway/resumable.go:464-475 | the same finalize sent twice then stores the file twice |
| `ResumableRuns.StoredAtMostOnce` | internal/gateway/resumable.go:86-475 | in every run with any faults an upload is stored at most once, unless one of its stores left the session open that way |
| `Resumable.FinalizedExact` | internal/gateway/resumable.go:372-475 | without faults a finalize stores the accepted bodies and the session is gone |
| `Resumable.UploadHandler.HandleCreateSession` | internal/gateway/resumable.go:86-154 | a session with an empty file is opened, or nothing changes: not when saving the session fails, nor when creating the file does |
| `Resumable.UploadHandler.Append` | internal/gateway/resumable.go:158-283 | the checks are made in order; the body is accepted exactly when all pass, it arrives and is saved, and the digest fits; the new state is `Patched` and the reply is `PatchReply`, with the new offset and digest |
| `Resumable.UploadHandler.HandlePatch` | internal/gateway/resumable.go:158-296 | an accepted PATCH that asks for it is finalized at once, with the object, the state and the reply of a finalize of the patched state; otherwise no object changes and the reply is that of the PATCH, or an error when the file cannot be closed |
| `Resumable.UploadHandler.HandleHead` | internal/gateway/resumable.go:300-339 | a request that is entitled is told the number of bytes accepted and the digest, and any other the reason of its refusal |
| `Resumable.UploadHandler.HandleFinalize` | internal/gateway/resumable.go:344-475 | the object is the file with the session's or a new checksum, and the new state is `Finalized` |
| `Resumable.UploadHandler.Serve` | internal/gateway/resumable.go:86-475 | after any run without faults, broken connections counting as faults, every open session is exact and every upload was stored at most once, as the bodies it accepted |
| `ResumableAccess.RefusedExactlyWhenNotEntitled` | internal/gateway/resumable.go:158-190 | PATCH, HEAD and finalize refuse exactly the requests that are not authorized, name no session, are for another bucket or key or come too late |
| `ResumableAccess.OutsidersHaveNoEffect` | internal/gateway/resumable.go:158-190 | a request that is not authorized, names no session, is for another bucket or key or comes too late changes no session, file or object, whatever else goes wrong, and each is told its reason |
| `ResumableAccess.FinalizedTakesNothing` | internal/gateway/resumable.go:186-189 | a finalized session takes no PATCH and no finalize, and says so |
| `ResumableAccess.AcceptedExactly` | internal/gateway/resumable.go:158-278 | a PATCH is accepted if and only if it is entitled, the session is open and has its file, the offset is the session's, the digest fits and nothing goes wrong |
| `ResumableAccess.AcceptedIsTold` | internal/gateway/resumable.go:246-283 | an accepted PATCH is answered with the number of bytes accepted so far and the digest of the whole file; with none when the file cannot be read, or is empty and no digest was given |
| `ResumableAccess.WrongOffset` | internal/gateway/resumable.go:191-206 | a PATCH at another offset, or without one, changes nothing and is told so |
| `ResumableAccess.ChecksumHeader` | internal/gateway/resumable.go:208-216 | the digest to verify is what follows the scheme sha256, in any case; with another scheme or none there is nothing to verify |
| `Strings.LowerLetters` | internal/gateway/resumable.go:208-216 | lower-casing, as the scheme is compared, moves exactly the capital letters |
| `ResumableAccess.EverySessionWasOpened` | internal/gateway/resumable.go:86-475 | every session of every run was opened by an event of the run, and is still for the bucket, key, content type, metadata and time that it asked for |
| `ResumableAccess.StoredWhereOpened` | internal/gateway/resumable.go:86-475 | in every run, what is accepted or stored comes from an authorized request in time, for the bucket and key the upload was opened for, and the object lies there and only there with the content type and metadata of the opening |
| `HotReload.SplitDotted` | internal/config/hotreload.go:218-221 | splitting a dotted path gives its names back |
| `HotReload.DiffStructs` | internal/config/hotreload.go:90-178 | the loop over fields computes the recursive diff |
| `HotReloadDiff.TagNames` | internal/config/hotreload.go:121-131 | a field goes by the first part of its tag, and by its own name when that is empty or a dash |
| `HotReloadDiff.HiddenFields` | internal/config/hotreload.go:115-138 | fields that are not exported or whose tag is a dash have no path and are not compared; all others have one |
| `HotReloadDiff.DiffIsExact` | internal/config/hotreload.go:90-178 | the diff has a change, with path, old and new value, exactly for every visible leaf that differs |
| `HotReload.MergedLeaf` | internal/config/hotreload.go:184-215 | the leaf at every path comes from the new tree if the path is reloadable and from the old one if not |
| `HotReload.MergedDiff` | internal/config/hotreload.go:184-215 | what still differs from the new tree is exactly what was skipped, in order and with the same values |
| `HotReload.MergedTwice` | internal/config/hotreload.go:184-215 | merging a second time changes nothing |
| `HotReload.ReloadedAreSteps` | internal/config/hotreload.go:139-174 | the dotted paths of the reloadable changes name exactly the fields to copy |
| `HotReload.CopyingMerges` | internal/config/hotreload.go:224-275 | copying those fields one by one gives the merged tree |
| `HotReload.AppliedIsMerged` | internal/config/hotreload.go:184-275 | applying the reloadable changes by their dotted paths gives the merged tree |
| `HotReload.ApplyHotReload` | internal/config/hotreload.go:184-215 | the result is the merged tree, of the same type and names; reloaded and skipped paths are the diff's, and the skipped ones are what still differs |
| `HotReload.ApplyTwice` | internal/config/hotreload.go:184-215 | applying the same configuration again changes nothing, reloads nothing and skips the same paths |
| `CanonicalQuery.UnescapeEscape` | internal/gateway/sigv4.go:161-172 | decoding undoes percent-encoding |
| `CanonicalQuery.CanonicalKeepsPairs` | internal/gateway/sigv4.go:145-187 | the canonical form decodes to the same pairs with the same multiplicities, encoded in sorted order |
| `CanonicalQuery.SameFormIffSamePairs` | internal/gateway/sigv4.go:145-187 | two queries have one canonical form if and only if they decode to the same multiset of pairs |
| `CanonicalQuery.CanonicalIsIdempotent` | internal/gateway/sigv4.go:318-330 | canonicalising twice, as the presigned path does, is canonicalising once |
| `CanonicalQuery.ParameterOrderIsIrrelevant` | internal/gateway/sigv4.go:150-180 | permuting the parameters does not change the canonical form |
| `CanonicalQuery.GetCanonicalQueryString` | internal/gateway/sigv4.go:145-187 | the loops and the sort compute the canonical form, whose parameters ascend in dictionary order |
| `CanonicalForm.LeqIsDictionaryOrder` | internal/gateway/sigv4.go:175-180 | the comparison is dictionary order: a beginning comes first, and otherwise the first byte that differs decides |
| `CanonicalForm.CanonicalAscends` | internal/gateway/sigv4.go:175-186 | the parameters of a canonical query are written in ascending dictionary order, by key and then by value |
| `CanonicalForm.KeptAre` | internal/gateway/sigv4.go:170-173 | what stands for itself is the unreserved characters of section 2.3 of RFC 3986, and `$&+=:@` in a path segment |
| `CanonicalForm.EscapedByte` | internal/gateway/sigv4.go:170-173 | any other byte is written as a percent sign and two upper-case hexadecimal digits, and a space in a query as a plus sign |
| `CanonicalForm.DigitsOfEitherCase` | internal/gateway/sigv4.go:160-167 | hexadecimal digits are read in either case |
| `CanonicalForm.CanonicalIsWellEscaped` | internal/gateway/sigv4.go:170-186 | keys and values of a canonical query hold nothing else |
| `CanonicalQuery.MapOrderIsIrrelevant` | internal/gateway/sigv4.go:348-360 | the filtered query is the same for every order of walking the map |
| `CanonicalQuery.FilteredKeepsPairs` | internal/gateway/sigv4.go:318-330 | the filtered query decodes to exactly the pairs of the map that are not excluded |
| `CanonicalQuery.FilterQueryParams` | internal/gateway/sigv4.go:348-360 | the loops and the sort compute the filtered query for a given walking order, whose parameters ascend in dictionary order |
| `CanonicalForm.FilteredAscends` | internal/gateway/sigv4.go:358-359 | the parameters of a filtered query ascend in dictionary order |
| `PresignedQuery.FilteredHasParsed` | internal/gateway/sigv4.go:318-360 | whatever the walking order of the map, the filtered query decodes to exactly the parsed pairs that are not excluded |
| `PresignedQuery.ParameterIsRead` | internal/gateway/sigv4.go:348-360 | the parsed query holds a parameter as its two halves decoded, unless it has a semicolon or one of them does not decode |
| `PresignedQuery.PresignedFormExactlyWhenNothingLost` | internal/gateway/sigv4.go:314-319 | the canonical form of a presigned request is that of its own query without the excluded parameters, if and only if the parser drops none of the others |
| `PresignedQuery.SemicolonIsLost` | internal/gateway/sigv4.go:314-319 | a query that is only a semicolon has another canonical form when it is presigned |
| `CanonicalQuery.CanonicalUriEncodes` | internal/gateway/sigv4.go:125-143 | the canonical path is the segment-wise encoding of the decoded path with a leading slash |
| `CanonicalQuery.SameUriIffSamePath` | internal/gateway/sigv4.go:125-143 | two paths have one canonical form if and only if they mean the same path |
| `CanonicalQuery.CanonicalUriIsIdempotent` | internal/gateway/sigv4.go:125-143 | the canonical path of a canonical path is itself |
| `Sorting.SortedUnique` | internal/gateway/sigv4.go:175-180 | a total order leaves one sorted permutation, so an unstable sort is as good as any |
| `Stemmer.Measure` | internal/fts/tokenizer.go:232-261 | the nested loops count the places where a vowel is followed by a consonant |
| `Stemmer.ContainsVowel` | internal/fts/tokenizer.go:264-271 | true if and only if some byte is a vowel |
| `Stemmer.ReplaceSuffix` | internal/fts/tokenizer.go:155-186 | the first fitting suffix of a table decides, and only if what is left has a boundary |
| `Stemmer.DropSuffix` | internal/fts/tokenizer.go:194-210 | the first fitting suffix decides, with the rule for "ion" |
| `Stemmer.ParticipleKeepsStem` | internal/fts/tokenizer.go:97-122 | removing "eed", "ed" or "ing" leaves a beginning of the word, or one followed by "e"; whenever anything came off, the result still has a vowel |
| `Endings.LongPlurals` | internal/fts/tokenizer.go:85-94 | "-sses" becomes "-ss" and "-ies" becomes "-i" |
| `Endings.DoubleS` | internal/fts/tokenizer.go:90-91 | "-ss" stays |
| `Endings.PlainPlural` | internal/fts/tokenizer.go:85-94 | any other single "-s" comes off |
| `Endings.NoPlural` | internal/fts/tokenizer.go:85-94 | a word without a final "s" stays |
| `Endings.Eed` | internal/fts/tokenizer.go:97-101 | "-eed" becomes "-ee" behind a boundary and stays otherwise |
| `Endings.EdAndIng` | internal/fts/tokenizer.go:102-112 | "-ed" and "-ing" come off behind a vowel, with the rest tidied, and stay otherwise |
| `Endings.TidiedWithE` | internal/fts/tokenizer.go:113-116 | tidying puts an "e" back behind "at", "bl" and "iz" |
| `Endings.TidiedDouble` | internal/fts/tokenizer.go:116-118 | it drops one of two equal consonants, other than l, s and z |
| `Endings.TidiedShort` | internal/fts/tokenizer.go:118-121 | it puts an "e" behind a short syllable with the only boundary |
| `Endings.FinalY` | internal/fts/tokenizer.go:124-127 | a final "y" becomes "i" behind a vowel |
| `Endings.FirstRule` | internal/fts/tokenizer.go:155-186 | the first fitting suffix of a table is replaced behind a boundary and stays otherwise |
| `Endings.FirstSuffix` | internal/fts/tokenizer.go:194-210 | the first fitting suffix comes off behind two boundaries, "ion" only behind s or t, and stays otherwise |
| `Endings.FinalE` | internal/fts/tokenizer.go:212-220 | a final "e" comes off behind two boundaries, or behind one unless a short syllable comes before it |
| `Endings.FinalLl` | internal/fts/tokenizer.go:222-226 | a final "ll" loses one l behind two boundaries |
| `Stemmer.StemIsShort` | internal/fts/tokenizer.go:78-228 | a stem is no longer than its word, and empty only if the word is |
| `Stemmer.PorterStem` | internal/fts/tokenizer.go:78-228 | no slice is out of range, and the steps in order give the stem |
| `Tokenizer.Tokenize` | internal/fts/tokenizer.go:45-74 | the pass yields the stems of the maximal runs of letters and digits that are terms, numbered from zero, none empty |
| `Tokenizer.TokensAreTerms` | internal/fts/tokenizer.go:57-61 | no term is empty, and positions count up from zero |
| `Highlight.IndexIsFirst` | internal/fts/hybrid.go:225 | no occurrence comes before the one found |
| `Highlight.MarkedInserts` | internal/fts/hybrid.go:224-236 | marking only inserts, and changes a text if and only if the term occurs in its lower-case form |
| `Highlight.MarkedExactlyWithin` | internal/fts/hybrid.go:224-236 | marking a term panics if and only if the last occurrence taken in the lower-case form ends behind the text |
| `Highlight.SafeForAllTermsExactlyWhenNotLonger` | internal/fts/hybrid.go:220-234 | a text can be marked for every term if and only if its lower-case form is not longer |
| `Highlight.LongerLowerCasePanics` | internal/fts/hybrid.go:220-234 | looking for the lower case of U+023A in that letter panics |
| `Highlight.MarkTerm` | internal/fts/hybrid.go:219-237 | the search ends for every non-empty term, and what is written piece by piece is the marked text, or a panic |
| `Highlight.HighlightTerms` | internal/fts/hybrid.go:216-240 | for any text and any lower-casing, the original text is a subsequence of the result unless it panics, and an ASCII text never does |
| `Highlight.HighlightQuery` | internal/fts/hybrid.go:216-240 | the terms of every query meet what the highlighter needs, so it ends on them, with the same result |
| `Highlight.EmptyTermStandsStill` | internal/fts/hybrid.go:224-236 | an empty term is found where the search stands, at every place |

## Left out

- Policy.Evaluate: the source repeats the loops of `EvaluateWithBoundary` here, which the model calls, so that the two agree is by construction. condition operators, condition keys, variables, dates, numbers and address ranges are one predicate of the request; all results hold for any such predicate.
- Matching.ActionMatchIsGlobExactlyForTameServices: case folding is any map from characters to bytes that keeps `*`, `?`, `:` and `x` and makes none of the first three from another character, as lower-casing does.
- InvertedIndex.InvertedIndex.Candidates: scores, their order and the cut to the best results are not modelled; it gives the set of documents a search can return.
- InvertedIndex.InvertedIndex.AddDocument: document ids and token counts are unbounded integers, and the exactness of `docCount` and of average lengths, which deletes do not keep, is not claimed.
- PostingsCodec.RoundTrip: the length of the longest possible slice is a parameter; the codec has its own posting type over 64-bit words.
- EventBusProofs.EveryRun: that work ends and never gets stuck is in `EventBusProgress`; that a scheduler gives every goroutine its turn is not modelled. Callbacks, metrics and the HTTP side of a webhook are not modelled, and an attempt is a success or a failure.
- EventBusProofs.InitInv: the bus starts with its dispatcher, workers and retry loop running; a bus that was created and not yet started is not a state.
- EventBusProofs.NoReportAfterRetriesStop: a `Stop` that comes before `Start` is outside the model, and the statement would not hold of it.
- DeadLetters.StepKeepsInv: the retry timer is a step that may happen at any time, and files written for dead letters are a list.
- HookOrchestrator.HookOrchestrator.Execute: requests one after the other; conditions are a predicate per hook, and the 32-bit truncation of status codes and the copying of contexts are not modelled.
- ObjectCache.ObjectCache.Set: map and list hold item values instead of sharing pointers to list elements, and sizes are unbounded. The metadata and query caches of the same file are not modelled.
- Resumable.UploadHandler.HandleCreateSession: the identifier is new by requirement; parsing of the headers that fill a session is not modelled.
- Resumable.UploadHandler.HandlePatch: two requests on one session at the same time, and offsets beyond 2^63, are not modelled.
- Resumable.UploadHandler.HandleFinalize: encryption, tiering, write tasks, events and audit after the store are not modelled; the bytes are those handed to the store.
- HotReload.ApplyHotReload: for two values of one struct type whose exported siblings have distinct names without dots; before re-normalisation. Pointer and interface fields are leaves, the copy into the nested struct is a new tree, and the table of reloadable names is a parameter.
- CanonicalQuery.FilterQueryParams: the parsed query is a given map.
- PresignedQuery.PresignedFormExactlyWhenNothingLost: parsing is that of the Go standard library, without its limit on the number of parameters.
- CanonicalQuery.CanonicalUriEncodes: signed headers, the string to sign, the signature and the time checks are not modelled.
- Tokenizer.Tokenize: which runes are letters or digits, and their lower-case bytes, are parameters.
- Highlight.HighlightTerms: lower-casing is a parameter; snippets and rank fusion are not modelled.
- HTTP handlers, authentication, the CLI, admin APIs, JSON and XML encoding, and the metadata store.
- Encryption, hashing, signatures, TLS and key management, beyond a hash as a function.
- Vector search, tiering, rate limiting, background task queues, the plugin loader, multipart uploads and listing.
