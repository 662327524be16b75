# Verified model of the site's state and proof heavy logic

A Dafny model of six parts of the repository, with the properties they are for.

- **Navigation cancellation tracker** (`Tracker`, `TrackerTraces`, `TrackerRuns`, `TrackerRecords`, `TrackerConservation`, `TrackerWiring`). The
  browser fixture's object over pages, generations, attempts and pending abort batches. It is a class with
  the same dictionaries as the original, proved against a per-page transition function. The results are about
  whole event sequences: no batched abort is lost or duplicated, and exactly two patterns of events explain one, and what every request record, classification and batch
  says is told by the events of the run.
- **CI decision engine**. `Reachability`, `Ownership` and `Impact` are the ownership policy; `Manifest` and
  `Evidence` the digests, supersession and reuse of evidence; `Verification` the plan and the report with their
  validators, `Reports` with the result directory it reads; `NameStatus` and `Selection` the diff parser and the test-profile choice; `Schedule` and
  `ScheduleLoop` the nightly selector, alone and in closed loop with the history it writes (a run's conclusion is
  the verdict of the scheduled gate).
- **Sign-in return targets** (`Percent`, `Paths`, `SafeNext`): bounded percent decoding, path normalisation
  compared with section 5.2.4 of RFC 3986, and the safety of every target handed out.
- **Markdown scanners** (`Scanning`, `DocsLinks`, `FaqTokens`): the link rewriter of the documentation pages and
  the image-token rewriter of FAQ answers, as index loops proved against declarative meanings of brackets,
  escapes, code spans and fences.
- **Flake policy** (`FlakePlugin`, `Words`, `FlakePolicy`): the plugin that counts and prints, the parser that reads
  the line back, and the report that judges it.
- **Catalogue caches** (`Stamps`, `CatalogueStore`, `EventCredits`, `LruCache`, `Catalogue`): a store with writes, deletes, enabling,
  disabling, releases, events and their relations, and the stamp-keyed and release-keyed evicting caches on top of it.

`Wrappers`, `Sequences` and `Text` hold shared vocabulary. Where the original changes an object in place the model is a
class; where it loops over locals the model is a method with a loop; both are proved against functions, and
the lemmas are about those functions. Exceptions are `None`, `Err`, `Raised`, `Raises` or a `false` result, as each member says.

`dafny verify dfyconfig.toml` checks the whole project. No part of the original program is run.

## How to read the results

Some claims one would expect are false of the code. The model keeps the code and states where the claim holds.

- A supersession cycle is not always reported as ambiguous: `CycleBesideHeadIsNotReported`, `SelectedChainIffAcyclic`. This is a fact about the
  bare selector: its callers pass validated envelopes, whose identity is the SHA-256 of content that includes what they supersede
  (ci/evidence.py:579-582), so a cycle among those needs a cycle of hashes.
- A built plan can fail its own validator, for documentation that renders: `PlanPassesIff`, `DocumentationCanRender`, `DocsPageRenders`.
- A malformed digest makes the selector raise in some branches only: `MalformedDigestIff`,
  `MalformedDigestRaises`.
- The verdict of a report on a plan that reruns something unrequired can disagree with the validator's: `VerdictsAgreeIff`,
  `UnrequiredRerunDisagrees`; plans as built never make it so (`RerunIsRequired`, `RequiredRerunsStand`).
- A report can be built and then refused, for reused evidence that no longer stands: `CreatedReportPassesIff`,
  `MissingReuseIsRefused`.
- Profiles cached under the event stamp follow their events only under a rule the imports keep: `StampTellsIff`,
  `SilentLinkHides`, `SilentChangeIsServed`. Event records have the stamps of more tables in their key, and there too a rule
  is needed: `EqualStampsEqualTables`, `RewrittenLinkHides`. `ProgramRunKeepsRules`: the program keeps both.
- Escalation to the full profile is final only for records with substance: `EscalationIsFinalIff`.
- Text and code pieces of an FAQ answer need not alternate: `AlternatesIff`, `CodePiecesCanTouch`; two pieces of text never meet
  (`PiecesCover`).
- A flake report is not built for every output: `ReportIsBuiltIff`, `SuperscriptRaises`.
- Rewriting the links of a page can raise: `DocsLinks.RaisesIff`, `OpenBracketRaises`.
- A flake report can give the reason "complete" and still be a failure: `ReasonAgreesIff`, `CleanExitHidesFailure`.
- Stamps identify rows only while every write takes a later time: `ReusedTimeHides` shows what a reused time does.

For sign-in targets `AbsoluteRequestNeverRaises` is the result about real requests. `RaisesIff` and `EscapedSlashRaises` are
facts about the bare function: they speak of request objects whose path lacks the leading slash that the server always gives.

Functions given as parameters stand for what the model does not look into: text codecs, regular expressions, white
space tests, URL policies, evidence checks, record derivations. The results hold for all of them; where one must behave in
some way (a codec is injective, a match is not empty, `<` is not white space) a predicate says so. Literal tables
(account routes, summary format, events link) are values that a lemma shows to meet the predicate of their module.

## Model

| member | source | states |
|---|---|---|
| `Tracker.NavigationCancellationTracker.constructor` | conftest.py:186-196 | A new tracker knows nothing of any page, request or abort. |
| `Tracker.NavigationCancellationTracker.OnRequestStarted` | conftest.py:198-231 | A started request changes its page by the transition function and records the generation and attempt it belongs to. |
| `Tracker.NavigationCancellationTracker.OnRequestFinished` | conftest.py:233-243 | A finished request ends its own attempt and settles the batch of its page; an unknown request changes nothing. |
| `Tracker.NavigationCancellationTracker.BeginPageClose` | conftest.py:245-249 | Closing a page reports its batch, ends its attempt and marks it as closing. |
| `Tracker.NavigationCancellationTracker.BeginNavigation` | conftest.py:251-266 | A navigation reports the pending batch and opens the next generation with an attempt of its own. |
| `Tracker.NavigationCancellationTracker.OnNavigationCommitted` | conftest.py:268-276 | A commit settles the batch: the first one of a generation explains the batch of that generation's attempt. |
| `Tracker.NavigationCancellationTracker.OnNavigationFailed` | conftest.py:278-281 | A failed navigation reports the batch and ends the attempt. |
| `Tracker.NavigationCancellationTracker.BeginContextClose` | conftest.py:283-287 | Closing the context reports every batch in dictionary order and ends every attempt. |
| `Tracker.NavigationCancellationTracker.TrackAbort` | conftest.py:289-339 | A failed request is refused, accepted or batched as its classification says, and the whole new state follows. |
| `Tracker.NavigationCancellationTracker.HoldAbort` | conftest.py:312-339 | An abort of a tracked request seals the page's batch when the page has navigated since, and joins or replaces it otherwise. |
| `Tracker.NavigationCancellationTracker.TakeUnexplainedAborts` | conftest.py:341-346 | Taking returns the unexplained aborts followed by every pending one, in order, and leaves none. |
| `Tracker.NavigationCancellationTracker.SealInactivePending` | conftest.py:353-361 | A batch that belongs to no active attempt is reported. |
| `Tracker.NavigationCancellationTracker.ResolveRendererNavigationBatch` | conftest.py:368-382 | A batch of the present generation and the event just before is dropped, any other is reported. |
| `Tracker.NavigationCancellationTracker.ResolveCommitBatch` | conftest.py:384-393 | A batch of the committed generation's attempt is dropped, any other is reported. |
| `TrackerWiring.Dispatch` | conftest.py:183-406 | Whatever the event, the object goes to the state the run prescribes and keeps the invariant, and returns what the run returns. |
| `TrackerWiring.Replay` | conftest.py:183-406 | A new tracker put through any event sequence holds the state of the run, and what it handed out is what the run says was taken. |
| `TrackerTraces.StepKeepsInv` | conftest.py:183-406 | Every event keeps: a pending batch and an active attempt carry the page's generation, a closing page or context holds no batch, and the pending order lists each page with a batch once. |
| `TrackerTraces.RunInv` | conftest.py:183-406 | The invariant holds after every sequence of events. |
| `TrackerTraces.StepFollowsFate` | conftest.py:183-406 | One event gives a pending batch exactly the fate an independent case table prescribes, and a new abort joins one batch once. |
| `TrackerTraces.StepReports` | conftest.py:341-351 | The unexplained list grows by exactly the reported batches, in dictionary order. |
| `TrackerRuns.EveryAbortLeavesOnce` | conftest.py:183-406 | Over every event sequence the aborts batched on a page are, in order, those that left the pending dictionary followed by those still in it: none is lost or duplicated. |
| `TrackerRuns.EveryReportIsTakenOnce` | conftest.py:341-351 | Over every event sequence the aborts taken followed by those waiting are exactly the reported ones, each once and in order. |
| `TrackerRuns.TakingSettlesAll` | conftest.py:341-346 | After taking, every abort batched so far has left and every reported one was handed out. |
| `TrackerConservation.Conservation` | conftest.py:183-406 | Over every event sequence and all pages together, the batched aborts are as a multiset the silently explained, the taken, the waiting and the still pending ones. |
| `TrackerConservation.StepBalance` | conftest.py:183-406 | One event moves aborts between these groups and creates or destroys none but the one it batches. |
| `TrackerRuns.NavigationExplainsIff` | conftest.py:368-382 | A request explains a batch if and only if it starts a new main navigation as that page's very next event, in the same generation. |
| `TrackerRuns.CommitExplainsIff` | conftest.py:384-393 | A commit explains a batch if and only if it is the first commit of the page's present generation and the batch belongs to the attempt of that generation. |
| `TrackerRuns.OnlyNavigationExplains` | conftest.py:183-406 | No other event ever drops a batch silently. |
| `TrackerRuns.StampIsLastTouch` | conftest.py:363-382 | The tracker's counter test is about the run: the page's last event batched an abort, in the present generation. |
| `TrackerRuns.LastTouchIsStamp` | conftest.py:363-382 | Conversely, when the page's last event batched an abort, the counters say so. |
| `TrackerRuns.CommittedIsLatest` | conftest.py:268-276 | The recorded commit is the latest generation any commit of the page fell in. |
| `TrackerRuns.RecordHasStart` | conftest.py:198-231 | Every request record goes back to the start of that request, in the generation it names. |
| `TrackerRuns.ClosingWasAnnounced` | conftest.py:245-287 | A page or the context counts as closing exactly when an event of the run said so. |
| `TrackerRuns.AcceptedAbortHasCause` | conftest.py:289-339 | An abort is accepted only after a close, after a newer navigation than its request, or by being batched. |
| `TrackerRecords.AttemptStep` | conftest.py:198-287 | One event opens, claims, ends or keeps the attempt of a page, and only an opening moves its generation on; which it does is told by the event and the page alone. |
| `TrackerRecords.GenerationCounts` | conftest.py:198-266 | The generation of a page is the number of its navigations so far. |
| `TrackerRecords.RecordIff` | conftest.py:198-231 | A request has a record exactly when its latest event started it. The record says whether its address is of the same origin and whether it is such a navigation of the main frame, and it names an attempt exactly when the address is of the same origin and the page had an attempt once the request had started. |
| `TrackerRecords.AbortKindIff` | conftest.py:289-339 | Which failures are no concern and which aborts are dropped for a close, dropped for a newer navigation, or batched: for each of the four, exactly the runs in which it happens. |
| `TrackerRecords.BatchHolds` | conftest.py:312-339 | A pending batch holds, one for one, the aborts of requests that all have its generation and its attempt. |
| `TrackerRecords.CommitExplainsStarted` | conftest.py:384-393 | A commit explains a batch if and only if it is the first one of the page's present generation and the aborted requests, any or all of them, were started while an attempt of the page was under way. |
| `TrackerRecords.OrderIsBegun` | conftest.py:283-287 | Pending batches stand, and are reported, in the order in which they began. |
| `Schedule.RelevantRuns` | ci/schedule.py:531-571 | The loop over raw runs returns the relevant ones or the first malformed run's error. |
| `Schedule.FullRegressionMarker` | ci/schedule.py:581-609 | The loop over jobs finds the regression marker, absence, or a malformed or repeated one. |
| `Schedule.HistoryMeans` | ci/schedule.py:531-571 | The runs decided on are, in order, exactly the readable ones of the newest hundred that belong to the schedule on the default branch and precede the current run; an error means that one of those cannot be read. |
| `Schedule.MarkerMeans` | ci/schedule.py:581-609 | A marker is read exactly when the jobs of the run say it: one job of the name with that conclusion, or none of the name. |
| `Schedule.DecisionMeans` | ci/schedule.py:60-173 | Every decision gives the reason, previous run, anchor, depth and states that the history shows; the history is unavailable only for a malformed commit, a broken run, an unreadable marker, or a state that cannot be compared. |
| `Schedule.DecideSchedule` | ci/schedule.py:60-173 | The selector's loop computes the decision of the specification, with its errors; a decision is the one its history calls for, part by part. |
| `Schedule.ScanFindsCleanAnchor` | ci/schedule.py:103-141 | An anchor without later failure found by the scan is a full pass behind which only successful runs without a full regression lie. |
| `Schedule.CleanAnchorIsFound` | ci/schedule.py:103-141 | If such an anchor exists the scan finds it, at its depth. |
| `Schedule.SkipIff` | ci/schedule.py:60-173 | A run is skipped if and only if some run of the window is a clean anchor and recorded the same state. |
| `Schedule.DecisionsAreValid` | ci/schedule.py:612-638 | With a well-formed digest or none, every decision the selector builds passes its own validator. |
| `Schedule.ValidDecisionIff` | ci/schedule.py:192-266 | The decisions that the validator accepts: well-formed parts, and a skip exactly for the two reasons that cover one. |
| `Schedule.MalformedDigestIff` | ci/schedule.py:612-638 | With a malformed digest, exactly when the decision refers to it without a comparison is it refused. |
| `Schedule.MalformedDigestRaises` | ci/schedule.py:103-117 | A concrete input: a malformed digest and no history at all. |
| `Schedule.UnavailableIsValid` | ci/schedule.py:176-189 | The decision for an unreadable history passes the validator; it is a full run that claims nothing about the history and keeps only well-formed inputs. |
| `ScheduleLoop.NormalizeOutcomes` | ci/gate.py:339-346 | Outcomes are accepted exactly when they name the required jobs and only those; an unknown conclusion becomes a failure. |
| `ScheduleLoop.ScheduledGate` | ci/gate.py:284-309 | The gate passes exactly when the selector and every job did what the decision asked; it raises exactly when the outcomes name other jobs. |
| `ScheduleLoop.ReadsWindow` | ci/schedule.py:531-571 | In the loop the selector reads the newest records, at most a hundred, one for one. |
| `ScheduleLoop.MarkerOfRecord` | ci/schedule.py:581-609 | A successful record shows a passed marker when it ran in full and a skipped one otherwise. |
| `ScheduleLoop.EverySkipIsCovered` | ci/schedule.py:60-173 | In every run of the loop a skip has, within a hundred runs, an earlier full pass at the same digest with only successful skips between. |
| `ScheduleLoop.FailureForcesFullRuns` | ci/schedule.py:60-173 | After a run that did not succeed, any later skip has a full pass in between. |
| `ScheduleLoop.AtMostHundredSkips` | ci/schedule.py:60-173 | At most a hundred runs in a row skip. |
| `ScheduleLoop.CoveredStateSkips` | ci/schedule.py:60-173 | While the window can be read, a covered state is skipped. |
| `ScheduleLoop.SkipsAreReached` | ci/schedule.py:60-173 | For every number up to a hundred there is a run of the loop with that many skips: the bound is attained. |
| `ScheduleLoop.LoopDecisionsAreValid` | ci/schedule.py:192-266 | Every decision the loop acts on passes the validator. |
| `Reachability.CycleSearch.Visit` | ci/ownership.py:426-435 | The recursive visit terminates and answers false exactly by meeting an active node again, keeping the finished nodes in topological order. |
| `Reachability.RejectCycles` | ci/ownership.py:422-438 | The check refuses a graph if and only if it has a cycle. |
| `Reachability.TopologicalIsAcyclic` | ci/ownership.py:422-438 | A graph whose nodes can be listed after all their downstream nodes has no cycle. |
| `Reachability.Downstream` | ci/ownership.py:410-419 | The worklist returns exactly the nodes reachable in one or more steps. |
| `Ownership.ValidateOwnership` | ci/ownership.py:193-213 | The ownership part of the validator passes if and only if the policy is accepted by its definition. |
| `Ownership.SortedNesting` | ci/ownership.py:200-206 | Comparing each sorted prefix with later ones finds a nested pair exactly when there is one. |
| `Ownership.AtMostOneOwner` | ci/ownership.py:406-407 | In an accepted policy no path has two owners. |
| `Ownership.AcceptedIffUnambiguous` | ci/ownership.py:193-213 | A well-shaped policy is accepted if and only if no path has two owners and no node nests its own prefixes. |
| `Ownership.ValidPathIff` | ci/ownership.py:459-466 | The valid paths are the proper names joined by slashes. |
| `Ownership.OwnsIff` | ci/ownership.py:406-407 | A node owns the paths it lists and those that begin with one of its prefixes. |
| `Impact.ImpactForPaths` | ci/ownership.py:320-388 | The loop computes the impact of the path list, downstream closure included. |
| `Impact.ImpactOfConcat` | ci/ownership.py:320-388 | The impact of two non-empty lists together is the join of their impacts: unions, and a conjunction for the documentation flag. |
| `Impact.DirectIsPointwise` | ci/ownership.py:320-388 | What is in the impact of a list is in the impact of one of its paths, and conversely. |
| `Impact.ImpactDependsOnTheSet` | ci/ownership.py:320-388 | The order of the paths and their repetition never matter. |
| `Impact.AcceptedOwnerIsUnique` | ci/ownership.py:337-342 | In an accepted policy the owner lookup finds one node or none, and one exactly when somebody owns the path. |
| `Impact.DocumentationOnlyMeans` | ci/ownership.py:320-388 | A documentation-only impact has the documentation node as its only owner and nothing unknown. |
| `Impact.ImpactMeans` | ci/ownership.py:320-388 | Owners, components, risk flags, render reasons and unknown paths of an impact, each told path by path from the policy, and when it is documentation-only. |
| `Impact.ClosureMeans` | ci/ownership.py:343-388 | The downstream nodes are those reachable from an owner, and the test labels are theirs. |
| `Manifest.DigestManifest` | ci/evidence.py:372-397 | A manifest is refused unless its paths are safe and strictly sorted and its fields fit, with the error of its first fault; otherwise the hashed bytes are the length-prefixed stream. |
| `Manifest.StreamIsUniquelyDecodable` | ci/evidence.py:372-397 | Two accepted manifests with the same hashed bytes are equal. |
| `Manifest.ComponentInputs` | ci/evidence.py:400-415 | The inputs of a component are computed by group, and no part of an accepted manifest is ever refused. |
| `Manifest.GroupsPartition` | ci/evidence.py:418-443 | The five groups split the selected entries: each entry is in its own group as often as in the whole, and in no other. |
| `Manifest.GroupIff` | ci/evidence.py:418-443 | A path is in the group that its folders and its name say, the five conditions tried in their order. |
| `Manifest.StreamIs` | ci/evidence.py:372-397 | The hashed bytes are the streams of the entries in their order, each its fields with their lengths before them. |
| `Manifest.SelectedIs` | ci/evidence.py:400-415 | The selected entries are those with a matching path, as often as in the whole and in its order. |
| `Manifest.PartsAreAcceptable` | ci/evidence.py:400-415 | Selection and grouping keep an accepted manifest acceptable. |
| `Evidence.SelectLatest` | ci/evidence.py:1031-1073 | Returns a candidate whose envelope is the only unsuperseded one of the newest instant, and reports ambiguity exactly when there is none. |
| `Evidence.HeadIsUnique` | ci/evidence.py:1031-1073 | There is at most one such envelope. |
| `Evidence.OrderDoesNotMatter` | ci/evidence.py:1031-1073 | The envelope chosen does not depend on the order or repetition of the candidates. |
| `Evidence.HeadIffOneChain` | ci/evidence.py:1065-1073 | When no supersession cycle is tied, selection succeeds exactly when the tied envelopes form one chain, and returns its head. |
| `Evidence.SelectedChainIffAcyclic` | ci/evidence.py:1065-1073 | When selection succeeds, the tied envelopes form one chain if and only if no cycle is tied beside the head. |
| `Evidence.CycleBesideHeadIsNotReported` | ci/evidence.py:1065-1073 | A fact about the bare selector: a cycle beside a lone unsuperseded envelope is not reported as ambiguous. Envelopes that pass validation carry a hash of their content as identity, so their callers never hand it one. |
| `Evidence.ChooseReusable` | ci/evidence.py:1076-1162 | What is reused equals the plan in component, inputs, environment, policy and contract, is the newest such envelope, and nothing newer failed or superseded it; its stored copy passes. Nothing is returned only when every eligible envelope has a stored copy that fails its checks, and the reason of a refusal names the field or check that speaks against reuse. |
| `Evidence.Judge` | ci/evidence.py:1121-1162 | The checks on the newest fitting envelope: it is reused exactly when it is eligible and its stored copy passes, and otherwise the reason is one that holds. |
| `Evidence.ReuseNeverHidesAFailure` | ci/evidence.py:1076-1162 | Reused evidence equals the plan in every fixed field; everything strictly newer of the same component succeeded, does not supersede it and differs from the plan. |
| `Evidence.EligibilityIgnoresOrder` | ci/evidence.py:1076-1162 | Whether an envelope may be reused depends on the set of candidates only. |
| `Verification.RequiredCaptures` | ci/verification.py:1424-1461 | One capture for every route the impact reaches (or every route) and every viewport, and nothing else. |
| `Verification.RequiredCapturesAreOk` | ci/verification.py:1464-1496 | Those captures pass the validator's checks, uniqueness included. |
| `Verification.BuildPlan` | ci/verification.py:401-455 | A plan is focused only if nothing is unknown, renders or carries a risk that forces the full profile, and the one owner is an application; it is for documentation exactly when the impact is documentation-only and known, and full otherwise, with its reason. Which components run fresh, are covered by evidence or do not apply follows, and the captures are the required ones. |
| `Verification.RisksAreRanked` | ci/verification.py:1581-1592 | Every flag that forces the full profile has its place in the order of reasons, and no other flag has one. |
| `Verification.PlanOkMeans` | ci/verification.py:459-554 | The plans that the validator accepts, stated on their dispositions, evidence and captures. |
| `Verification.PlanPassesIff` | ci/verification.py:537-553 | For every policy, change set and reuse oracle a plan of the specified shape, with proper captures, passes the cross-field checks of its validator if and only if the impact is not both documentation-only and render-impacting. |
| `Verification.DocumentationCanRender` | ci/verification.py:1626-1652 | That exception occurs: a documentation file with a rendered extension. |
| `Verification.DocsPageRenders` | ci/ownership.json:76-109 | It occurs in every accepted policy with the program's documentation node and rules: the page `_docs/a.html`. |
| `Verification.DocsNodeIsAccepted` | ci/ownership.json:76-76 | Such a policy exists: that node by itself is accepted. |
| `Verification.PlanChange` | ci/verification.py:293-456 | From changed paths to the validated plan: none exactly when the impact is documentation-only and render-impacting, otherwise an accepted plan of the specified shape. |
| `Verification.RerunIsRequired` | ci/verification.py:430-455 | A built plan reruns only what it requires. |
| `Reports.FindResult` | ci/verification.py:626-637 | Per component the one latest stored envelope is looked up and checked, or the directory is ambiguous. |
| `Reports.CreateReport` | ci/verification.py:616-744 | A report is built exactly when no component's latest result is ambiguous, and it is the specified one for the results found. |
| `Reports.VerdictsAgreeIff` | ci/verification.py:1000-1023 | The accumulated verdict equals the one recomputed from the buckets exactly when an unfinished component that is not required comes with a required unfinished one or a failed fresh result; the condition is on plan, phase and results. |
| `Reports.UnrequiredRerunDisagrees` | ci/verification.py:1000-1023 | A concrete accepted plan on which the two verdicts differ. |
| `Reports.RequiredRerunsStand` | ci/verification.py:430-455 | A plan that reruns only what it requires always meets that condition. |
| `Reports.ReportAccounts` | ci/verification.py:638-735 | Every component is in exactly the bucket its disposition calls for, with its own evidence and, when it is skipped, the reason that its result gives. |
| `Reports.SuccessMeansCovered` | ci/verification.py:638-744 | Success means every required component has a matching successful rerun or the plan's own reused reference. |
| `Reports.FitPassesIff` | ci/verification.py:958-990 | A fresh result found fitting passes the validator as soon as no second stored envelope has its identity. |
| `Reports.ReportOkIff` | ci/verification.py:789-1023 | The reports that the validator accepts: every component in its bucket, all evidence stored as its entry says, playwright successes counted, and the verdict the one the entries call for. |
| `Reports.CreatedReportPassesIff` | ci/verification.py:789-1023 | For every accepted plan and every result directory the report passes the validator's cross-field checks if and only if the verdicts agree, every reused reference has exactly one stored envelope that fits, passes its checks and is what the reference says, no second envelope carries the identity of a fresh result, and playwright evidence carries its counts. |
| `Reports.ReportOnPlan` | ci/verification.py:616-744 | The validated report on an accepted plan: there is one only if no latest result is ambiguous, the verdicts agree and all evidence stands, and when there is none one of these fails. |
| `Reports.ReportOnChange` | ci/verification.py:293-744 | From changed paths to the validated report: a built plan is refused only for documentation that renders, and on an accepted one only ambiguous results or evidence that no longer stands prevent a report. |
| `Reports.MissingReuseIsRefused` | ci/verification.py:950-957 | With an empty result directory every report that reuses evidence is built and then refused. |
| `Percent.BoundedPercentDecode` | accounts/navigation.py:48-66 | The decoding loop returns the text of the specification or refuses. |
| `Percent.UnquoteShrinks` | accounts/navigation.py:48-66 | A round with an escape to decode makes the text shorter, a round without changes nothing. |
| `Percent.DecodedIff` | accounts/navigation.py:48-66 | A text is accepted exactly when it is well formed and free of escapes after at most three rounds, each of which was needed, decodable and free of control characters. |
| `Percent.UnquoteQuote` | accounts/navigation.py:131-141 | One round of unquoting undoes quoting with the percent sign unsafe. |
| `Percent.UnquoteMeans` | accounts/navigation.py:48-66 | A round turns the escape that stands first into its byte and leaves any other first character. |
| `Percent.MalformedIff` | accounts/navigation.py:48-66 | A text is malformed when a percent sign in it starts no escape, and has escapes exactly where a percent sign and two hexadecimal digits stand. |
| `Paths.NormalizeAbsolutePath` | accounts/navigation.py:69-86 | The segment loop computes the normalised path, or refuses a path that is not local. |
| `Paths.NormalizedShape` | accounts/navigation.py:69-86 | An accepted path becomes one with a single leading slash, no empty interior segment and no dot segment. |
| `Paths.NormalizedIsIdempotent` | accounts/navigation.py:69-86 | Normalising again changes nothing. |
| `Paths.NormalIsFixed` | accounts/navigation.py:69-86 | Exactly the normal paths without a backslash are left as they are. |
| `Paths.NormalizedIsRemoveDotSegments` | accounts/navigation.py:69-86 | On absolute paths without a double slash and without a backslash the result is that of remove_dot_segments, section 5.2.4 of RFC 3986. |
| `Paths.DoubleSlashIsOne` | accounts/navigation.py:69-86 | Two slashes in a row count as one, except at the beginning. |
| `SafeNext.SafeNextIsSafe` | accounts/navigation.py:154-179 | Every target handed out is printable, its path part is normal and no account transition, and it decodes in one round to a normal path that further decoding cannot change and that is no transition either. |
| `SafeNext.SafeNextLeadsTo` | accounts/navigation.py:109-141 | A target other than the fallback decodes to the path the reference resolves to. |
| `SafeNext.ResolvedMeans` | accounts/navigation.py:89-106 | A path is resolved as it stands when it is rooted, and otherwise, unless it has a scheme, against the directory of the request. |
| `SafeNext.CanonicalIff` | accounts/navigation.py:109-141 | A reference is accepted exactly when it is not empty, not too long, without surrounding white space and control characters, names no host and no scheme, and its parts decode; the target is its resolved path, query and fragment, requoted. |
| `SafeNext.TransitionIff` | accounts/navigation.py:144-151 | The paths of signing in and out: with its closing slash one of the listed paths, or one with the prefix and one of the suffixes. |
| `SafeNext.SafeNextMeans` | accounts/navigation.py:154-179 | A private request and an unacceptable target get the fallback, and so does a target that is a transition; any other target is handed out. |
| `SafeNext.ResolvedIsNormal` | accounts/navigation.py:89-106 | A resolved path is normal, holds no escape and normalises to itself. |
| `SafeNext.TransitionQuoted` | accounts/navigation.py:144-151 | The transition check on the quoted path decides about the path itself. |
| `SafeNext.RaisesIff` | accounts/navigation.py:170-179 | The bare function raises exactly when the target is acceptable but the path of the request object does not start with a slash or backslash. |
| `SafeNext.AbsoluteRequestNeverRaises` | accounts/navigation.py:154-179 | For requests as the server delivers them, whose path starts with a slash, the function never raises. |
| `SafeNext.EscapedSlashRaises` | accounts/navigation.py:170-179 | A request object on which it raises, of a kind the server does not deliver: its path is an escaped slash. |
| `SafeNext.PlainTargetIsKept` | accounts/navigation.py:154-179 | A local target of safe characters with a normal path is handed back unchanged unless it is an account transition. |
| `SafeNext.AccountRoutesAreRoutes` | accounts/navigation.py:19-26 | The routes of the program meet what the results ask of routes. |
| `NameStatus.ParseNameStatus` | ci/selection.py:65-97 | The index loop computes the specified records, or the first error and its kind. |
| `NameStatus.ParseOfPrinted` | ci/selection.py:65-97 | Parsing a printed non-empty list of well-formed records gives the list back. |
| `NameStatus.PrintedOfParse` | ci/selection.py:65-97 | Printing what was parsed reproduces the input bytes, and the records found are well formed. |
| `NameStatus.AcceptsExactlyPrinted` | ci/selection.py:65-97 | The parser accepts exactly the printer's outputs. |
| `NameStatus.StatusIff` | ci/selection.py:76-91 | The statuses accepted and how many paths follow: an added, modified or deleted file with one, a rename or copy with a score up to a hundred with two. |
| `NameStatus.RefusalMeans` | ci/selection.py:65-97 | A refused output is empty or has no closing NUL, or the error is about its first record that is not well formed and says what is wrong with it. |
| `Selection.ForcingIsPointwise` | ci/selection.py:303-335 | A list of paths forces the full profile exactly when one of its paths does. |
| `Selection.FocusedIff` | ci/selection.py:124-174 | The focused profile is chosen exactly when there is a path, every record is ordinary, and every path by itself is valid, lies in that application and forces nothing. |
| `Selection.ChoiceMeans` | ci/selection.py:124-174 | Which profile is chosen, why and for which application; of several reasons for the full profile the first in order is given. |
| `Selection.ValidIff` | ci/selection.py:177-249 | What the validator accepts: known labels in order, and a profile that fits the reason, the event and the commits. |
| `Selection.ClassifiedMeans` | ci/selection.py:124-174 | What a selection handed out records of the change, its roots and labels included. |
| `Selection.EscalationIsMonotone` | ci/selection.py:124-174 | Records that carry a path or an unordinary mode and need the full profile keep needing it whatever is appended. |
| `Selection.EscalationIsFinalIff` | ci/selection.py:145-146 | A full choice is final exactly when its records have such substance, unless the policy never focuses. |
| `Selection.EmptyRecordsAreNeutral` | ci/selection.py:145-146 | Records without substance, the empty list among them, are full by themselves and do not change what follows. |
| `Selection.ParsedEscalationIsFinal` | ci/selection.py:124-174 | On what the parser accepts a full choice is final. |
| `Selection.FullIsValidIff` | ci/selection.py:177-249 | A full selection passes the validator exactly when the caller's event and commit ids do. |
| `Selection.FocusedIsValidIff` | ci/selection.py:161-174 | A focused selection is handed out exactly when the event and commit ids are proper and the labels strictly sorted; otherwise the validator raises. |
| `Scanning.FindClosing` | content/docs_rendering.py:187-224 | The bracket scan with escapes and nesting computes the specified position; with no opening bracket it is the scan for one unescaped character. |
| `Scanning.ClosingIff` | content/docs_rendering.py:187-224 | A position is returned if and only if it is the matching unescaped bracket: where the unescaped nesting depth first turns negative. |
| `Scanning.FlatClosingIff` | content/docs_rendering.py:173-184 | Without nesting that is the first character of its kind with an even number of backslashes before it. |
| `DocsLinks.LinkDestinationToken` | content/docs_rendering.py:227-243 | The two loops compute the destination token. |
| `DocsLinks.TokenIff` | content/docs_rendering.py:227-243 | The token is the text between angle brackets or else the first word, and there is none exactly when neither exists. |
| `DocsLinks.RewriteMarkdownLinks` | content/docs_rendering.py:246-322 | The scanning loop terminates. It raises exactly when a link outside code has a destination that the URL library does not split, and otherwise its output is the text with each link that a rule speaks of led where the policy says and everything else as it was. |
| `DocsLinks.RaisesIff` | content/docs_rendering.py:281-287 | It raises exactly when for some link among the tiles, which lie outside code, the text between angle brackets or else the first word does not split. |
| `DocsLinks.OpenBracketRaises` | content/docs_rendering.py:129-129 | A concrete text that raises: the address opens a host in brackets and does not close it. |
| `DocsLinks.TileMeans` | content/docs_rendering.py:256-287 | Each tile is a code span, a character where no link starts, a link that stays, a link that raises or a link with its replacement; links are given by matching brackets. |
| `DocsLinks.TilesMean` | content/docs_rendering.py:246-322 | Under the policy each tile is what its kind says: the code span, the plain character, and the link that stays, raises or becomes the text the policy gives. |
| `DocsLinks.TilesCover` | content/docs_rendering.py:246-322 | The tiles cover the text in order and without overlap. |
| `DocsLinks.LinksAvoidCode` | content/docs_rendering.py:257-266 | No link, and nothing else, overlaps a code span. |
| `DocsLinks.OutputIsSplice` | content/docs_rendering.py:298-322 | The output is the input with ordered, disjoint ranges substituted; all other characters stay. |
| `DocsLinks.NothingToRewrite` | content/docs_rendering.py:246-322 | A text in which every link stays comes back as it is. |
| `DocsLinks.StaysIff` | content/docs_rendering.py:281-297 | A link stays exactly when it has no destination or one that splits and of which no rule speaks: newsletter, events link, address inside the site, community page; it raises exactly when its destination does not split. |
| `DocsLinks.ReplacementForm` | content/docs_rendering.py:298-320 | A link to the newsletter loses its wrapper; the events link gets its new label and address; any other rewritten link keeps its label and leads to the address inside the site when there is one and else to the community page. Nothing but token and label changes. |
| `DocsLinks.OnlyTheTokenChanges` | content/docs_rendering.py:303-318 | Angle brackets around the token stay. |
| `DocsLinks.EventsLinkIsRewritten` | content/docs_rendering.py:288-318 | The events link of the pages becomes the link to the events page, with its new label. |
| `FaqTokens.MarkdownCodeEnd` | content/faq_data.py:522-565 | The loops compute the end of the code span or fence at a position, if one begins there. |
| `FaqTokens.FenceEndMeans` | content/faq_data.py:541-558 | A fenced block ends after its first closing line, or with the text when no line closes it. |
| `FaqTokens.CodeEndMeans` | content/faq_data.py:522-565 | Code begins at a place exactly when a fence or span begins there, and it ends where the declarative meaning says: after the first closing line, or with the first equal run of backticks. |
| `FaqTokens.ReplaceImageTokensInText` | content/faq_data.py:495-519 | The position loop resolves matches from left to right and copies everything else. |
| `FaqTokens.UnmatchedTextStays` | content/faq_data.py:495-519 | Text in which no token matches is copied unchanged. |
| `FaqTokens.TokenBecomes` | content/faq_data.py:495-519 | A wrapper, or else a token, becomes the image its id names, and nothing when the id is unknown; any other character stays. |
| `FaqTokens.ReplaceImageTokensOutsideCode` | content/faq_data.py:568-590 | The result is the rendering of the pieces of the answer: code as it is, text rewritten. |
| `FaqTokens.FaqImageMap` | content/faq_data.py:459-480 | The loop over the declarations builds the specified map. |
| `FaqTokens.LastProperIsUsed` | content/faq_data.py:459-480 | A token's id is in the map exactly with the Markdown of its last proper declaration. |
| `FaqTokens.ReplaceImageTokens` | content/faq_data.py:593-602 | An answer is rewritten with its own question's declared images only. |
| `FaqTokens.PiecesCover` | content/faq_data.py:568-590 | The pieces follow one another through the answer, code pieces are exactly spans and fences, no code begins inside text, and no two pieces of text are neighbours. |
| `FaqTokens.AnswerIsItsPieces` | content/faq_data.py:568-590 | The pieces concatenate to the answer. |
| `FaqTokens.CodeIsVerbatim` | content/faq_data.py:568-590 | Every piece of code is copied verbatim, between the renderings of what is before and after it. |
| `FaqTokens.TextIsRewritten` | content/faq_data.py:568-590 | Every piece of text stands in the result as its rewriting, between the renderings of what is before and after it. |
| `FaqTokens.AlternatesIff` | content/faq_data.py:568-590 | Text and code alternate exactly when no code begins where another one ends. |
| `FaqTokens.CodePiecesCanTouch` | content/faq_data.py:568-590 | A concrete answer with two neighbouring pieces of code: text and code need not alternate. |
| `FaqTokens.EscapedAltIs` | content/faq_data.py:487-492 | The three replacements in a row escape each delimiter exactly once. |
| `FaqTokens.ImageMarkdownIs` | content/faq_data.py:487-492 | The Markdown of an image is its escaped description as label and its path as address. |
| `FaqTokens.DescriptionStaysInLabel` | content/faq_data.py:487-492 | Whatever the description says, the label of the image ends where the description ends. |
| `FlakePlugin.PolicyPlugin.ValidateAndCount` | ci/playwright_flake_policy.py:36-42 | Items not seen before are counted once, and a bad mark stops the count after its item was noted. |
| `FlakePlugin.PolicyPlugin.RuntestLogReport` | ci/playwright_flake_policy.py:53-62 | A report counts a rerun, notes an outcome, or changes nothing, by phase and outcome. |
| `FlakePlugin.PolicyPlugin.CollectionFinish` | ci/playwright_flake_policy.py:50-51 | The number of selected tests is that of the session's items. |
| `FlakePlugin.OutcomeIsLastNoted` | ci/playwright_flake_policy.py:53-62 | After every event sequence a test's outcome is the last one noted for it, and it has none exactly when nothing was noted. |
| `FlakePlugin.CountedMeans` | ci/playwright_flake_policy.py:36-42 | The items not seen before are counted up to the first with a bad mark: how many, which are noted as seen, and whether a bad one was met. |
| `FlakePlugin.RerunsAreCounted` | ci/playwright_flake_policy.py:53-62 | The plugin counts the reports of reruns, and knows no selected tests before a collection ends. |
| `FlakePlugin.SummaryIs` | ci/playwright_flake_policy.py:64-78 | What each number of the summary counts, and when it calls the run complete. |
| `FlakePlugin.SummaryAddsUpIff` | ci/playwright_flake_policy.py:64-78 | The counts add up exactly when as many tests have an outcome as were selected. |
| `FlakePlugin.SessionAddsUpIff` | ci/playwright_flake_policy.py:64-78 | In a session that reports only what it selected they add up exactly when every selected test has an outcome. |
| `FlakePolicy.ParsePolicyOutput` | ci/flake_policy.py:26-65 | The loop over the fields computes the specified outcome: the counts, a refusal, or an error for accepted digits that do not convert. |
| `FlakePolicy.ReadIff` | ci/flake_policy.py:26-65 | Counts are read from an output exactly when its summary line gives each of them once as a number, names nothing else, and they add up. |
| `FlakePolicy.FieldsInIff` | ci/flake_policy.py:26-40 | The summary line is the one line that begins with the marker, and its first word is the marker. |
| `FlakePolicy.PrintedIs` | ci/playwright_flake_policy.py:64-78 | The line printed holds the marker and every count under its name, in this order. |
| `FlakePolicy.ParsedOutput` | ci/flake_policy.py:26-65 | A summary line printed among other output parses back to exactly its counts when they add up, and is refused when they do not; digit test and conversion need only know the ASCII decimals. |
| `FlakePolicy.SessionParsesIff` | ci/flake_policy.py:26-65 | For every session the printed line parses back to its counts if and only if every selected test has an outcome. |
| `FlakePolicy.BuildReport` | ci/flake_policy.py:99-146 | The branches compute the specified report, or none for a negative exit code and when reading the output raises; counts, completeness, verdict, reason and exit code of a report are those the output and the exit code call for. |
| `FlakePolicy.ParsingRaisesIff` | ci/flake_policy.py:41-52 | For every output reading raises if and only if the first field that is not good is a count, given for the first time, whose accepted digits do not convert. |
| `FlakePolicy.ReportIsBuiltIff` | ci/flake_policy.py:99-146 | For every output a report is built, and passes its validator, exactly when the exit code is not negative and reading does not break off at such digits. |
| `FlakePolicy.ReportMeans` | ci/flake_policy.py:99-146 | Every report says of its output and exit code what it should. |
| `FlakePolicy.InvalidIff` | ci/flake_policy.py:149-216 | A report with a verdict that its counts do not bear out, or with counts that do not add up, is refused, and no other. |
| `FlakePolicy.SuperscriptRaises` | ci/flake_policy.py:51-52 | A concrete output, after a clean exit, on which no report is built: a superscript passes the digit test and does not convert. |
| `FlakePolicy.SuccessIff` | ci/flake_policy.py:132-146 | The report is a success exactly when every selected test has an outcome, none failed, nothing was rerun and both exit codes are clean. |
| `FlakePolicy.ReasonAgreesIff` | ci/flake_policy.py:110-121 | In every report reason and verdict agree unless the exit code is clean and the counts read from the output speak of a complete run without reruns in which a test failed. |
| `FlakePolicy.CleanExitHidesFailure` | ci/flake_policy.py:110-121 | A concrete output on which they differ. |
| `FlakePolicy.PolicyFormatIsFormat` | ci/flake_policy.py:13-20 | The marker and field names of the program meet what the results ask of a format. |
| `Words.ValueOfDecimal` | ci/flake_policy.py:51-52 | Reading a printed number gives the number. |
| `Words.WordsAre` | ci/flake_policy.py:36-40 | The words of a line are its maximal stretches without white space. |
| `Words.StrippedIs` | ci/flake_policy.py:26-36 | Stripping takes exactly the white space off both ends. |
| `CatalogueStore.ReadStamp` | content/catalogue.py:234-237 | The count and the newest time of a source's rows, nothing for a disabled source. |
| `CatalogueStore.RequestStamps` | content/catalogue.py:199-207 | One pass over the rows of all enabled sources, grouped by source, gives for every source the stamp of the single-source query. |
| `CatalogueStore.EqualStampsEqualRows` | content/catalogue.py:210-237 | At any two moments of a run, equal non-empty stamps of a source mean identical rows. |
| `CatalogueStore.RunShrinks` | content/catalogue.py:210-237 | Over every run the rows no newer than a past time can only go away. |
| `CatalogueStore.ReusedTimeHides` | content/catalogue.py:210-237 | The rule that every write takes a later time is needed: in every store, writing the newest row again at its time leaves the stamp and changes the rows. |
| `Stamps.Aggregate` | events/queries.py:136-144 | The loop computes the count and the newest mark of a table. |
| `Stamps.SameSizeSameRows` | events/queries.py:147-183 | Tables of equal stamps are equal when the later one has gained no row with a mark up to the stamp's. |
| `EventCredits.ReadTableStamps` | events/queries.py:171-178 | The stamps of event, host, link, registration and source rows, links by their ids. |
| `EventCredits.RecordsAre` | events/queries.py:36-114 | Every event has its record, with its linked hosts and their places, its source and its number of counted registrations. |
| `EventCredits.EqualStampsEqualTables` | events/queries.py:147-183 | While new and changed rows take new marks, equal stamps of the five tables at two moments of a run mean equal tables. |
| `EventCredits.RewrittenLinkHides` | events/queries.py:157-159 | That rule is needed: in every store a link led to another host under its old id leaves all stamps and changes the records. |
| `EventCredits.EqualStampsEqualCredits` | content/catalogue.py:409-447 | While credits change only with a write of their event, equal event stamps at two moments mean equal events and equal credits. |
| `EventCredits.StampTellsIff` | content/catalogue.py:409-447 | A change that leaves the event stamp as it is leaves the credits as they are if and only if it keeps that rule. |
| `EventCredits.SilentLinkHides` | content/catalogue.py:409-447 | The rule is needed: in every store, a link that goes away by itself leaves the stamp and changes the credits. |
| `EventCredits.ProgramKeepsRules` | events/content_import.py:411-451 | Imports that write the event whose links they drop and make anew and never touch older hosts, registrations, deletions, and everything that leaves events alone keep both rules. |
| `EventCredits.ProgramRunKeepsRules` | events/content_import.py:411-451 | Every run made of such steps keeps both rules. |
| `CatalogueStore.QueryOrderIsDetermined` | content/catalogue.py:259-263 | A query ordered by a unique key is a function of the set of rows it selects. |
| `CatalogueStore.ReleasesStay` | content/catalogue.py:325-359 | A release keeps its documents over every run. |
| `Catalogue.SourceAnswerIff` | content/catalogue.py:240-289 | A read of one source answers, when it is enabled and has rows, with what is built of exactly its published rows of the kind, and otherwise with nothing. |
| `Catalogue.DraftsDoNotShow` | content/catalogue.py:259-263 | Writing or deleting rows that are not published changes no answer while the source stays enabled and keeps rows. |
| `Catalogue.UncachedAnswers` | content/catalogue.py:156-196 | What the fresh read of every kind answers, stated on the store: single and combined sources, profiles with the credits of their events, released documents. |
| `Catalogue.Catalogue.Change` | content/models.py:738-790 | Whatever changes in the database, every cached entry stays true for ever, though no cache is told; cached event records do when the change keeps the rule about marks, cached profiles when it keeps the rule about credits. |
| `Catalogue.Catalogue.SyncedRecords` | content/catalogue.py:240-289 | The stamp-keyed, evicting cache answers what an uncached read would, refusals included: what is built of exactly the published rows of that source and kind. |
| `Catalogue.Catalogue.Combine` | content/catalogue.py:306-321 | A combined answer composed of cached single-source answers is that of a fresh read. |
| `Catalogue.Catalogue.Editorial` | content/catalogue.py:292-321 | The cache keyed by two stamps answers what an uncached read would. |
| `Catalogue.Catalogue.PublishedEvents` | events/queries.py:117-204 | While the rule about marks is kept, the event record cache over the stamps of all tables and of the people answers what an uncached read would: the record of every event, and the people when a named speaker has to be looked up among them. |
| `Catalogue.SameKeySameEvents` | events/queries.py:147-183 | Under that rule equal stamps give equal event records. |
| `Catalogue.Catalogue.People` | content/catalogue.py:456-498 | While both rules are kept, the profile cache over the people, editorial and event stamps, filled from the cached event records, answers what an uncached read would. |
| `Catalogue.SameKeySamePeople` | content/catalogue.py:456-489 | While the rule about credits is kept, equal stamps of people, works and events give equal profiles. |
| `Catalogue.SilentChangeIsServed` | content/catalogue.py:456-489 | Where a change gives other profiles under equal stamps it broke the rule, and the profiles cached before it are wrong under their own key. |
| `Catalogue.Catalogue.Media` | content/catalogue.py:677-693 | The media cache over two sources answers what an uncached read would. |
| `Catalogue.Catalogue.Courses` | content/catalogue.py:696-724 | The course cache over all course sources answers what an uncached read would. |
| `Catalogue.Catalogue.Released` | content/catalogue.py:324-359 | The release-keyed cache answers what an uncached read of that release would: exactly its published documents of the kind, arranged. |
| `Catalogue.Catalogue.Records` | content/catalogue.py:156-196 | In every reachable state the dispatched, cached read equals the uncached read and is what the store calls for, kind by kind; for the profiles as long as both rules are kept, for every other kind always. |
| `Catalogue.NewEntryIsTrue` | content/catalogue.py:240-289 | An answer read now is right under its stamp in every future in which that stamp comes up. |
| `Catalogue.SameStampsSameCombined` | content/catalogue.py:292-321 | Equal stamps of all its sources give equal combined answers. |
| `LruCache.Stored` | content/catalogue.py:240-240 | A full cache drops one entry and keeps the new one; nothing else enters. |

## Left out

- TrackAbort: Playwright's page and request objects are opaque ids and a URL is an origin and a path; the browser's own order of events is arbitrary.
- The attempt, batch and request dataclasses are values inside the dictionaries, so sharing of one mutable object between entries is not modelled.
- BuildPlan: commands, environments, hashes and validity periods of a component are not modelled, and status-derived risk flags are a parameter.
- CreateReport: whether a stored envelope fits the plan, and whether its origin, artifacts and machine outputs pass, are answers of a parameter, the same for building and validating; proofs and digests of plan and state are not modelled.
- CreatedReportPassesIff: the validator's comparison of an entry's result with its envelope does not exist in the original and is not claimed.
- PlanPassesIff: the validator's allow-lists of commands and validity periods are not modelled.
- ChooseReusable: trust, expiry and file checks are answers of a parameter; envelope schema validation is not modelled.
- ValidateOwnership: only the ownership and edge checks of the graph validator; key and type checks come with the datatypes.
- RejectCycles: Python's recursion limit is not modelled.
- DecideSchedule: GitHub's HTTP, pagination and ZIP handling are a client that answers truthfully or not at all; a run that is attempted again and rewrites its own record is not modelled.
- RequiredCaptures: the sorting of the captures is not modelled, only which there are.
- DigestManifest: SHA-256 is not modelled; equal digests mean equal streams under an injective hash.
- ImpactForPaths: lower-casing of suffixes covers ASCII letters only (no other character lower-cases into a suffix of the program's rules), and the results are sets where the original gives sorted tuples.
- EscapedSlashRaises: its request object is not one the server delivers.
- SafeNextPath: private responses and route names are one flag, the URL library's checks of host names never apply to an accepted target, white-space and control tests are parameters, and texts that are not UTF-8 (which the original turns into the fallback) do not occur.
- ParseNameStatus: paths stay bytes; surrogate-escape decoding is a bijection on them.
- Classify: JSON shape checks of a loaded selection come with the datatypes.
- RewriteMarkdownLinks: which addresses the URL library splits and the rules for internal, community and newsletter addresses are parameters; heading ids, attribute clean-up, Mistune and Bleach are not modelled.
- ReplaceImageTokensInText: the two token expressions are parameters that match non-empty stretches.
- ReplaceImageTokens: which declarations are proper (the shape of the id and the asset path) is a parameter.
- ParsePolicyOutput: the output is given as lines, so an output that is not UTF-8 does not occur. White space, digits and their conversion are parameters: digits of other scripts may convert, superscripts and numbers beyond the conversion limit need not.
- ParsedOutput: the counts of a printed summary have at most 4300 digits; longer numbers cannot be printed either.
- BuildReport: the artifact's path, hash and size and the command allow-list are not modelled.
- Records: the media index and the per-request memo are not modelled, and a stamp and its rows are read in one step.
- ProgramKeepsRules: that every step of the program on events is an import, a registration or a deletion as described is read off events/content_import.py, events/identity.py, scripts/prod/identity_manifest.py and scripts/prod/registrant_import.py; the shared event package is not part of this model.
- PublishedEvents: the order of the records and the filter on their status belong to what is derived from the rows; the profile paths of speakers are looked up in the people records that the answer holds.
- SyncedRecords: how rows become records (clean-up, sorting by title or date, the graph check) is a function of the set of published rows, which a query in key order determines.
- Change: the rule that each write takes a later time than all before is an assumption about the clock; the field is set by the framework on every save.
- Git, Docker, subprocess and signal handling, S3 and file access, forms, views, signals, audit records and the container checks: foreign calls, or thin wrappers that would add easy members only.
