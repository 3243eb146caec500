# Verified models of keke's decision code

keke runs tools on a person's machine on a model's behalf. This project models, in Dafny, the parts of it that decide
what may run, what is remembered, and what survives, and proves what those parts promise for every input, every
interleaving or every history. `dafny verify dfyconfig.toml` checks it.

| files | what they model |
|---|---|
| `Wildcards`, `Directories`, `Text` | The two wildcard matchers and the directory patterns, proved equal to one declarative language |
| `ApprovalRules`, `Approval`, `Dispatching`, `DispatchRuns` | Approval rules, reviewers, one tool call through the approval pipeline, and all interleavings of many calls and the requests their bodies make while running |
| `LogLines`, `SessionSummary`, `Rollout`, `SessionHistory` | The session log as bytes, the summary folded from it, the cache of that summary, the recorder that appends, reading back from an offset, and the whole life of a log that writers open, close and die on while listings refresh the cache |
| `SandboxConfig` | Merging configuration layers and what a repository's own layer may change |
| `Credentials`, `SingleFlight`, `LockProtocol` | Refreshing a credential once, at most once at a time within a process, and through a lock file across processes |
| `Checkpoints` | Pruning a snapshot store several sessions share |
| `Layering` | The crate layering check |

Code that works step by step is modelled by classes and methods with loops (`SegmentMatch`, `GlobMatches`, `Session`,
`RuntimePermissionReviewer`, `SessionMeta`, `RolloutRecorder`, `CredentialFile`, `Refresher`, `AcquireWithin`,
`SnapshotStore`, `FromLayers`, `Check`). Each is proved to compute a specification function, and the lemmas are about
that function. Protocols are step systems over any number of participants: a run is any sequence of enabled steps, and
reviewers, guards, tools, the issuer, the disk and the clock answer as they like.

## Findings

Where the code does less than its comments or a first guess say, the model follows the code, a lemma gives an input
that shows it, and the exact condition is proved.

- Trimming an approval rule is not neutral: it keeps the names the rule covers exactly when there was nothing to trim
  (`TrimmingKeepsCoverage`, with the name gained in `TrimmedRuleGains`). It loses no name without white space in it
  (`TrimmingLosesNoName`), and de-duplication is neutral (`NormalizedCoverage`).
- The two matchers agree exactly on patterns without `?` (`MatchersAgree`).
- The check on a repository's `approval_policy` keeps every call asked about that was asked about before exactly when
  the policy beneath is `OnRequest` or `Never` (`PolicyCheckSufficesExactlyWhen`, and for whole merges
  `MergeKeepsAskingExactlyWhen`). From any other, a repository can choose `Never` (`RepositoryCanStopTheAsking`),
  although the error text says it may not loosen the policy.
- `~/work/**` is the directory `work` in the home directory and everything beneath it exactly when the home directory is
  neither empty nor slashes alone and has no `*` or `?` in it (`HomeTreeExactlyWhen`). With home `/` it misses `/work`
  (`RootHomeMisses`); with a wildcard in the home directory it reaches elsewhere (`WildHomeReachesElsewhere`). A slash
  too many, as in `~/work//**`, names nothing (`TrailingSlashMisses`).
- The recorder's running summary need not equal a scan of the log. Over any life of a log that begins with no cache or
  one a scan once gave, it does after every completed write exactly when each of those writes found the writer's
  offset at the end of the log (`WritersAgreeExactlyWhen`); what leaves it behind is a torn tail or an unreadable log
  when it opened, and its own failed writes (`StepLeavesBehind`). One torn byte is enough (`TornTailSplitsTheViews`). A
  later listing then folds the middle of a line (`ListingAfterLoss`) and may never agree with a scan again
  (`ListingsNeverAgreeAgain`), and a writer that resumes from such a cache is wrong although the log ends a line and it
  loses nothing itself (`ResumedFromBadCache`).
- Under Auto two calls can have network access under review at once (`TwoAutomaticReviews`); under the policies that ask
  people they cannot (`OneNetworkReviewAtATime`).
- A caller that forces a refresh may be answered with the success of an attempt that exchanged nothing
  (`ForcedCallerMayRideAlong`); `SuccessIsBackedExactlyWhen` says when an exchange backs the answer.
- The lock file is its holder's all through a run exactly when no step of the run breaks the lock of a process still at
  work (`LockIsOwnedExactlyWhen`). Two waiters that both judge a dead process's lock stale both get in (`TwoWaitersBothIn`),
  and the slower one presents a superseded refresh token (`SlowerWaiterIsRefused`). The comment at
  crates/credentials/src/lock.rs:57-59 expects the second waiter to contend for the lock instead.
- The waiting loop looks at its deadline only after a turn that found the lock fresh, so a stale lock that cannot be
  removed is waited for without end (`StaleLockOutlivesTheDeadline`, `DeadlineEndsTheWaitExactlyWhen`).
- A session that still holds a snapshot can lose its index (`HoldingASnapshotIsNotEnough`), and so can one that is still
  working and has no snapshot yet (`WorkingIsNotEnough`, `WorkingIsNotEnoughAtOnce`), unlike the comment at
  crates/checkpoint/src/lib.rs:510; `IndexSurvivesExactlyWhen` gives the condition.
- Testing direct edges keeps vendors out for exactly the tables that leave no crate between a vendor and a vendor-free
  crate (`DirectEdgesSufficeExactlyWhen`, with a workspace that leaks in `LeakThrough`); the shipped table does (`ShippedTableKeepsVendorsOut`).

## Model

| member | source | states |
|---|---|---|
| Wildcards.SegmentMatch | crates/config-types/src/lib.rs:912-943 | The loop with one backtrack point ends, and returns true exactly when the segment is in the language of `*` (any run) and `?` (any one character), for every pattern and segment |
| Wildcards.NewestStarSuffices | crates/config-types/src/lib.rs:919-923 | Forgetting every star but the newest loses no match and adds none |
| Wildcards.MismatchAdvances | crates/config-types/src/lib.rs:932-939 | A mismatch rules out the current starting point and nothing else; without a star it rules out everything |
| Wildcards.ExhaustedDecides | crates/config-types/src/lib.rs:942 | Once the segment is used up, a match remains exactly when the rest of the pattern is stars |
| Wildcards.GlobMatches | crates/core/src/approval.rs:119-139 | Split, leftmost find and suffix test return true exactly when the name is in the star language of the rule with the case of ASCII letters ignored |
| Wildcards.LowerLanguage | crates/core/src/approval.rs:118-121 | Matching the lowercased texts is matching character by character, the same or an ASCII letter and its other case |
| Wildcards.OneCharacter | crates/config-types/src/lib.rs:924-931 | A pattern of one character accepts that character alone, and `?` any one |
| Text.LowerExactly | crates/core/src/approval.rs:120-121 | Two texts have the same lowercase exactly when they differ at most in the case of ASCII letters |
| Wildcards.LeftmostSuffices | crates/core/src/approval.rs:132-137 | Taking the leftmost occurrence of a middle part loses no match |
| Wildcards.LastPartIsSuffix | crates/core/src/approval.rs:138 | After the last star the name matches exactly when it ends with the last part |
| Wildcards.MatchersAgree | crates/core/src/approval.rs:119-139 | The approval matcher's language and the segment matcher's accept the same names exactly for the patterns without `?` |
| Text.FindOccurs | crates/core/src/approval.rs:133 | What `find` returns is an occurrence |
| Text.FindIsLeftmost | crates/core/src/approval.rs:133 | ... and no occurrence lies before it; it finds one whenever there is one |
| Text.SplitInverse | crates/core/src/approval.rs:122-127 | Splitting undoes joining, and no piece contains the separator |
| Text.TrimSplits | crates/config/src/lib.rs:922 | What trimming removes is white space on either side of what it keeps |
| Text.TrimIsTight | crates/config/src/lib.rs:922 | What trimming keeps neither begins nor ends with white space |
| Text.SpacesOneByOne | crates/config/src/lib.rs:922 | White space is exactly these 25 characters, those with Unicode's White_Space property |
| Directories.PatternConcat | crates/config-types/src/lib.rs:897-909 | A pattern in two parts matches exactly the paths that can be cut into a part for each |
| Directories.TrailingAnyRun | crates/config-types/src/lib.rs:887-909 | `p` followed by `**` matches a path exactly when `p` matches some prefix of its segments |
| Directories.AnyRunsCollapse | crates/config-types/src/lib.rs:900-903 | Consecutive `**` match what one does, anywhere in a pattern |
| Directories.FixedLength | crates/config-types/src/lib.rs:904-907 | A pattern without `**` matches exactly the paths of its own length, segment by segment |
| Directories.GlobTree | crates/config-types/src/lib.rs:884-895 | For a base without wildcards, `base/**` matches the directory and everything under it and nothing else |
| Directories.HomeTree | crates/config-types/src/lib.rs:854-882 | When the home directory is neither empty nor slashes alone and has no wildcard in it, `~/work/**` applies, as text after normalisation, to `work` in the home directory and what lies under it, and to nothing else |
| Directories.HomeTreeExactlyWhen | crates/config-types/src/lib.rs:854-882 | Those are exactly the home directories for which every such pattern is that tree |
| Directories.RootHomeMisses | crates/config-types/src/lib.rs:859-863 | With home `/`, `~/work/**` does not apply to `/work` |
| Directories.SlashHomeMisses | crates/config-types/src/lib.rs:859-863 | With any home of slashes alone, the pattern misses the very directory it names |
| Directories.WildHomeReachesElsewhere | crates/config-types/src/lib.rs:859-868 | With a wildcard in the home directory, a directory outside the tree the pattern applies to |
| Directories.TrailingSlashMisses | crates/config-types/src/lib.rs:858-868 | A name that ends in a slash makes a pattern that applies neither to the directory nor to what lies in it |
| Directories.PatternCases | crates/config-types/src/lib.rs:850-869 | A pattern without `~` is compared as it stands, whatever the home; one with it applies nowhere without a home; `~` alone is the home |
| Directories.HomeAlone | crates/config-types/src/lib.rs:854-869 | For a home without wildcards, `~` applies to that directory and to no other |
| ApprovalRules.CheckApprovalRules | crates/config/src/lib.rs:919-931 | Refuses exactly the lists with an entry that trims to nothing; otherwise keeps the first of each rule, ignoring case |
| ApprovalRules.FirstOfEachIsKept | crates/config/src/lib.rs:926-928 | A rule is kept, after those before it, exactly when none before it is the same but for case |
| ApprovalRules.DistinctKeeps | crates/config/src/lib.rs:926-928 | No two kept rules are alike, and every kind given is kept |
| ApprovalRules.DistinctFromGiven | crates/config/src/lib.rs:926-928 | A kept rule is one that was given, in its own spelling |
| ApprovalRules.NormalizedCoverage | crates/config/src/lib.rs:919-931 | De-duplication never changes which tools the trimmed rules cover |
| ApprovalRules.MoreRulesCoverMore | crates/config/src/lib.rs:389-391 | Rules added by another layer can only grow the set of covered tools |
| ApprovalRules.TrimmingKeepsCoverage | crates/config/src/lib.rs:922 | Trimming keeps the covered names exactly when it removes nothing |
| ApprovalRules.TrimmedRuleGains | crates/config/src/lib.rs:922 | A name a rule with surrounding white space gains by being trimmed |
| ApprovalRules.TrimmingLosesNoName | crates/config/src/lib.rs:922 | A rule that trimming changes covers no name without white space |
| ApprovalRules.NormalizingUncoversNothing | crates/config/src/lib.rs:919-931 | A tool without white space in its name that the rules as written cover stays covered by the rules as kept |
| ApprovalRules.CaseMakesNoDifference | crates/core/src/approval.rs:93-102 | However the letters of a rule and of a name are capitalised, the rule covers the same |
| ApprovalRules.CoversMeans | crates/core/src/approval.rs:93-102 | A rule covers a name exactly when the name is in its star language with case ignored |
| ApprovalRules.ApprovalMemory.RequiredRule | crates/core/src/approval.rs:97-102 | Returns a covering rule with no covering rule before it, or nothing exactly when none covers |
| ApprovalRules.ApprovalMemory.AllowAlways | crates/core/src/approval.rs:111-115 | Adds the tool and nothing else |
| Approval.Review | crates/core/src/dispatch.rs:526-556 | Asks the eligible reviewers in order |
| Approval.OutcomeIsFirstAnswer | crates/core/src/dispatch.rs:520-556 | The outcome is the first answer an eligible reviewer gives; when none gives one it is a denial |
| Approval.OutcomeIsAskedOf | crates/core/src/dispatch.rs:534-545 | Whose answer counts: people's where a person is required; under Auto the automatic reviewers'; people's where a review is required; otherwise that of those enabled for ordinary requests; the first of them to answer decides |
| Approval.FirstAnswerMeans | crates/core/src/dispatch.rs:546-555 | The first answer given is the first of the list that is there, and a denial if none is |
| Approval.PersonBehindTheGuardian | crates/core/src/dispatch.rs:540-545 | An automatic reviewer not enabled for ordinary requests does not stand in for the person behind it |
| Dispatching.Session.Dispatch | crates/core/src/dispatch.rs:107-216 | With `ReviewAndGrant`, the pipeline computes the outcome and the new shared state of the specification |
| Dispatching.Session.ReviewAndGrant | crates/core/src/dispatch.rs:217-313 | The same for the answer, the grants and what is remembered |
| Dispatching.RuntimePermissionReviewer.Permission | crates/core/src/dispatch.rs:409-517 | A running body's request computes the specified answer, per-call grants and shared state |
| Dispatching.RunsExactlyWhen | crates/core/src/dispatch.rs:119-301 | A call runs exactly when its tool exists, no guard stops it, and, if somebody must be asked by the documented settings, the first eligible answer allows it |
| Dispatching.AdmissionAsksExactlyWhen | crates/core/src/approval.rs:25-66 | Somebody is asked exactly when the settings say so, and under the requirement they say |
| Dispatching.RemembersExactly | crates/core/src/dispatch.rs:272-313 | Exactly which grants and which standing permission a call leaves behind, and when it aborts |
| Dispatching.RunsWithDeclaredRights | crates/core/src/dispatch.rs:171-313 | A body runs with exactly the domains, ports, listeners, sockets and roots its call declared |
| Dispatching.PerCallRightsAreReviewed | crates/core/src/dispatch.rs:196-205 | Under any policy but Never, a call that gets more than domains was allowed, this very time, by the first eligible reviewer to answer |
| Dispatching.UnreviewedDomainsWereGranted | crates/core/src/dispatch.rs:181-199 | Domains of an unreviewed call were granted or stored before, under a policy that asks people |
| Dispatching.PersonDecides | crates/core/src/dispatch.rs:163-170 | A tool under a `require_approval` rule, or declared Always, runs only on a non-automatic reviewer's answer to this call, under every policy and whatever is remembered |
| Dispatching.GuardDenialIsFinal | crates/core/src/dispatch.rs:155-160 | After a guard's denial the body never runs and nothing changes |
| Dispatching.SilentGuardsDoNothing | crates/core/src/dispatch.rs:155-160 | Guards that deny nothing change nothing |
| Dispatching.MoreGuardsNeverHelp | crates/core/src/dispatch.rs:155-160 | A call that runs with more guards runs the same with fewer |
| Dispatching.AutomationIgnoresGrants | crates/core/src/dispatch.rs:181-199 | Under Auto and Never, two runs that differ only in session grants and store have the same outcome, and neither changes them |
| Dispatching.RunningAutomationIgnoresGrants | crates/core/src/dispatch.rs:429-441 | The same for requests of a running body |
| Dispatching.RequestSucceedsExactlyWhen | crates/core/src/dispatch.rs:424-509 | Exactly when a running body's request for a domain succeeds |
| Dispatching.RequestRemembersExactly | crates/core/src/dispatch.rs:424-509 | Exactly which grants, for the call, the session and the store, a request leaves behind |
| DispatchRuns.RunKeepsInv | crates/core/src/dispatch.rs:181-199 | In every interleaving the session lock has one holder, and a running body has its declared rights and only allowed domains |
| DispatchRuns.CallAloneIsDispatch | crates/core/src/dispatch.rs:107-313 | Undisturbed, a call's steps are one dispatch: the same shared state, the lock free, and the body running with what it was given exactly when the call runs |
| DispatchRuns.RequestAloneIsRequest | crates/core/src/dispatch.rs:409-517 | Undisturbed, a request's steps are one request |
| DispatchRuns.StartsBesideTheLock | crates/core/src/dispatch.rs:181-187 | While the session lock is held a call starts exactly when it is turned away, needs no network or is under a policy that asks nobody about it |
| DispatchRuns.AsksBesideTheLock | crates/core/src/dispatch.rs:424-447 | And a running body gets its answer exactly when nobody has to be asked |
| DispatchRuns.WaitingCanBeGivenUp | crates/core/src/dispatch.rs:183-187 | A call that waits for an answer can be given up at any time, which frees the lock and leaves nothing behind |
| DispatchRuns.ClosedAsksNothing | crates/core/src/dispatch.rs:352-360 | A body whose call failed asks for nothing more |
| DispatchRuns.LateAnswerGrantsNothing | crates/core/src/dispatch.rs:486-491 | An answer that comes after the call failed frees the lock and grants and stores nothing |
| DispatchRuns.ReviewBeginsAndEnds | crates/core/src/dispatch.rs:188-199 | Exactly which steps put network access under review, and which end that |
| DispatchRuns.OneNetworkReviewAtATime | crates/core/src/dispatch.rs:181-187 | Under the policies that ask people, two calls of a session never have network access under review at once, declared or asked for while running |
| DispatchRuns.TwoAutomaticReviews | crates/core/src/dispatch.rs:181-187 | A run in which two calls do under Auto |
| DispatchRuns.GrantsOnlyGrow | crates/core/src/dispatch.rs:310-313 | No step takes a session grant back |
| DispatchRuns.GrantedIsNotAskedAgain | crates/core/src/dispatch.rs:188-199 | Once a domain is granted, no running body's request for it is asked about, and no later call under a policy that asks people has it reviewed if all it declares is granted |
| DispatchRuns.PersonAllowsMeans | crates/core/src/dispatch.rs:523-556 | A person allows exactly when, of the people among the reviewers, the first to answer does |
| DispatchRuns.GrantsComeFromPeople | crates/core/src/dispatch.rs:310-313 | In every interleaving each granted domain was put there by a non-automatic reviewer's answer under a policy that asks people, or was in the persistent store when a call the guards let pass under such a policy, or a request of its body, looked |
| DispatchRuns.ReachComesFromPeople | crates/core/src/dispatch.rs:441-509 | Under such a policy every domain a running body can reach came the same way |
| DispatchRuns.RunningWithPerCallRights | crates/core/src/dispatch.rs:272-301 | In every interleaving a running body has exactly the rights its tool declared when the call was admitted, and rights beyond domains were answered for in this very call unless the policy is Never |
| DispatchRuns.RunningOnAPersonsAnswer | crates/core/src/dispatch.rs:163-170 | In every interleaving a tool a rule covers, or that declared Always when the call started, runs only on a person's answer to this very call |
| DispatchRuns.MemoryComesFromReviewers | crates/core/src/dispatch.rs:281-288 | "Allow always" is remembered only where an eligible reviewer said so for a call that wanted nothing beyond domains |
| LogLines.LinesAndTail | crates/core/src/meta.rs:153-162 | The complete lines and the torn tail are the whole log |
| LogLines.LinesOfAppend | crates/core/src/meta.rs:157-162 | Appending only completes the torn tail and adds lines after it |
| SessionSummary.SessionMeta.Fold | crates/core/src/meta.rs:140-174 | The reading loop folds each complete line once and stops before the torn tail |
| SessionSummary.SessionMeta.Take | crates/core/src/meta.rs:163-171 | A blank or unreadable line advances the offset and changes nothing else |
| SessionSummary.SessionMeta.Apply | crates/core/src/meta.rs:187-277 | The new summary after one event, in place |
| SessionSummary.SessionMeta.Append | crates/core/src/meta.rs:180-184 | The writer's fold of its own event, at the offset where its line begins |
| SessionSummary.Refresh | crates/core/src/meta.rs:92-133 | Uses the cache only if it is this version's and no longer than the log, and folds the rest |
| SessionSummary.ReadFoldsLines | crates/core/src/meta.rs:151-173 | Reading line after line folds exactly the complete lines |
| SessionSummary.ScanStops | crates/core/src/meta.rs:157-164 | A scan accounts for every byte up to the last newline and none after it |
| SessionSummary.RefreshAgreesWithScan | crates/core/src/meta.rs:85-174 | Refreshing equals scanning the whole log, torn and unreadable lines included, if the cache is one the code discards or what a scan gave when the log was shorter |
| SessionSummary.HonestAsTheLogGrows | crates/core/src/meta.rs:85-96 | A cache that is absent, another version's or an earlier scan's stays so however the log grows, and so does the summary just computed |
| SessionSummary.BaselineOfLines | crates/core/src/meta.rs:216-268 | The baseline is where the last newline-terminated nonempty model request or conversation rewind begins, and absent exactly when there is none |
| SessionSummary.SnapshotsStanding | crates/core/src/meta.rs:242-269 | `snapshots` maps a turn to a snapshot exactly when the turn's last checkpoint names it and every later conversation rewind kept more than that many messages of a person |
| SessionSummary.SurvivedCounts | crates/core/src/meta.rs:264-268 | What survives a rewind is counted as the places of the history that hold a person's message |
| SessionSummary.UsageIsTheBill | crates/core/src/meta.rs:236-274 | Usage is the sum over turn ends and subagent ends; rewinds change nothing |
| SessionSummary.FirstsAndLasts | crates/core/src/meta.rs:187-303 | Where a session began, its model and its opening line come from the first lines that say so; the current model, effort, policy and context from the last |
| Rollout.RolloutRecorder.constructor | crates/core/src/rollout.rs:48-88 | A recorder continues from what the log already says, or from an empty summary when the log cannot be read |
| Rollout.RolloutRecorder.Append | crates/core/src/rollout.rs:96-128 | What reaches the log, the running summary and the cache, for a write that completes and one that fails part-way |
| Rollout.CacheIsCurrentAfter | crates/core/src/rollout.rs:117-126 | The cache is the running summary right after a session start and a turn end, and unchanged by anything else |
| Rollout.RolloutRecorder.Close | crates/core/src/rollout.rs:131-136 | Closing leaves a current cache |
| Rollout.CreatedSummary | crates/core/src/rollout.rs:71-85 | Whatever cache it finds, a recorder starts with an offset that many bytes before the end of the log as were lost |
| Rollout.AccountedAndLost | crates/core/src/rollout.rs:96-128 | Bytes accounted for plus bytes lost are the length of the log, whatever cache the recorder started from |
| Rollout.WriterAgreesExactlyWhen | crates/core/src/rollout.rs:62-128 | For one recorder that starts from a cache the code would discard or that a scan once gave: after a completed write the running summary equals a full scan exactly when no byte was lost, to a torn tail, an unreadable log or a failed write |
| Rollout.TornTailSplitsTheViews | crates/core/src/rollout.rs:62-128 | A log of one torn byte and one completed write after which they differ |
| Rollout.WriterCountsCompletedWrites | crates/core/src/rollout.rs:114-116 | The running summary is what it began with and each completed write, once |
| Rollout.ListingAfterLoss | crates/core/src/rollout.rs:131-136 | After the writer closes, whatever it started from, a listing shows its summary with as many bytes from the end of the log as were lost folded on top, wherever in a line they begin |
| Rollout.OffsetIsRightAfterLoss | crates/core/src/meta.rs:117-133 | That listing's offset is a scan's again, so what was counted wrong stays wrong |
| Rollout.ListingsNeverAgreeAgain | crates/core/src/meta.rs:117-174 | A turn written behind a torn byte that every later listing bills and no scan does, however the log grows |
| Rollout.ResumedFromBadCache | crates/core/src/rollout.rs:71-85 | A writer that resumes from a cache left after a loss, on a log that ends a line, and is wrong with nothing lost |
| SessionHistory.StepKeepsSound | crates/core/src/rollout.rs:62-136 | Opening, appending, listing, closing and dying keep the cache and the running summary what a scan once gave, if a write that completes finds the writer at the end of the log |
| SessionHistory.WritersAgreeExactlyWhen | crates/core/src/rollout.rs:62-136 | Over every history of one log that begins with an honest cache, every writer's summary equals a scan after each of its completed writes exactly when each of those writes found the writer at the end of the log |
| SessionHistory.LaterListingAgrees | crates/core/src/meta.rs:117-133 | Up to the first write that does not, every listing, and every writer that opens a readable log, starts from what a scan shows |
| SessionHistory.ListingWritesTheScan | crates/core/src/resume.rs:369-370 | A listing may come at any time, and writes what a scan shows while nothing misleads |
| SessionHistory.WriterEnds | crates/core/src/rollout.rs:131-136 | An open writer, and only that, can close or die: closing leaves its summary as the cache, dying leaves the cache alone |
| SessionHistory.ClosingLeavesTheScan | crates/core/src/rollout.rs:131-136 | A writer that closes at the end of the log leaves a scan as the cache |
| SessionHistory.StepLeavesBehind | crates/core/src/rollout.rs:62-128 | Exactly how far each step leaves the writer behind the end of the log |
| Rollout.ReadLogSplits | crates/core/src/rollout.rs:143-178 | Reading from a line boundary gives exactly the rest of what reading from the beginning gives |
| Rollout.ReadsEachLineOnce | crates/core/src/rollout.rs:151-178 | Reading a log gives the event of every line that has one, and of the torn tail if it has one: each once, in the order of the log |
| Rollout.PiecesAre | crates/core/src/rollout.rs:167-168 | The pieces of a log are its lines without their ends, and then the torn tail if there is one |
| Rollout.WrittenIsRead | crates/core/src/rollout.rs:96-178 | Events written one after another by completed writes are read back as that very sequence, after what the log held |
| Rollout.SeekingToTheBaseline | crates/core/src/rollout.rs:147-178 | Reading from the baseline gives the suffix of the whole log's events that begins with the last event history can be rebuilt from |
| Rollout.NoBaselineRecorded | crates/core/src/meta.rs:216-268 | With no baseline recorded, no complete line of the log is one |
| SandboxConfig.CheckPorts | crates/config-types/src/lib.rs:344-353 | Accepts exactly the port lists without zero and without repeats |
| SandboxConfig.FromLayers | crates/config/src/lib.rs:378-463 | The merge loop computes the layer-by-layer specification, stopping at the first layer that fails |
| SandboxConfig.ErrorsStay | crates/config/src/lib.rs:392-426 | The first layer that fails decides the outcome |
| SandboxConfig.MergedMeans | crates/config/src/lib.rs:382-559 | In a merge that succeeds, each setting, proxy budgets, guardian and memory directory included, is the one the last layer to state it states, allowed domains the last nonempty list, and rules, denials, roots and hidden paths everything listed, in order |
| SandboxConfig.ConfigMeans | crates/config/src/lib.rs:856-880 | In a configuration that results, every field is the last stated value or the documented default, the lists are what all layers list or the last nonempty one |
| SandboxConfig.DefaultsAreSafe | crates/config/src/lib.rs:856-880 | With nothing configured, merging succeeds, there is no network and no extra writable root, and calls are asked about |
| SandboxConfig.MergesExactlyWhen | crates/config/src/lib.rs:392-426 | One more layer merges exactly when its ports, budgets and patterns are in order and, if it is a repository's, it states nothing reserved and only tightens |
| SandboxConfig.ConfiguresExactlyWhen | crates/config-types/src/lib.rs:343-393 | Merged layers are a configuration exactly when no rule is blank and unrestricted network is not combined with domain lists |
| SandboxConfig.AcceptedExactlyWhen | crates/config/src/lib.rs:933-1079 | The repository check accepts exactly the layers that state nothing reserved and tighten what is beneath them |
| SandboxConfig.AcceptedLayerTightens | crates/config/src/lib.rs:933-1079 | A layer the repository check accepts only tightens what is merged beneath it, in every field |
| SandboxConfig.LaterLayerKeepsOrder | crates/config/src/lib.rs:395-463 | A layer above two merges keeps the tighter one the tighter one |
| SandboxConfig.RepositoryLayerOnlyTightens | crates/config/src/lib.rs:378-463 | Wherever a repository's layer stands, when both merges succeed: mode, network, local binding, cache redirection and bash approval are not raised, ports shrink, denials and covered tools grow, an OnRequest policy stays and Auto is not reached, the guardian is not enabled, and domains, roots, launcher, budgets, guardian model and memory directory are unchanged |
| SandboxConfig.RepositoryCanStopTheAsking | crates/config/src/lib.rs:961-968 | From every policy but OnRequest, a repository layer the check accepts makes the merged policy Never |
| SandboxConfig.PolicyCheckSufficesExactlyWhen | crates/config/src/lib.rs:961-968 | Every accepted policy asks about no less exactly when the current one is OnRequest or Never |
| SandboxConfig.MergeKeepsAskingExactlyWhen | crates/config/src/lib.rs:378-395 | The same for whole merges, wherever the repository's layer stands |
| Credentials.CredentialFile.PerformRefresh | crates/auth-codex/src/lib.rs:287-337 | Load, decide, exchange, save: the answer, what is presented and what is stored, on every path |
| Credentials.RefreshTokenIsNeverLost | crates/auth-codex/src/tokens.rs:27-48 | However many refreshes follow and whatever the issuer omits (section 6 of RFC 6749), a renewable credential stays renewable, for the same account and issuer |
| SingleFlight.Refresher.RefreshOnce | crates/auth-codex/src/lib.rs:266-285 | The section under the mutex does what one caller's steps do one after another |
| SingleFlight.StepKeepsInv | crates/auth-codex/src/lib.rs:266-285 | What every step of every caller keeps, cancellation included |
| SingleFlight.OneAttemptPerGeneration | crates/auth-codex/src/lib.rs:281-283 | In every interleaving the generation counts the completed attempts, and at most one caller completes one for each observed generation |
| SingleFlight.OneCallerInside | crates/auth-grok/src/lib.rs:279-284 | Never two callers refreshing at once |
| SingleFlight.CancellationFreesTheMutex | crates/auth-codex/src/lib.rs:266-285 | A caller may be cancelled while it waits or refreshes, and then whoever waits can go in |
| SingleFlight.OutcomeIsNewerThanTheRead | crates/auth-codex/src/lib.rs:266-271 | Every caller that returns, returns the outcome of an attempt published after it read the generation |
| SingleFlight.SuccessIsBackedExactlyWhen | crates/auth-codex/src/lib.rs:305-307 | Exactly when an exchange backs a caller's success |
| SingleFlight.ForcedCallerMayRideAlong | crates/auth-codex/src/lib.rs:269-271 | A run in which a forced caller is told it worked and nothing was exchanged |
| MutationLock.AcquireWithin | crates/credentials/src/lock.rs:43-74 | The result is that of the first turn that does not go on waiting |
| MutationLock.WaitsUntilTheDeadline | crates/credentials/src/lock.rs:48-73 | Until the deadline a lock is waited for: one that goes away in time is taken, one still there and fresh at the deadline is given up |
| MutationLock.DeadlineEndsTheWaitExactlyWhen | crates/credentials/src/lock.rs:56-70 | Past the deadline the wait ends exactly when some turn finds the lock fresh |
| MutationLock.StaleLockOutlivesTheDeadline | crates/credentials/src/lock.rs:56-62 | Any number of turns past the deadline that all find the lock stale leave the caller still waiting |
| LockProtocol.StepKeepsOwnedExactlyWhen | crates/credentials/src/lock.rs:56-80 | A step keeps the lock its holder's exactly when it does not break the lock of a process still at work |
| LockProtocol.OwnedIsExclusive | crates/credentials/src/lock.rs:82-92 | At most one process then holds the lock |
| LockProtocol.LockIsOwnedExactlyWhen | crates/credentials/src/lock.rs:43-92 | The same over whole runs of any number of processes that die, give up and are cancelled anywhere |
| LockProtocol.PromptRunsRobNobody | crates/credentials/src/lock.rs:23-25 | A run in which every lock file is gone within the stale age breaks no lock |
| LockProtocol.ExchangePresentsTheStoredToken | crates/auth-codex/src/lib.rs:288-323 | While no working process loses its lock, whoever exchanges is alone and presents the refresh token stored last |
| LockProtocol.StepKeepsRenewableExactlyWhen | crates/auth-codex/src/lib.rs:315-336 | A step keeps the newest credential renewable exactly when it does not throw away a replaced refresh token before it is saved |
| LockProtocol.LoginStaysRenewableExactlyWhen | crates/auth-codex/src/lib.rs:287-337 | The same over whole runs |
| LockProtocol.NoSupersededTokenIsPresented | crates/auth-codex/src/lib.rs:288-291 | In such runs no exchange ever presents a superseded refresh token |
| LockProtocol.AloneIsRefresh | crates/auth-codex/src/lib.rs:287-337 | Undisturbed, a process's steps are one refresh as `CredentialFile.PerformRefresh` does it |
| LockProtocol.TurnIsRefresh | crates/auth-codex/src/lib.rs:287-337 | From a free lock to a free lock, an undisturbed turn is one refresh and touches nothing else |
| LockProtocol.TurnReplaces | crates/credentials/src/lock.rs:43-82 | The same of a login or a logout |
| LockProtocol.AnyoneMayLeave | crates/credentials/src/lock.rs:64-82 | A waiter can give up and a holder can stop at any point; only the lock changes |
| LockProtocol.DeadLockIsTakenOver | crates/credentials/src/lock.rs:56-62 | A dead process's lock stays; a waiter judges it stale exactly when it is more than a minute old, and then gets in |
| LockProtocol.LostAnswerIsAnExchange | crates/auth-codex/src/lib.rs:315-326 | A lost answer leaves the issuer as the exchange would, and the process with nothing to save |
| LockProtocol.OnlyHoldersChangeTheCredential | crates/auth-codex/src/lib.rs:288-295 | Only a process that believes it holds the lock changes the credential; no step touches another process |
| LockProtocol.FirstArrives | crates/credentials/src/lock.rs:43-49 | In every run a process waits for the lock before it does anything else |
| LockProtocol.StepsComeInOrder | crates/auth-codex/src/lib.rs:287-337 | In every run the steps of one process come in the order of the code, whatever the others do in between |
| LockProtocol.StoredRefreshTokenIsNeverLost | crates/auth-codex/src/tokens.rs:27-48 | In every run at all, locks broken or not, refreshing never leaves the store without a refresh token |
| LockProtocol.TwoWaitersBothIn | crates/credentials/src/lock.rs:56-62 | A run in which two waiters hold the lock at once |
| LockProtocol.SlowerWaiterIsRefused | crates/credentials/src/lock.rs:3-8 | ... and the slower one presents a superseded token and is refused |
| Checkpoints.OwnerRoundTrip | crates/checkpoint/src/lib.rs:708-736 | The owner read back from a snapshot's ref is the session that took it |
| Checkpoints.CleanedKeeps | crates/checkpoint/src/lib.rs:720-736 | An id keeps its ASCII letters, digits, dashes and underscores; every other character becomes a dash |
| Checkpoints.OwnedExactlyWhen | crates/checkpoint/src/lib.rs:708-711 | Only a name outside the snapshots' own place has no owner |
| Checkpoints.SnapshotStore.Survey | crates/checkpoint/src/lib.rs:471-489 | Finds exactly the expired refs and exactly the owners |
| Checkpoints.SnapshotStore.Prune | crates/checkpoint/src/lib.rs:456-522 | Removes exactly the refs and indexes the retention rules say, and nothing when the clock gives no cutoff |
| Checkpoints.PruningDoesNotInterfere | crates/checkpoint/src/lib.rs:471-508 | Whether a ref survives depends only on its age, its own session's index and the cutoff, in any two stores and whoever prunes |
| Checkpoints.ActiveSessionsKeepTheirSnapshots | crates/checkpoint/src/lib.rs:444-541 | A session that staged within the window of every prune never loses a snapshot, nor its index once it has staged since, in any interleaving of opens, stagings and anchorings by others |
| Checkpoints.YoungSnapshotsStay | crates/checkpoint/src/lib.rs:486-488 | No snapshot goes before its time, active session or not |
| Checkpoints.OldSnapshotsGo | crates/checkpoint/src/lib.rs:456-508 | Opening the store takes every snapshot of an idle session that is older than snapshots are kept |
| Checkpoints.IdleSnapshotsGoInTime | crates/checkpoint/src/lib.rs:456-508 | The snapshots of a session that does nothing more go with the first opening of the store after that long, whoever opens it |
| Checkpoints.NothingGoesEarly | crates/checkpoint/src/lib.rs:696-706 | Before the clock has run that long, and with a clock before the epoch, nothing is taken |
| Checkpoints.SeedsFromAnother | crates/checkpoint/src/lib.rs:560-585 | A session without an index starts from another's if there is one that can be copied; one with an index keeps it |
| Checkpoints.HoldingASnapshotIsNotEnough | crates/checkpoint/src/lib.rs:510-520 | A store in which a session keeps a snapshot and loses its index |
| Checkpoints.WorkingIsNotEnough | crates/checkpoint/src/lib.rs:510-520 | A session that has just staged and has no snapshot yet loses its index to the next session that opens |
| Checkpoints.WorkingIsNotEnoughAtOnce | crates/checkpoint/src/lib.rs:510-520 | The same for two sessions on an empty store |
| Layering.Check | scripts/check-layering.py:110-150 | Reports exactly the direct edges that break a rule |
| Layering.FailuresAreEdges | scripts/check-layering.py:119-141 | A failure is between two packages of the workspace, the first of which declares the second; other declarations are ignored |
| Layering.PassingIsAcyclic | scripts/check-layering.py:129-133 | No failures means no dependency cycle |
| Layering.NoPathToVendor | scripts/check-layering.py:135-141 | With a table that leaves no room between, no path from a vendor-free crate ends at a vendor plugin |
| Layering.DirectEdgesSufficeExactlyWhen | scripts/check-layering.py:89-141 | Testing direct edges keeps vendors out of every passing workspace exactly for those tables |
| CrateTable.VendorsAreUnlisted | scripts/check-layering.py:21-107 | A vendor plugin is never listed and ranks as a plugin |
| CrateTable.VendorNames | scripts/check-layering.py:91-137 | A vendor plugin has one of the two prefixes and is not one of the seams |
| CrateTable.PluginsDependOn | scripts/check-layering.py:21-86 | A plugin may depend on every listed crate but the plan crate and the three surfaces, and on no other plugin |
| CrateTable.CoreDependsOn | scripts/check-layering.py:21-60 | Exactly which crates the core may depend on |
| CrateTable.ShippedTableKeepsVendorsOut | scripts/check-layering.py:21-150 | With the shipped table, passing means no vendor-free crate reaches a vendor plugin by any path |

## Left out

- Machine widths: offsets, counts, ranks and the refresh generation are unbounded; the generation's wrap-around, which needs 2^64 completed attempts between a caller's read and its turn, is not modelled.
- JSON, TOML and UTF-8: a log line is read by an abstract `parse`, blank lines are told by an abstract `blank`, and `RoundTrips` (no newline inside a serialised event, and parsing it back) and `IgnoresLineEnds` are assumed where a lemma names them. Invalid UTF-8, which makes a whole read fail, is not modelled.
- Characters: Dafny's `char` stands for Rust's; non-ASCII letters are compared as they are, as in the code.
- `is_stale` and expiry of a credential, and the JWT it may be read from: whether a credential is stale is an answer of the environment.
- The fallback to another tool's imported login, and a stored file without a usable credential: `stored` is the usable credential under the lock, if there is one.
- SingleFlight.Refresher.RefreshOnce: what happens under the mutex; the read of the generation before it and the interleaving with other callers are the step system's.
- MutationLock.AcquireWithin: removing the stale file is the turn that meets it; what other processes do meanwhile is in the step system, where each waiter's turns are separate steps.
- Memory ordering: atomics, mutexes and file operations are sequentially consistent steps; creating, reading, replacing and removing a file are each one step.
- Dispatching.Session.Dispatch: one call at a time, split in two methods; waiting for the session lock and for reviewers while other calls go on is the step system of `DispatchRuns`.
- Approval text, notes, evidence, lifecycle observers, tool results and time limits of a tool body: they do not affect who may run what.
- What a tool declares about a call, which guards there are and what they say, and what reviewers answer: inputs, arbitrary in every theorem.
- Unavailable locks: a poisoned mutex of the "allow always" memory reads as nothing remembered; the model's memory is always available.
- Directories.FixedLength: `segments_match` calls the proved specification of `segment_match`, since a function cannot call a method.
- SessionSummary.SessionMeta.Apply: the flattening of a turn's input to one line is done before the event reaches the model, and events the summary ignores are one case.
- SessionHistory.WritersAgreeExactlyWhen: two writers of one log at a time, which the code does not rule out, and a cache longer than its log that a later, longer log makes usable, are left out; a cache file is read and written whole.
- SessionSummary.RefreshAgreesWithScan: a log rewritten in place to at least its cached length is not an append and is not detected, as in the code.
- The time of the last event and the count of turns: kept by `Apply`, with no separate statement about whole logs.
- SandboxConfig.FromLayers: provider, model, instructions, catalogue, compaction, checkpoint, plugin, background, image and subagent settings, which the sandbox and the approvals do not read; a section that is absent is the section with nothing in it.
- SandboxConfig.CheckPorts: the pattern syntax of a DNS name is an arbitrary predicate `valid`.
- Snapshot contents, tree-size limits, ignore rules and git itself: refs, dates and index times are what pruning sees; failing git commands abort a prune before it changes anything and are left out, and so is an index file that cannot be removed.
- The catalogue, provider composition, user interfaces, plugins, subagents and conversation replay.
