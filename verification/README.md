# Verified models of the my_agents backend

This project models the parts of the backend whose correctness spans several functions or several
transactions, and proves what they guarantee:

- **Conversation continuity.** The token-budgeted window over the transcript, the compaction rounds that
  move a summary boundary forward, the gap flag, and the life of a stored summary under posts, replays and
  overlapping compactions.
- **Guest trials.** Trials, codes, requests, accounts, sessions and deletion audits as one state machine:
  the one-time bootstrap from older tables, requests, issues, redemptions, resets, registrations, erasures,
  logouts, the clock, and old application instances that still write beside the new ones. The transactions
  are also written step by step, with rollback, as methods of a class over the tables, each proved to commit
  exactly what the state machine's step says.
- **Claim protocols.** The registration-notification queue with leases and fencing tokens, and the
  direct-upload session with racing complete, abort and refresh calls. Both interleave any number of
  callers that may stall or crash between two steps.
- **Answer batching.** The delta buffer and frame loop of the answer worker, with a timer that may fire at
  any time.
- **Bounds.** The shared request budgets, the in-memory attempt limiter, the expired-guest sweep, and NDCG.

Committed transactions and compare-and-set updates are atomic. The keyed digest of an email is injective,
so an identity stands for both the normalised address and its fingerprint; an `Email` carries its identity
and how it is spelled, spelling 0 being the normalised text. Ids are fresh numbers from a counter, a
presented secret is the id of the code it opens, and a transaction reads one clock value, except where a
second reading matters (the upload refresh).

Layout: `Transcript`, `RecentWindow`, `Summaries`, `Continuity`, `ContextEvents`, `SummaryHistory`
(continuity); `GuestTables` (rows and transactions), `GuestBackfill`, `GuestBackfillFacts`,
`GuestBootstrap`, `GuestBootstrapRows`, `GuestKeepers` (bootstrap), `GuestErasure`, `GuestErasureFacts`
(erasure), `GuestProtocol` (steps and invariant), `GuestSteps`, `GuestRuns`, `GuestTheorems` (runs),
`GuestFrames`, `GuestRoundTrip` (what each step changes and leaves alone), `GuestAccess`, `GuestInitialize`
(the code), `GuestSweep`; `Notifications`, `NotificationDelivery`, `NotificationRetries`; `Uploads`;
`AnswerStream`, `AnswerWorker`; `RateBudget`, `RateBudgetRuns`; `AttemptLog`, `AbuseProtector`;
`Rearrangement`, `Ndcg`.

`dafny verify dfyconfig.toml` checks everything.

## What turned out to hold only under a condition

- Bootstrap: "a used identity without a live account has no usable code" can fail when a legacy account is
  linked to two identities. It holds in every order exactly when, in the legacy tables, the address is
  registered, or none of its accounts is active, or none of its codes is usable, or its first active
  account is first for every identity it is linked to (`GuestKeepers.NoStrayCodeIff`). Redemption refuses
  the leftover code (`GuestKeepers.StrayCodeExists`).
- `take_budget` inserts a missing bucket whatever the limit, so a budget admits at least one call: its
  capacity is the larger of 1 and the limit.
- A notification's send returns exactly once when every send that returns is marked complete before its
  lease ends; a crash between the two leads to a second one
  (`NotificationDelivery.DuplicateSendIsPossible`), as the source's own comment says.
- A process that dies inside the upload's verifying section leaves the session stuck for good
  (`Uploads.CrashStrands`, `Uploads.StrandedForever`); nothing else does (`Uploads.OnlyCrashesStrand`).
- A refreshed upload URL's recorded end can pass the admission's, because its lifetime is measured from one
  clock reading, cut to whole seconds, and counted from a later reading. It stays within exactly when, with
  ten minutes left, the refresh still leaves them, or otherwise the readings are no further apart than the
  fraction of a second cut off (`Uploads.SignedWithinIff`).
- NDCG of an accepted order is at most 1 exactly when no label is repeated or every grade is 0
  (`Ndcg.BoundIff`): the ideal list has one grade per label, the order one per candidate. The benchmark
  numbers the labels it prepares, so only an edited snapshot file repeats one.

## Model

| member | source | states |
|---|---|---|
| `RecentWindow.ScanBack` | my_agents/conversations/continuity.py:71-80 | the scan keeps the latest message and returns the rows back to a point before which no admissible suffix starts |
| `RecentWindow.NothingLonger` | my_agents/conversations/continuity.py:74-77 | where the scan stops, no longer suffix is admissible |
| `RecentWindow.SelectRecent` | my_agents/conversations/continuity.py:67-82 | the result is the longest suffix that fits and opens with a user message, or the latest message alone when there is none |
| `RecentWindow.WindowIsUnique` | my_agents/conversations/continuity.py:67-82 | that specification determines the window |
| `RecentWindow.WindowIsMonotone` | my_agents/conversations/continuity.py:67-82 | a larger budget or ceiling never delivers less |
| `Transcript.TotalAppend` | my_agents/conversations/continuity.py:63-64 | every message costs its content's tokens and 12 more |
| `Transcript.KeyOrder` | my_agents/conversations/continuity.py:159-163 | rows are ordered by time and then id, and of two different rows one comes first |
| `Summaries.FilteredCites` | my_agents/conversations/continuity.py:556-563 | filtering adds no citation and leaves none that is hidden |
| `Summaries.FilteredConcat` | my_agents/conversations/continuity.py:556-563 | filtering keeps the order and the multiplicity of the entries |
| `Summaries.FilteredOne` | my_agents/conversations/continuity.py:556-563 | an entry stays exactly when none of its sources is hidden |
| `Summaries.RowsAreQuoted` | my_agents/conversations/continuity.py:97-107 | what was kept comes first, then one entry per row, cited and labelled by its role |
| `Summaries.PopKeepsShape` | my_agents/conversations/continuity.py:109-113 | popping index 5 or the last keeps the oldest five followed by the newest entries |
| `Summaries.ShapeIsUnique` | my_agents/conversations/continuity.py:109-113 | there is one such selection for each length |
| `Summaries.GenerateDeterministic` | my_agents/conversations/continuity.py:97-113 | the deterministic summary is the oldest and newest entries of old plus new, cites nothing outside its inputs, fits 3000 tokens unless a single entry does not, and no longer selection of that shape up to 20 entries would fit |
| `Continuity.MissingIffShorter` | my_agents/conversations/continuity.py:389-394 | some message after the boundary is undelivered exactly when fewer rows are delivered than follow the boundary |
| `Continuity.RecentRowsAreLatest` | my_agents/conversations/continuity.py:177-206 | the 65-row tail after the boundary is the latest rows of the transcript, and how many |
| `Continuity.WindowIsLatest` | my_agents/conversations/continuity.py:376-389 | the window over them is the latest rows again, at most 64 |
| `Continuity.FirstIdsTell` | my_agents/conversations/continuity.py:390-391 | comparing the first ids of two such suffixes compares their lengths |
| `Continuity.HistoryFlagExact` | my_agents/conversations/continuity.py:177-206 | for every transcript and boundary `history_incomplete` is true exactly when some message after the boundary is not delivered, also beyond the 65-row tail |
| `Continuity.ChoosePrefix` | my_agents/conversations/continuity.py:234-248 | the rows a round covers are the longest run before a protected row, an opening assistant row or 16000 tokens, without a trailing user row |
| `Continuity.ChosenIsUnique` | my_agents/conversations/continuity.py:234-248 | those conditions determine the rows |
| `Continuity.ChosenIsSafe` | my_agents/conversations/continuity.py:234-246 | the rows fit the token limit, contain nothing protected, and a trailing user row is followed by another user row |
| `Continuity.CoversNothingProtected` | my_agents/conversations/continuity.py:230-238 | a row outside the protected suffix precedes all of it |
| `Continuity.ChosenPrefixIsSafe` | my_agents/conversations/continuity.py:223-248 | a chosen prefix lies before the protected suffix and never ends between a user message and the reply that follows it |
| `Continuity.CandidatesAreNext` | my_agents/conversations/continuity.py:224-229 | a round looks at the up to 65 rows right after the boundary, without a gap |
| `Continuity.PlanRound` | my_agents/conversations/continuity.py:224-249 | the planned round covers such a prefix, or there is none to cover |
| `ContextEvents.RoundAdvances` | my_agents/conversations/continuity.py:349-357 | a committed round moves the boundary strictly forward, past no protected message, and keeps turns whole |
| `ContextEvents.RoundStaysGrounded` | my_agents/conversations/continuity.py:250-262 | a summary that cites only its rows and what was kept cites existing messages at or before the new boundary |
| `ContextEvents.ProtectedIsDelivered` | my_agents/conversations/continuity.py:230-233 | when none of the protected suffix is masked, all of it is delivered |
| `ContextEvents.FirstRoundDecides` | my_agents/conversations/continuity.py:223-249 | nothing is compacted exactly when the first round has no prefix or is not accepted |
| `ContextEvents.LoadedIff` | my_agents/conversations/continuity.py:196-202 | a stored summary is used exactly when its policy is current and the message it covers up to exists |
| `ContextEvents.DueMeansOverflow` | my_agents/conversations/continuity.py:207-209 | compaction is due exactly when no window can take in every row after the boundary, even opened by a user message |
| `ContextEvents.OverflowLeavesOut` | my_agents/conversations/continuity.py:359-363 | that is when the window over those rows leaves one out, or a single row costs more than the budget |
| `ContextEvents.AcceptedIff` | my_agents/conversations/continuity.py:319-337 | a result is stored exactly when every entry cites only what the round was given, it takes at most 3000 tokens and the transcript and run are as they were |
| `ContextEvents.WindowIsAsStored` | my_agents/conversations/continuity.py:376-389 | every delivered message is the stored one at its place, with the notice for its content exactly when it is masked |
| `ContextEvents.OneRound` | my_agents/conversations/continuity.py:223-366 | one round: over exactly when there is nothing to cover, the run was found stopped or the result is refused, and reported stopped exactly when the run was found stopped with rows to cover; otherwise a grounded summary with a safely advanced boundary is stored |
| `ContextEvents.Compact` | my_agents/conversations/continuity.py:207-375 | exactly which rounds happen, what they leave stored and when the run is reported stopped; the boundary only moves forward and safely, and the summary stays grounded |
| `ContextEvents.CompactionIsDetermined` | my_agents/conversations/continuity.py:207-375 | transcript and summariser results determine what is kept and whether the run was found stopped |
| `ContextEvents.Deliver` | my_agents/conversations/continuity.py:376-397 | the delivered window, its exact gap flag, and that no delivered summary entry cites a masked message |
| `ContextEvents.PrepareContext` | my_agents/conversations/continuity.py:166-418 | the whole preparation: the last six messages exactly when switched off; with a run, compaction exactly when the rows after the boundary overflow the window, and otherwise the summary as loaded; stopped exactly when a round finds the run stopped and then with which window; otherwise the window of at most 64 latest messages as stored or masked, the readable summary, the exact gap flag, the protected suffix, a grounded summary and a safe advance |
| `SummaryHistory.PlannedRoundIsEnabled` | my_agents/conversations/continuity.py:207-249 | the rounds the planner chooses are steps of the history machine |
| `SummaryHistory.TruncateKeepsGrounded` | my_agents/conversations/continuity.py:439-451 | what invalidation leaves of a grounded summary is grounded in the truncated transcript |
| `SummaryHistory.CommitKeepsInv` | my_agents/conversations/continuity.py:319-357 | a late commit passes the transcript and source checks or changes nothing, so it stays grounded |
| `SummaryHistory.CommitIff` | my_agents/conversations/continuity.py:329-357 | a finished round is stored exactly when its run is still active, the transcript still ends as it was read, the summary it read is still there or still none is, and it cites what it may |
| `SummaryHistory.UndisturbedRoundIsStored` | my_agents/conversations/continuity.py:223-357 | a round nobody disturbs is stored and its last row becomes the boundary |
| `SummaryHistory.RemovalDropsIff` | my_agents/conversations/continuity.py:439-451 | a removal keeps the summary exactly when the message it covers up to stays |
| `SummaryHistory.StepKeepsInv` | my_agents/conversations/continuity.py:439-451 | posts, begins, commits, truncations and invalidations keep every stored and pending summary sound |
| `SummaryHistory.SummariesStayGrounded` | my_agents/conversations/continuity.py:319-357 | over every history, citations of the stored summary exist at or before its boundary and what a reader gets cites nothing hidden from them |
| `SummaryHistory.CommitAdvances` | my_agents/conversations/continuity.py:324-356 | only the run that is still running commits, and then the boundary moves strictly forward |
| `SummaryHistory.BoundaryOnlyAdvances` | my_agents/api/conversations/run_lifecycle.py:809-824 | with one active run per conversation, whatever rounds of cancelled and later runs overlap, the stored boundary only moves forward between two removals |
| `GuestTables.EligibleUser` | my_agents/auth/guest_policy.py:191-210 | an identity is accepted exactly when it is not registered and is unused or has its own live account, which is then returned |
| `GuestAccess.GuestAccessService.LockTrial` | my_agents/auth/guest_policy.py:171-188 | the identity's row exists afterwards and nothing else changed |
| `GuestAccess.GuestAccessService.Newest` | my_agents/auth/guest_access.py:130-140 | the newest pending or issued, unrejected request of the normalised address by creation and id, or none |
| `GuestAccess.GuestAccessService.RequestRow` | my_agents/auth/guest_access.py:124-145 | the named, newest reusable or new request, or the refusal of a named one |
| `GuestAccess.GuestAccessService.Ask` | my_agents/auth/guest_access.py:110-122 | commits the request step of the protocol or leaves the tables as they were |
| `GuestAccess.GuestAccessService.Issue` | my_agents/auth/guest_access.py:147-218 | succeeds exactly when nothing refuses and the mail is delivered, then commits the issue step and its code is usable; otherwise nothing changes |
| `GuestAccess.GuestAccessService.CheckCode` | my_agents/auth/guest_access.py:226-248 | every reason to refuse a redemption, as the protocol states them |
| `GuestAccess.GuestAccessService.Redeem` | my_agents/auth/guest_access.py:220-306 | succeeds exactly when the protocol allows, commits its step and returns its grant; otherwise nothing changes |
| `GuestAccess.GuestAccessService.Reset` | my_agents/auth/guest_policy.py:239-274 | the tables become those of the reset step, whose effect on every row and on everybody's access is `GuestFrames.ResetFrame` and `GuestFrames.StepAccess` |
| `GuestAccess.GuestAccessService.Signup` | my_agents/auth/service.py:150-229 | registers exactly when the address is not registered yet |
| `GuestAccess.GuestAccessService.CheckOwner` | my_agents/auth/guest_access.py:68-91 | finds the identity whose trial the account owns, exactly when there is one |
| `GuestAccess.GuestAccessService.AuthenticateSession` | my_agents/auth/service.py:347-368 | a guest principal is returned exactly when the session admits a guest, a registered one exactly when session and account are active |
| `GuestAccess.GuestAccessService.Erase` | my_agents/auth/guest_cleanup.py:176-405 | commits the erasure step, or reports the protocol's refusal and changes nothing |
| `GuestInitialize.EndAccounts` | my_agents/auth/guest_policy.py:120-127 | every active account but the keeper expires now and its open sessions are revoked |
| `GuestInitialize.SettleCodes` | my_agents/auth/guest_policy.py:145-158 | codes get the identity, all usable ones but the newest close, and that one too when barred |
| `GuestInitialize.PickKeeper` | my_agents/auth/guest_policy.py:115-119 | the keeper is the oldest active account by creation and id, none when registered |
| `GuestInitialize.History` | my_agents/auth/guest_policy.py:128-133 | the collected moments are the evidence that the identity was used |
| `GuestInitialize.ReconcileOne` | my_agents/auth/guest_policy.py:100-158 | one identity is reconciled as the specification says, its row being new |
| `GuestInitialize.BackfillRequests` | my_agents/auth/guest_policy.py:83-158 | every request identity is reconciled once, without a key clash |
| `GuestInitialize.AddAuditTrials` | my_agents/auth/guest_policy.py:159-168 | audits without requests get a used trial from their earliest moment |
| `GuestInitialize.Initialize` | my_agents/auth/guest_policy.py:63-80 | bootstraps once; a second call changes nothing |
| `GuestBackfillFacts.SettlePath` | my_agents/auth/guest_policy.py:100-158 | after any number of turns each processed identity is as its own turn decided from the original history, the rest untouched |
| `GuestBootstrap.OneTrialPerKnownIdentity` | my_agents/auth/guest_policy.py:83-168 | exactly one trial for every identity that a request or audit mentions |
| `GuestBootstrap.UsedExactly` | my_agents/auth/guest_policy.py:128-144 | used exactly when a redeemed code, guest account, consumed request or audit says so, since the earliest of them |
| `GuestBootstrap.CodesAreLabelled` | my_agents/auth/guest_policy.py:151-153 | a code carries an identity exactly when its request names it |
| `GuestBootstrap.OpenCodeIsTheNewest` | my_agents/auth/guest_policy.py:145-158 | a code is usable afterwards exactly when it was the newest usable one, the address is not registered, and the identity is unused or has a recorded account |
| `GuestBootstrap.AtMostOneOpenCode` | my_agents/auth/guest_policy.py:145-155 | at most one usable code per identity |
| `GuestBootstrap.OnlyTheKeeperIsLive` | my_agents/auth/guest_policy.py:115-127 | of the accounts an identity had only the recorded one can be live, none when registered |
| `GuestBootstrapRows.UsedSince` | my_agents/auth/guest_policy.py:128-139 | a trial is used exactly when some moment on record says so, since the earliest one |
| `GuestBootstrapRows.LastMailKept` | my_agents/auth/guest_policy.py:134-141 | the time of the last mail is the latest one on record |
| `GuestBootstrapRows.AccountsEndIff` | my_agents/auth/guest_policy.py:115-122 | an account ends exactly when it was live and an identity it was linked to did not keep it; no other account changes |
| `GuestBootstrapRows.SessionsFollow` | my_agents/auth/guest_policy.py:120-127 | an open session ends exactly with its account; no other session changes |
| `GuestBootstrapRows.OldestIsKept` | my_agents/auth/guest_policy.py:115-119 | unless the email is registered a live account of its own is kept or an older one is |
| `GuestBootstrapRows.OpenCodeWasLast` | my_agents/auth/guest_policy.py:144-158 | the code that stays usable is the last one made |
| `GuestKeepers.KeeperLivesIff` | my_agents/auth/guest_policy.py:115-127 | the recorded account is live afterwards exactly when every identity it was linked to recorded it |
| `GuestKeepers.KeptInEveryOrder` | my_agents/auth/guest_policy.py:115-127 | in every order an identity keeps its first active account, and keeps it live, when every identity linked to that account would keep it; without an active account it keeps none |
| `GuestKeepers.EndedByTheNext` | my_agents/auth/guest_policy.py:115-127 | when some identity linked to it would not keep it, every order that starts with the two records the account and leaves it ended |
| `GuestKeepers.StrayCodeExists` | my_agents/auth/guest_policy.py:145-158 | then some order leaves a usable code at the used identity, which redemption refuses |
| `GuestKeepers.NoStrayCodeIff` | my_agents/auth/guest_policy.py:83-158 | no order leaves a usable code at a used identity without a live account exactly when, in the legacy tables, the address is registered, no account is active, no code is usable, or the first active account is first for every identity it is linked to |
| `GuestKeepers.SharedTablesStray` | my_agents/auth/guest_policy.py:106-127 | concrete legacy tables that fail the condition |
| `GuestKeepers.BootstrapCompletes` | my_agents/auth/guest_policy.py:83-168 | from any legacy tables and in any order the bootstrap goes through |
| `GuestSteps.IssueSound` | my_agents/auth/guest_access.py:179-206 | an issue keeps the tables sound and extends nothing |
| `GuestSteps.RedeemFacts` | my_agents/auth/guest_access.py:231-294 | what a redemption changes: an account is created exactly when the trial is unused, otherwise the trial's own live account is signed in |
| `GuestSteps.RedeemKeeps` | my_agents/auth/guest_access.py:220-300 | a redemption keeps the invariant, and its grant follows every earlier one |
| `GuestSteps.ResetKeeps` | my_agents/auth/guest_policy.py:239-274 | a reset keeps the invariant and counts one generation |
| `GuestSteps.EraseKeeps` | my_agents/auth/guest_cleanup.py:196-263 | an erasure keeps the invariant |
| `GuestRuns.BootstrapKeeps` | my_agents/auth/guest_policy.py:63-168 | the bootstrap establishes the invariant from any legacy tables |
| `GuestRuns.StepKeepsInv` | my_agents/auth/guest_access.py:110-300 | every step of the protocol keeps the invariant and only ages the rows it finds |
| `GuestRuns.RunKeepsInv` | my_agents/auth/guest_access.py:110-300 | so does every run |
| `GuestRuns.LaterGrant` | my_agents/auth/guest_access.py:220-300 | every later grant was made in a sound state on the way |
| `GuestRuns.OwnerHasGrant` | my_agents/auth/guest_access.py:262-276 | an account that came to own a trial after the bootstrap has the grant that created it, in the trial's generation |
| `GuestTheorems.OneAccountPerGeneration` | my_agents/auth/guest_access.py:247-276 | at most one account per identity and generation, so never more than resets + 1 per email |
| `GuestTheorems.OneGuestPerEmail` | my_agents/auth/guest_access.py:68-91 | in any tables at most one guest of an email can authenticate at a time |
| `GuestTheorems.AccessEndsWithTheFirstGrant` | my_agents/auth/service.py:347-368 | whoever authenticates as a guest of the email is the account of the current generation's grants, before their expiry and before first redemption plus access period |
| `GuestTheorems.NewGuestsHaveAGrant` | my_agents/auth/service.py:347-368 | a guest created after the bootstrap authenticates only before its creation plus the access period, which a grant of the current generation records |
| `GuestTheorems.CodesWorkOnce` | my_agents/auth/guest_access.py:182-207 | in every reachable state at most one usable code per identity, and no code is redeemed twice |
| `GuestTheorems.StaleCodeStaysDead` | my_agents/auth/guest_access.py:231-239 | a code of an earlier generation is never redeemed in any continuation |
| `GuestTheorems.ResetKillsEveryCode` | my_agents/auth/guest_policy.py:260-269 | after a reset no code the identity had is ever redeemed |
| `GuestTheorems.ExpiryNeverGrows` | my_agents/auth/guest_policy.py:244-254 | over any run a guest's expiry never increases and an erased account never returns |
| `GuestTheorems.LoginsNeverExtendAccess` | my_agents/auth/guest_access.py:284-292 | grants of one generation are to one account, none and no session of theirs outlives an earlier one |
| `GuestTheorems.RegistrationEndsGuestAccess` | my_agents/auth/guest_policy.py:191-195 | once the email is registered nothing is granted for it and none of its guests authenticates, for the rest of the run |
| `GuestTheorems.UsedUntilReset` | my_agents/auth/guest_policy.py:196-210 | a used identity stays used, whatever is erased, and gets no account until it is reset |
| `GuestTheorems.UnownedNeverGetsIn` | my_agents/auth/guest_access.py:68-91 | an account no trial names never authenticates again, be it evicted, a legacy duplicate or made by an old instance |
| `GuestTheorems.ResetStartsOver` | my_agents/auth/guest_policy.py:239-274 | afterwards the identity is unused, one generation on, without usable codes, its former account expired and all its sessions revoked |
| `GuestTheorems.CodeExpiryBounds` | my_agents/auth/guest_access.py:181-183 | a code lasts exactly its full period, or as long as the live account when that ends earlier |
| `GuestTheorems.IssueReplacesCodes` | my_agents/auth/guest_access.py:184-202 | the issued code is new and the identity's only usable one |
| `GuestTheorems.CooldownHolds` | my_agents/auth/guest_access.py:165-169 | within a generation no code is issued until the cooldown after an earlier mail is over, whatever happens between |
| `GuestTheorems.IssuedIff` | my_agents/auth/guest_access.py:163-181 | a code is issued exactly when nobody is registered, the trial is unused or its account live, the cooldown is over, the daily limit not reached and a named request the identity's own and not rejected |
| `GuestTheorems.RefusalReasons` | my_agents/auth/guest_access.py:163-181 | a refusal gives the first reason that applies |
| `GuestTheorems.PickedIsNewest` | my_agents/auth/guest_access.py:124-145 | an unnamed request is the newest open one of the address, by creation and id |
| `GuestRoundTrip.RedeemedIff` | my_agents/auth/guest_access.py:223-248 | exactly which codes can be redeemed |
| `GuestRoundTrip.IssuedCodeWorks` | my_agents/auth/guest_access.py:147-292 | an issued code is accepted later exactly when it has not run out |
| `GuestFrames.AskFrame` | my_agents/auth/guest_access.py:110-145 | a request adds at most its row and the identity's trial; no other row changes |
| `GuestFrames.IssueFrame` | my_agents/auth/guest_access.py:147-213 | an issue adds its code, ends the identity's unspent ones and stamps its request and trial; no other row changes |
| `GuestFrames.ResetFrame` | my_agents/auth/guest_policy.py:239-274 | a reset ends the trial's account with its sessions and the identity's unspent codes and starts the trial over; no other row changes |
| `GuestFrames.SignupFrame` | my_agents/auth/guest_policy.py:277-283 | a registration adds its account and the identity's trial; no other row changes |
| `GuestFrames.StepAccess` | my_agents/auth/guest_access.py:68-91 | after the bootstrap, for every step, session, account and identity: who gets in afterwards is exactly who got in before, plus the session a redemption opens, less what time, that session's logout, that account's erasure or that email's reset or registration ends |
| `GuestTheorems.ErasureSurvivesBootstrap` | my_agents/auth/guest_policy.py:89-99 | an account erased before the bootstrap makes its identity used |
| `GuestErasureFacts.NothingDangles` | my_agents/auth/guest_cleanup.py:353-401 | no code, session or trial points at the erased account and no remaining code at an erased request |
| `GuestErasureFacts.OneAuditRow` | my_agents/auth/guest_cleanup.py:380-397 | exactly one audit row is added, with the identity the account was linked to |
| `GuestErasureFacts.OthersAreUntouched` | my_agents/auth/guest_cleanup.py:196-208 | every other email's trial, codes and requests stay as they were |
| `GuestErasureFacts.OnlyItsRowsGo` | my_agents/auth/guest_cleanup.py:353-400 | exactly which sessions, codes and requests go with the account; every other row stays as it was |
| `GuestErasureFacts.RefusedIff` | my_agents/auth/guest_cleanup.py:186-226 | an erasure is refused exactly when the account is no guest expired by the cutoff, documents defer it, or its codes name two emails |
| `GuestErasureFacts.ErasureKeepsTrialsUsed` | my_agents/auth/guest_cleanup.py:398-400 | every identity stays as used as it was, in its generation |
| `GuestSweep.SelectPage` | my_agents/auth/guest_cleanup.py:418-430 | a page is the first 25 matching ids past the cursor, in order |
| `GuestSweep.EraseOne` | my_agents/auth/guest_cleanup.py:438-452 | one account is erased exactly when its erasure is not refused and does not raise; otherwise nothing changes |
| `GuestSweep.VisitErasesIff` | my_agents/auth/guest_cleanup.py:185-226 | a visit removes its account and no other, exactly then, and only when it had expired at its page's cutoff |
| `GuestSweep.SweepPage` | my_agents/auth/guest_cleanup.py:432-453 | one erasure transaction per account of the page, in order, each deciding as it must, with other transactions before every one |
| `GuestSweep.Sweep` | scripts/cleanup_expired_guests.py:31-45 | the committed transactions are exactly the visits and what others did in between; every guest expired at the start is visited or gone, none twice, visited ones still there have expired; whoever is gone was erased by a visit, for good, or removed by others |
| `GuestSweep.ErasedWasDue` | my_agents/auth/guest_cleanup.py:185-226 | every account the sweep erased was visited when it had expired, with nothing refusing it |
| `GuestSweep.GoneIsAccountedFor` | scripts/cleanup_expired_guests.py:31-45 | whoever is gone at the end of any such trace went in a visit or in somebody else's transaction |
| `Notifications.StepKeepsInv` | my_agents/auth/notifications.py:50-153 | every step of every worker keeps rows, claims and tokens sound |
| `Notifications.EarlierClaimsExpired` | my_agents/auth/notifications.py:58-66 | at a successful claim every earlier claim is over or has outlived its lease |
| `NotificationDelivery.RowsStaySound` | my_agents/auth/notifications.py:139-150 | an unsent row has its recipient; a sent row has no address and no lease, and exactly one claim completed it after its send returned |
| `NotificationDelivery.OnlyTheHolderCompletes` | my_agents/auth/notifications.py:93-151 | only the worker with the row's current token sets a sent time, after its send returned |
| `NotificationDelivery.SentIsFinal` | my_agents/auth/notifications.py:58-66 | a sent row never changes again |
| `NotificationDelivery.SecondSendNeedsExpiredLease` | my_agents/auth/notifications.py:77-90 | a second send that returns needs a claim made after the earlier lease ran out |
| `NotificationDelivery.PunctualMeansExactlyOnce` | my_agents/auth/notifications.py:77-151 | with punctual workers at most one send returns per job, and one has exactly when the row is marked sent |
| `NotificationDelivery.DuplicateSendIsPossible` | my_agents/auth/notifications.py:53-57 | a crash before completion can lead to two sends that return |
| `NotificationRetries.EnqueuedIsDue` | my_agents/auth/notifications.py:23-47 | a new event is due at once and changes no other |
| `NotificationRetries.ClaimIff` | my_agents/auth/notifications.py:58-92 | a claim succeeds exactly when the job is unsent, due and under no running lease by the worker's clock reading; the lease runs from the claim, the count goes up by one, nothing else changes |
| `NotificationRetries.CompletionIff` | my_agents/auth/notifications.py:139-151 | a completion marks the row sent and clears its addresses exactly when the worker still owns it |
| `NotificationRetries.AttemptsCountClaims` | my_agents/auth/notifications.py:78-87 | in every reachable state a row's attempts are the claims made on its job |
| `NotificationRetries.FailureWaits` | my_agents/auth/notifications.py:120-131 | a failure of the owner makes the job eligible exactly from the wait for its claims so far on, between 60 and 3600 seconds; a failure of anybody else changes nothing |
| `NotificationRetries.NoEarlyRetry` | my_agents/auth/notifications.py:58-66 | after such a failure, however the run goes on, nobody claims the job with a clock reading from before the end of the wait, never within 60 seconds |
| `NotificationRetries.LaterFailuresWaitLonger` | my_agents/auth/notifications.py:120-131 | a later failure of the same job sets a wait at least as long |
| `NotificationRetries.DelayIsWait` | my_agents/auth/notifications.py:128-129 | the delay is one minute doubled for every further attempt, at most an hour |
| `NotificationRetries.RetryDelaysGrow` | my_agents/auth/notifications.py:128-129 | the delays as computed lie between 60 and 3600 seconds and do not decrease |
| `NotificationRetries.ReleaseGivesBack` | my_agents/auth/notifications.py:97-104 | a worker that stops before sending gives the job back at once, as it was |
| `Uploads.StepKeepsInv` | my_agents/api/document_files.py:373-507 | complete, abort, refresh, cleanup and crash steps keep the session's invariant |
| `Uploads.UploadIsExclusive` | my_agents/api/document_files.py:373-474 | over every interleaving at most one document, only by a completed upload, at most one caller verifying, and the recorded end of a signed URL passes the admission's by no more than the refresh took |
| `Uploads.SignedWithinIff` | my_agents/api/document_files.py:181-203 | the recorded end stays within the admission exactly when, with ten minutes left, the refresh still leaves them, or otherwise its two clock readings are no further apart than the fraction of a second the lifetime was cut by |
| `Uploads.SignedPastTheEnd` | my_agents/api/document_files.py:181-203 | a concrete refresh on either side of that condition |
| `Uploads.RefreshIff` | my_agents/api/document_files.py:181-203 | a URL is signed anew exactly for a pending, reserved upload with a second left, and nothing else changes |
| `Uploads.CompleteSucceeds` | my_agents/api/document_files.py:373-474 | a complete call nobody disturbs finishes a pending upload exactly when the admission has not run out and the reservation is live |
| `Uploads.AbortSucceeds` | my_agents/api/document_files.py:480-507 | an abort call nobody disturbs cancels a pending upload and schedules its file for deletion |
| `Uploads.LaterCallsAreTold` | my_agents/api/document_files.py:373-507 | after the outcome every later call is answered by it |
| `Uploads.OutcomeIsFinal` | my_agents/api/document_files.py:480-507 | completed and aborted are final and exclude each other |
| `Uploads.FailureRestoresPending` | my_agents/api/document_files.py:373-474 | a failed finalisation returns the session to pending |
| `Uploads.StrandedForever` | my_agents/api/document_files.py:373-474 | a stranded session can never be completed or aborted again |
| `Uploads.CrashStrands` | my_agents/api/document_files.py:373-474 | a crash inside the verifying section strands the session |
| `Uploads.StrandingRun` | my_agents/api/document_files.py:373-474 | such a state is reachable |
| `Uploads.OnlyCrashesStrand` | my_agents/api/document_files.py:373-474 | no other step can |
| `AnswerWorker.Flush` | my_agents/answer_worker.py:271-286 | a flush emits exactly the buffered text with the next sequence number; when the run is no longer owned the log stays as it was |
| `AnswerWorker.TakeDelta` | my_agents/answer_worker.py:292-307 | chunking and timer flushes lose and reorder nothing, for every choice of the timer; it fails only where the lease is gone |
| `AnswerWorker.TakeSignal` | my_agents/answer_worker.py:308-343 | a control frame is emitted after everything before it, once; it fails only where the lease is gone |
| `AnswerWorker.TakeFrame` | my_agents/answer_worker.py:290-343 | one frame brings the loop to the next; it stops only at an unreadable or overlong frame or where the lease is gone, with a prefix of the stream |
| `AnswerWorker.Close` | my_agents/answer_worker.py:344-350 | the closing flush and the repair from the saved run, failing only where the lease is gone |
| `AnswerStream.VisibleShows` | my_agents/answer_worker.py:290-343 | the stream holds exactly the frames' text and, in order, the signals they call for; an end is left out only when the output already stands at an end of its kind |
| `AnswerWorker.ClosedIsWhole` | my_agents/answer_worker.py:290-350 | so does the closed stream, for every part of the frames before the next one, with the saved run's signal when no frame told the end |
| `AnswerWorker.ClosingAdds` | my_agents/answer_worker.py:345-348 | closing adds exactly the saved run's terminal frame when the phase had not ended |
| `AnswerWorker.EarlyStop` | my_agents/answer_worker.py:290-350 | on failure the emitted log and text are prefixes of the stream |
| `AnswerWorker.RefusedIsUndeliverable` | my_agents/answer_worker.py:292-298 | an unreadable or overlong frame makes the whole stream undeliverable |
| `AnswerWorker.Execute` | my_agents/answer_worker.py:265-350 | a finished run emitted all the text and every signal the frames call for by their kind, in their order, with the saved run's when no frame tells the end, and nothing for `run_error`; deltas numbered 1..n with 1 to 8191 characters; a stopped one a prefix of that; it finishes only on a stream that is readable, within 2,000,000 characters and ended, and stops only on one that is not or where the lease is gone |
| `RateBudget.RateBuckets.TakeBudget` | my_agents/auth/guest_policy.py:213-236 | one call drops expired rows and counts itself in its own bucket while there is room |
| `RateBudget.OnlyLiveRowsStay` | my_agents/auth/guest_policy.py:221-236 | no expired row is left and no live one is dropped |
| `RateBudget.BucketTextInjective` | my_agents/auth/guest_policy.py:218-219 | the bucket text determines action, slot and subject for action names without a colon |
| `RateBudgetRuns.TakeSound` | my_agents/auth/guest_policy.py:221-236 | one call leaves every budget's row as its count says, and never deletes a live one |
| `RateBudgetRuns.BudgetIsExact` | my_agents/auth/guest_policy.py:213-236 | over any run a budget admits exactly the smaller of its calls and its capacity |
| `RateBudgetRuns.AtMostTwiceTheLimit` | my_agents/auth/guest_policy.py:213-236 | in any interval of window length at most twice the capacity is admitted |
| `AttemptLog.DisciplineBounds` | my_agents/auth/abuse.py:43-68 | a checked log holds at most the capacity per window and 2·capacity − 1 in any half-open interval of window length |
| `AttemptLog.ReplayedIsBounded` | my_agents/auth/abuse.py:43-68 | what a timed series of checks and records lets through stays within those bounds |
| `AttemptLog.RefusedIffFull` | my_agents/auth/abuse.py:43-52 | the counter refuses exactly when some attempt opened a window that is still open and already holds the capacity |
| `AttemptLog.AnswersObey` | my_agents/auth/abuse.py:43-68 | so every check of a timed series is refused exactly when a window is open that holds the capacity of admitted attempts |
| `AbuseProtector.AuthAbuseProtector.ActiveBucket` | my_agents/auth/abuse.py:82-93 | the bucket is the log's current window while it lasts |
| `AbuseProtector.AuthAbuseProtector.AssertAllowed` | my_agents/auth/abuse.py:43-52 | refuses exactly when some attempt of the key opened a window that is still open and already holds the capacity of attempts, counted in the log |
| `AbuseProtector.AuthAbuseProtector.RecordAttempt` | my_agents/auth/abuse.py:54-68 | appends to the key's log and to nothing else |
| `AbuseProtector.AuthAbuseProtector.Reset` | my_agents/auth/abuse.py:70-75 | forgets the key's log and nothing else |
| `AbuseProtector.GuardedAttempts` | my_agents/auth/abuse.py:43-68 | any sequence of assert-then-record attempts refuses exactly the checks made while a window is open that already holds the capacity of admitted attempts, and stays within those bounds |
| `Rearrangement.DescendingIsBest` | scripts/benchmark_reranking.py:191-196 | of all orders the descending one has the largest weighted sum for non-increasing weights |
| `Ndcg.NdcgWithinUnit` | scripts/benchmark_reranking.py:191-196 | for every order of the labelled grades and every cutoff NDCG lies between 0 and 1 |
| `Ndcg.GainDoubles` | scripts/benchmark_reranking.py:191-193 | the gain of a grade is one less than two to its power |
| `Ndcg.IdealOrderScoresOne` | scripts/benchmark_reranking.py:191-196 | the descending order scores 1 when some grade is positive |
| `Ndcg.MembershipMeansPermutation` | scripts/benchmark_reranking.py:309-311 | with distinct labels the check accepts exactly the permutations |
| `Ndcg.CheckedOrderWithinUnit` | scripts/benchmark_reranking.py:199-204 | then every accepted order scores between 0 and 1 |
| `Ndcg.BreakingOrder` | scripts/benchmark_reranking.py:199-204 | with a repeated label and a positive grade, the best label repeated in front of the sorted labels is accepted and scores above 1 |
| `Ndcg.BoundIff` | scripts/benchmark_reranking.py:199-204 | every accepted order scores at most 1 at every cutoff exactly when no label is repeated or every grade is 0 |
| `Ndcg.PermutationIff` | scripts/benchmark_reranking.py:309-311 | the check means permutation for every order exactly when no label is repeated or there is only one label |

## Left out

- SQL, dialects, row locks and migrations: each transaction and each compare-and-set update is one step.
- The keyed digests, password hashing and token randomness: injective or fresh values.
- Provider calls, mail, object storage and thread timing: a result or a failure that may come at any moment.
- Tokenizers and JSON: a token count per message, at least the framing cost of 12; entry texts of summaries.
- The erasure of documents, knowledge bases, conversations and memories, and the reasons to defer it: one answer, `deferred`.
- Columns that are written and never read by this code, such as a trial's creation and last reset times.
- Generated guest addresses: they are taken never to coincide with a registered one.
- Legacy requests' rejection time is data; no operation in the source sets it.
- The bootstrap marker's key verifier: the key does not change.
- Guest operations first commit the bootstrap; the methods for the transactions that follow require that it has happened.
- Ids in the class methods must be fresh for the tables, as UUIDs are; foreign keys of codes and sessions never name an id that was not handed out yet, and an old instance's code names an existing request or none.
- GuestFrames.StepAccess: its redemption case assumes that the unspent code it redeems has admitted nobody, because the code's use and its account are always written together.
- Old application instances are modelled by their effect on the tables: an unlabelled code, or an account and session for an unused code.
- Two trial rows naming one erased account: the erasure is refused in that case, as in the source, and nothing more is said about it.
- The queue's and the upload's code is a program counter per caller rather than a loop, because its steps interleave.
- Concurrent assert and record calls of the attempt limiter: the bound is for attempts that are checked and recorded one after the other; `clear` is not modelled.
- Facet coverage, content uniqueness and rank metrics of the benchmark.
- How the durable runtime grants and renews run leases, reaps jobs and trims output: whether the lease is held is an input, and `emit` appends to a log.
- The dry-run mode and stop event of the sweep, and its counters.
- Routes, request schemas and settings validation: they reject or convert one request and keep no state.
- Groups, publishing and reasoning preferences. Joining a group by invitation registers an account under the same identity lock; that is the `Signup` event. Sessions of registered accounts are not created by any modelled step.
- NotificationDelivery.PunctualMeansExactlyOnce: counts sends that returned; a sender that raises after the provider took the message is a failed send here, and its retry needs no expired lease.
- AbuseProtector.GuardedAttempts: states the bound for one key without a reset in between, because a reset forgets the log by design.
