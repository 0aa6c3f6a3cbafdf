# Account and agent-workspace protocols, modelled and verified in Dafny

This project models five transactional or algorithmic components of the API service and proves what
they promise over all inputs and all runs:

* the account e-mail outbox and its lease-based dispatchers (`Outbox`, `Dispatcher`, `OutboxProtocol`,
  `OutboxOutcomes`, `DispatchRefinement`, `Templates`),
* account self-service: e-mail changes, TOTP enrolment, device removal and the account policy
  (`EmailChange`, `SelfService`, `EmailChangeRuns`, `EmailChangeSafety`, `EmailChangeCollisions`,
  `EmailChangeAnswers`, `Totp`, `TotpRuns`, `TotpDevices`, `TotpAnswers`, `AccountPolicy`, `PolicyAnswers`),
* wrap-up commands of agents on both paths, V1 and legacy (`Wrapup`, `WrapupRuns`, `WrapupAnswers`, `WrapupNotes`),
* the keyset-paged history of an agent (`History`, `HistoryRows`),
* two codecs: Base32 in wrapping 32-bit words (`Base32`) and HTML escaping (`Templates`).

`Strings` and `Prelude` hold shared helpers.

How to read it. Code that changes state is a class whose methods follow the source statement by
statement; each method's `ensures` equates the new state with a specification function of the old
one. The same functions are the steps of state machines (`World`, `Step`, `Apply`, `Run`), and the
theorems quantify over every sequence of steps. The modules named Answers and Outcomes say of each
operation, without those functions, when it goes through, what it stores and which error it gives
otherwise. A database table is a map or a sequence; a
transaction is one step, except where the source lets another one in between; clock, crashes, SMTP
and the identity server answer as an adversary likes. Hashes are injective constructors, fresh ids
and tokens are inputs guarded by the tables' unique indexes.

What the proofs found out about the code:

* `claim` does not test `maxAttempts`. A claim hands out a value above it exactly when it takes over a
  row that is SENDING with its attempts used up (`ClaimPassesIff`, `AttemptsPassIff`). Absence of
  crashes does not prevent that: one send that outlives its lease is enough
  (`SlowSendPassesMaxAttempts`).
* The header of account-self-service.ts (lines 6-8) says that after a failed commit the identity
  server is ahead until the operation is repeated. For a confirm that holds exactly if the repetition
  comes in time and can itself set the address, for the policy update exactly if it reaches the identity
  server and commits (`RepeatedConfirmRepairsIff`, `RepeatedUpdateRepairsIff`). For a change under the
  IMMEDIATE rule it is false: repeating it is refused as SAME (`RepeatedImmediateIsRefused`). The model
  follows the code. When database and identity server come apart is stated on the inputs of the call
  (`SyncedIff`, `FlagInStepIff`) and over runs.
* One e-mail can be accepted by SMTP twice, but only if the earlier round had lost its lease
  (`AcceptedAgainOnlyAfterLease`).
* The date `changedAt` and the time zone of the options are checked when an e-mail is rendered and not
  when it is enqueued or the dispatcher is made (`UnreadableDateIsAccepted`, `UnknownZoneKillsNotices`);
  `AcceptedRendersIff` gives the exact condition. The self-service code itself never enqueues an
  unreadable date (`NoTemplateDeaths`).
* The check for a taken address may read an old table, and the index behind it compares case: two users
  can end up with one address but for its case (`StaleCheckCollides`, `DistinctThroughoutIff`). One of
  the two has then been stored with a capital letter by other code (`StaleChecksKeepDistinct`).
* Two TOTP confirms that both counted their attempt can each create a credential
  (`RacingConfirmsMayBothCreate`). How many one enrolment can still yield is exactly the number of its
  credentials, waiting confirms and open attempts together (`CredentialsPossibleIff`).
* A device removal that read the policy just before MFA became required can still take the last
  device (`SwitchingOnTooLate`); `LastDevicePossibleIff` shows that this is the only way.
* A legacy submit can be replayed only if the interaction id was typed in lower case
  (`LegacyReplayIff`), and two legacy submits of one interaction both record exactly when both have read
  before either writes (`BothRecordIff`).
* A note may still contain CR LF after normalisation; sending the stored note again then gives another
  payload. That happens exactly for notes with a CR CR LF between other text (`NormaliseTwiceIff`).
* The server rejects its own history cursor when the last interaction's id is not a UUID of versions
  1 to 5 (`CursorRoundTrip`).

## Model

| member | source | states |
|---|---|---|
| Outbox.EnqueueOncePerKey | apps/api/src/account-email.ts:161-195 | a dedupe key never has more than one row, whichever calls are made; a new row leaves all others alone; a known key is never added again |
| Outbox.FirstExists | apps/api/src/account-email.ts:329-336 | the claim order is total: any non-empty set of rows has exactly the first one the query asks for |
| Outbox.BackoffDoubles | apps/api/src/account-email.ts:249-251 | each wait is the double of the one before, cut at the cap, and the waits never fall |
| Outbox.BackoffMonotone | apps/api/src/account-email.ts:249-251 | more failures never mean a shorter wait |
| Outbox.WaitsDouble | apps/api/src/account-email.ts:249-251 | below the cap, k waits add up to base times (2^k - 1) |
| Outbox.WaitsCapped | apps/api/src/account-email.ts:249-251 | k waits never exceed k caps |
| Outbox.DefaultTotalWait | apps/api/src/account-email.ts:240-251 | with the default options the seven retries wait 3810 seconds |
| Dispatcher.Database.EnqueueAccountEmail | apps/api/src/account-email.ts:162-195 | returns the id of the one row that holds the key and whether this call made it; refuses what the input checks refuse |
| Dispatcher.AccountEmailDispatcher.BackoffMs | apps/api/src/account-email.ts:249-251 | the power computed by doubling is the specified backoff for every number of attempts |
| Dispatcher.AccountEmailDispatcher.Claim | apps/api/src/account-email.ts:326-355 | takes the first free due row in claim order, bumps `attempts`, sets the lease; the recipient is there |
| Dispatcher.AccountEmailDispatcher.Finish | apps/api/src/account-email.ts:385-407 | touches only the row that still is SENDING with the job's `attempts`; clears recipient and variables exactly when the row becomes terminal |
| Dispatcher.AccountEmailDispatcher.FinishFailed | apps/api/src/account-email.ts:357-383 | DEAD exactly for a permanent error or the last attempt, otherwise PENDING after the backoff |
| Dispatcher.AccountEmailDispatcher.Deliver | apps/api/src/account-email.ts:294-323 | renders, sends once if that worked, and closes the row by the outcome |
| Dispatcher.AccountEmailDispatcher.DispatchNext | apps/api/src/account-email.ts:290-324 | one whole round changes exactly the first due row, with at most one SMTP call |
| Dispatcher.AccountEmailDispatcher.RowAfterNotDue | apps/api/src/account-email.ts:290-407 | a handled row leaves the due set if and only if a retry waits a positive time |
| Dispatcher.AccountEmailDispatcher.DrainTenant | apps/api/src/account-email.ts:254-262 | with a frozen clock, handles the rows due at the start once each in claim order up to the limit, returns their outcomes, changes no other row |
| Dispatcher.DrainOrderUnique | apps/api/src/account-email.ts:329-336 | the table and the number of rows fix which rows a drain handles and in which order |
| OutboxOutcomes.ClaimTakesIff | apps/api/src/account-email.ts:326-355 | a claim takes a row if and only if it waits and its time has come, or its lease is over, nobody has it locked, and it comes first by time, creation and id; what the claim then stores |
| OutboxOutcomes.RoundMeaning | apps/api/src/account-email.ts:290-383 | what one dispatch leaves of its row and returns: SENT, DEAD for a permanent failure or the last attempt, else PENDING after the backoff with recipient and variables kept; codes of every failure |
| OutboxOutcomes.FinishMeaning | apps/api/src/account-email.ts:357-407 | the same over runs, for the finish of any round that no later claim has overtaken; no other row changes |
| OutboxOutcomes.StatusIff | apps/api/src/account-email.ts:357-407 | over runs, each of the four statuses if and only if: latest round accepted; failed for good; never claimed or failed for now; claimed and not closed |
| OutboxOutcomes.DefaultLimits | apps/api/src/account-email.ts:240-244 | the default limits: eight attempts, a lease of a minute, waits from 30 seconds to an hour |
| OutboxOutcomes.AddedRowIs | apps/api/src/account-email.ts:179-189 | a new row waits from now on, with no attempt made |
| DispatchRefinement.RoundRefines | apps/api/src/account-email.ts:290-407 | an undisturbed round of the protocol changes the table as `DispatchNext` does |
| DispatchRefinement.DrainRefines | apps/api/src/account-email.ts:254-262 | every drain is a run of the protocol, one round per handled row |
| OutboxProtocol.InvRun | apps/api/src/account-email.ts:290-407 | every reachable world keeps the row shape, rising tokens, used tokens and respected leases |
| OutboxProtocol.FencingTokens | apps/api/src/account-email.ts:326-355 | no `(row, attempts)` value is handed to two claims, and every value up to the current one was handed to one |
| OutboxProtocol.FinishAppliesIffLatest | apps/api/src/account-email.ts:385-407 | an answered round's finish changes nothing if and only if a later claim of the row exists |
| OutboxProtocol.OverlapOnlyAfterLease | apps/api/src/account-email.ts:326-355 | a round still running when its row is claimed again had run out of lease by then |
| OutboxProtocol.AcceptedAgainOnlyAfterLease | apps/api/src/account-email.ts:290-407 | after a round whose e-mail may have been accepted, its row is claimed again only when that round's lease was over |
| OutboxProtocol.HeldForTheLease | apps/api/src/account-email.ts:326-336 | a row's latest round, crashed or not, as long as it has not closed the row, keeps it from being due exactly until its lease is over |
| OutboxProtocol.SentMeansDelivered | apps/api/src/account-email.ts:305-323 | SENT is never stored without an accepted SMTP call in the very round that stored it |
| OutboxProtocol.RunEvolves | apps/api/src/account-email.ts:326-407 | SENT and DEAD are absorbing, rows are never lost, attempts never fall |
| OutboxProtocol.OpenRowsCanBeDelivered | apps/api/src/account-email.ts:326-407 | after any run with any crashes, an open row is claimed at once and delivered when the other rows are locked |
| OutboxProtocol.ClaimsReach | apps/api/src/account-email.ts:326-336 | with no row locked, every due row is claimed after at most as many claims as there are due rows |
| OutboxProtocol.OpenRowsAreReached | apps/api/src/account-email.ts:326-407 | after any run with any crashes, an open row is delivered by one of so many claims once it is due |
| OutboxProtocol.AttemptsBoundedRun | apps/api/src/account-email.ts:326-383 | PENDING rows have attempts to spare; attempts never exceed maxAttempts plus takeovers |
| OutboxProtocol.ClaimPassesIff | apps/api/src/account-email.ts:326-355 | after any run, a claim passes maxAttempts if and only if the row is SENDING with attempts at the limit or above |
| OutboxProtocol.AttemptsPassIff | apps/api/src/account-email.ts:326-383 | over any run, attempts are above maxAttempts if and only if a takeover was handed such a value |
| OutboxProtocol.SlowSendPassesMaxAttempts | apps/api/src/account-email.ts:326-355 | a crash-free run in which attempts exceed maxAttempts |
| Templates.EscapeIsSubstitution | apps/api/src/account-email-templates.ts:118-124 | five successive replacements equal one simultaneous substitution per character |
| Templates.EscapedIsInert | apps/api/src/account-email-templates.ts:118-124 | the output has no raw angle bracket or quote, for every string |
| Templates.UnescapeInverts | apps/api/src/account-email-templates.ts:118-124 | unescaping gives the original text back, so nothing is escaped twice |
| Templates.EscapeConcat | apps/api/src/account-email-templates.ts:118-124 | escaping a concatenation is concatenating the escapes |
| Templates.EnqueueAnswers | apps/api/src/account-email.ts:166-178 | when an e-mail is accepted, and the refusals in their order, with the variables each template asks for |
| Templates.RecipientIff | apps/api/src/account-email.ts:173-175 | the recipient check in the form of its regular expression |
| Templates.ZoneMeaning | apps/api/src/account-email-templates.ts:249 | the zone used with and without one in the options |
| Templates.RenderAnswers | apps/api/src/account-email-templates.ts:234-282 | when an e-mail renders, and the failures in their order |
| Templates.AcceptedRendersIff | apps/api/src/account-email-templates.ts:215-282 | what enqueue accepts renders if and only if the console URL is good and, for a notice, the date is readable and the time zone known |
| Templates.UnknownZoneKillsNotices | apps/api/src/account-email-templates.ts:149-157 | with an unknown zone every accepted notice dies, for TEMPLATE_FAILED if its date is good |
| Templates.UnreadableDateIsAccepted | apps/api/src/account-email-templates.ts:149-151 | a notice with an unreadable date passes enqueue and fails at render |
| Strings.LowerMeaning | apps/api/src/account-self-service.ts:84 | lower-casing maps each of the 26 capitals and nothing else |
| Strings.SpaceMeaning | apps/api/src/account-self-service.ts:76 | the code points that trimming takes for white space |
| Strings.TrimShape | apps/api/src/account-self-service.ts:73-81 | trimming gives the piece between two runs of white space, with none at its own ends |
| Strings.TrimmedUnique | apps/api/src/account-self-service.ts:73-81 | there is only one such piece |
| SelfService.AccountSelfService.AssertEmailFree | apps/api/src/account-self-service.ts:475-487 | throws exactly when another user or identity has the address in any case, or the search is down |
| SelfService.AccountSelfService.ApplyEmail | apps/api/src/account-self-service.ts:490-521 | user row, audit, notice, then identity with its own conflict answer; on any throw the identity server is untouched |
| SelfService.AccountSelfService.Admit | apps/api/src/account-self-service.ts:203-210 | the checks common to all rules, in order, first failure wins |
| SelfService.AccountSelfService.InsertChange | apps/api/src/account-self-service.ts:211-246 | cancels, inserts, audits and enqueues, subject to the unique indexes and the template checks |
| SelfService.AccountSelfService.RequestEmailChange | apps/api/src/account-self-service.ts:195-253 | the statements compute the specified new state and answer, roll-backs and failed commits included |
| SelfService.AccountSelfService.ConfirmEmailChange | apps/api/src/account-self-service.ts:255-307 | likewise, including the committed EXPIRED mark |
| SelfService.AccountSelfService.CancelEmailChange | apps/api/src/account-self-service.ts:309-321 | likewise; audits only if something was pending |
| EmailChangeAnswers.AddressIff | apps/api/src/account-self-service.ts:65 | the address check in the form of its regular expression |
| EmailChangeAnswers.AsksIff | apps/api/src/account-self-service.ts:73-87 | which address an input asks for: trimmed, at most 320 characters, no control characters, lower case |
| EmailChangeAnswers.RequestSucceedsIff | apps/api/src/account-self-service.ts:195-253 | per policy, when a request goes through and with which answer; under ADMIN_ONLY never |
| EmailChangeAnswers.RequestRefusals | apps/api/src/account-self-service.ts:203-209 | when a request is invalid, limited, forbidden or the same, in this order; under ADMIN_ONLY nothing changes |
| EmailChangeAnswers.FreeAnswers | apps/api/src/account-self-service.ts:475-487 | each error of the uniqueness check if and only if its condition holds |
| EmailChangeAnswers.ApplyAnswers | apps/api/src/account-self-service.ts:500-520 | each error of the change itself if and only if its condition holds, the identity server's own conflict included |
| EmailChangeAnswers.WaitingStores | apps/api/src/account-self-service.ts:211-246 | what a waiting request stores, for 24 hours, and what becomes of the earlier ones |
| EmailChangeAnswers.ImmediateStores | apps/api/src/account-self-service.ts:211-220 | what an immediate change stores in both places |
| EmailChangeAnswers.CanSetIff | apps/api/src/account-self-service.ts:283-302 | the conditions under which an address can be set, written out |
| EmailChangeAnswers.ConfirmAnswers | apps/api/src/account-self-service.ts:260-274 | the answers to a text that cannot be a token or opens no request |
| EmailChangeAnswers.ConfirmOpened | apps/api/src/account-self-service.ts:275-305 | for the token of a pending request: when it is late, forbidden or confirmed, and what is then stored |
| EmailChangeAnswers.CompletedMeans | apps/api/src/account-self-service.ts:287-290 | closing a request changes its status and time, and no other request |
| EmailChangeAnswers.CancelAnswers | apps/api/src/account-self-service.ts:309-321 | when a cancel goes through, what it closes, and when it is audited |
| EmailChangeRuns.LogInvRun | apps/api/src/account-self-service.ts:195-321 | in every run a request is PENDING exactly when it is its user's latest committed act |
| EmailChangeRuns.OnePendingPerUser | apps/api/src/account-self-service.ts:211-236 | no user ever has two pending requests |
| EmailChangeRuns.ClosedStaysClosed | apps/api/src/account-self-service.ts:195-321 | a closed request never changes again |
| EmailChangeRuns.ConfirmSucceedsIff | apps/api/src/account-self-service.ts:255-307 | a confirm succeeds if and only if its token belongs to the user's latest committed act, a request less than 24 hours old, and the address can be set; then both places hold that address |
| EmailChangeRuns.ConfirmedAtMostOnce | apps/api/src/account-self-service.ts:255-307 | every success answers one request of the same user with nothing in between, and no request is answered twice |
| EmailChangeRuns.AuditsFollowLog | apps/api/src/account-self-service.ts:195-321 | the audit events of a run, with user, action, mode and request, are those of its committed changes, in order, and no others |
| EmailChangeSafety.RefusedRequestLeavesState | apps/api/src/account-self-service.ts:195-253 | a refused request changes no table, and the identity server only if the commit itself failed |
| EmailChangeSafety.RefusedConfirmLeavesState | apps/api/src/account-self-service.ts:255-307 | a refused confirm changes nothing but the EXPIRED mark of a late request |
| EmailChangeSafety.RefusedCancelLeavesState | apps/api/src/account-self-service.ts:309-321 | cancelling never touches the identity server |
| EmailChangeSafety.SyncedIff | apps/api/src/account-self-service.ts:195-307 | database and identity server stay in step if and only if the commit goes through or the inputs are not those of a change that the identity server takes |
| EmailChangeSafety.SyncedThroughoutIff | apps/api/src/account-self-service.ts:446-521 | over any run they agree throughout if and only if no step loses its commit behind such a change |
| EmailChangeSafety.SyncedRun | apps/api/src/account-self-service.ts:446-521 | over runs without failed commits `users.email` is the identity's address throughout |
| EmailChangeSafety.RepeatedConfirmRepairsIff | apps/api/src/account-self-service.ts:255-307 | after such a failure, repeating the confirm restores the agreement if and only if it comes in time and can itself set the address |
| EmailChangeSafety.RepeatedImmediateIsRefused | apps/api/src/account-self-service.ts:208-220 | repeating an immediate change is refused as SAME and they stay apart |
| EmailChangeSafety.CurrentCheckKeepsDistinct | apps/api/src/account-self-service.ts:475-487 | with a current view, addresses stay distinct regardless of case |
| EmailChangeSafety.StaleChecksKeepDistinct | apps/api/src/account-self-service.ts:475-507 | over all runs with arbitrarily stale views, of two addresses alike but for case one has stood there with a capital letter since the start; without capitals at the start all stay distinct |
| EmailChangeCollisions.DistinctStepIff | apps/api/src/account-self-service.ts:475-507 | whatever case is stored, a step keeps addresses distinct if and only if it is no request or confirm that commits, that nothing refuses and whose address somebody else has right then |
| EmailChangeCollisions.DistinctThroughoutIff | apps/api/src/account-self-service.ts:475-507 | over any run addresses are distinct throughout if and only if no step is such a change |
| EmailChangeCollisions.StaleCheckCollides | apps/api/src/account-self-service.ts:475-507 | the family: a stored address that differs from the typed one in case only, and a check that read an older table |
| EmailChangeCollisions.StaleCheckCanCollide | apps/api/src/account-self-service.ts:475-507 | an example with ordinary addresses |
| EmailChangeSafety.OutboxRun | apps/api/src/account-self-service.ts:237-246 | over runs with dispatchers, every open row passes the template checks with a real date, and verify rows match requests |
| EmailChangeSafety.OneVerifyRowPerRequest | apps/api/src/account-self-service.ts:237-246 | a request owns exactly one verify row if it was committed and none otherwise |
| EmailChangeSafety.NoTemplateDeaths | apps/api/src/account-self-service.ts:508-519 | whatever the options, an open row of these operations renders if and only if the console URL is good and, for a notice, the zone is known |
| EmailChangeSafety.NewAddressGetsTheToken | apps/api/src/account-self-service.ts:222-251 | a waiting request queues, to the new address, exactly the token under which the stored request is found, and changes neither user nor identity |
| EmailChangeSafety.OldAddressIsTold | apps/api/src/account-self-service.ts:508-519 | every change of an address queues a notice to the old one, with the new address and the time, by either way |
| AccountPolicy.AccountPolicyService.Update | apps/api/src/account-policy.ts:100-184 | the statements compute the specified new row, audit trail, flag and answer |
| PolicyAnswers.ReadMeaning | apps/api/src/account-policy.ts:73-82 | what is read with and without a row; an unknown rule counts as VERIFY |
| PolicyAnswers.UpdateAnswers | apps/api/src/account-policy.ts:100-177 | Ok and each error if and only if their conditions on the request, the stored row, the port and the commit hold |
| PolicyAnswers.UpdateStores | apps/api/src/account-policy.ts:133-160 | after Ok the fields named have their values, the others the old ones, and a changed MFA value is pushed |
| PolicyAnswers.UpdateRecords | apps/api/src/account-policy.ts:137-172 | a change is one revision and one audit event with its reason; no change writes nothing |
| PolicyAnswers.RefusedUpdateLeaves | apps/api/src/account-policy.ts:125-177 | any other answer leaves row and trail alone |
| AccountPolicy.ChainedRun | apps/api/src/account-policy.ts:73-184 | the revision counts the audit events, which lead from the default to the current policy without no-op links |
| AccountPolicy.AuditsGrow | apps/api/src/account-policy.ts:161-172 | audit events are only ever added |
| AccountPolicy.OneChangePerRevision | apps/api/src/account-policy.ts:126-131 | once an update changed the policy, any later one with the same expected revision conflicts |
| AccountPolicy.FlagInStepIff | apps/api/src/account-policy.ts:173-177 | the identity flag equals the stored one if and only if the commit goes through, the update is refused, or it leaves the flag as it is |
| AccountPolicy.FlagInStepThroughoutIff | apps/api/src/account-policy.ts:125-177 | over any run the flags agree throughout if and only if no update loses its commit behind a pushed flag |
| AccountPolicy.FlagInStepRun | apps/api/src/account-policy.ts:173-177 | the flags agree over every run without failed commits |
| AccountPolicy.RepeatedUpdateRepairsIff | apps/api/src/account-policy.ts:125-177 | repeating the update restores the agreement if and only if it reaches the identity server and commits; then it adds one audit event |
| Totp.TotpService.StartTotpEnrolment | apps/api/src/account-self-service.ts:325-363 | replaces the user's enrolments by a new one and commits; only then is the identity server read, and its failure leaves the enrolment there |
| Totp.TotpService.ConfirmTotpEnrolment | apps/api/src/account-self-service.ts:365-422 | code and label checks, then the three phases with both commits; state, audit event and error of every path |
| Totp.TotpService.RemoveTotpDevice | apps/api/src/account-self-service.ts:424-441 | state, audit event and error of every path, a device unknown to the identity server included; the identity server is asked last |
| TotpAnswers.StartLeaves | apps/api/src/account-self-service.ts:325-363 | answers of a start, and the user's one enrolment for ten minutes |
| TotpAnswers.FormOkIff | apps/api/src/account-self-service.ts:371-375 | six to eight digits and a label of 1 to 64 characters |
| TotpAnswers.ConfirmAnswers | apps/api/src/account-self-service.ts:365-422 | success and each error if and only if their conditions hold; the identity server is asked for the first five attempts only |
| TotpAnswers.ConfirmLeaves | apps/api/src/account-self-service.ts:377-420 | enrolments, devices and audit events after a confirm |
| TotpAnswers.RemoveAnswers | apps/api/src/account-self-service.ts:424-441 | success and each error if and only if their conditions hold |
| TotpAnswers.RemoveLeaves | apps/api/src/account-self-service.ts:424-441 | devices and audit events after a removal |
| Totp.OneLeft | apps/api/src/account-self-service.ts:431-435 | with the device among those counted, at most one means that it is the only one |
| Totp.AccountStepIff | apps/api/src/account-self-service.ts:365-441 | audit trail and devices stay in agreement if and only if no commit is lost behind a change of the devices |
| TotpRuns.InvRun | apps/api/src/account-self-service.ts:325-422 | attempts, confirms and calls of every enrolment add up under any interleaving |
| TotpRuns.AtMostFiveCalls | apps/api/src/account-self-service.ts:388-410 | at most five `createTotp` calls per enrolment, in numbers, and one open enrolment per user |
| TotpRuns.CountedIff | apps/api/src/account-self-service.ts:377-392 | after any run, a confirm is counted if and only if the enrolment is the user's, was begun less than ten minutes before, and fewer than five were counted |
| TotpRuns.StaleFinishSpares | apps/api/src/account-self-service.ts:413-416 | a stale confirm's finish never deletes another enrolment |
| TotpRuns.GoneTakesNoClaims | apps/api/src/account-self-service.ts:377-392 | once deleted, an enrolment never has another attempt counted |
| TotpRuns.CredentialsPossibleIff | apps/api/src/account-self-service.ts:377-422 | after any run, n credentials of one enrolment are possible from a given time on if and only if its credentials, waiting confirms and open attempts are at least n together |
| TotpRuns.RacingConfirmsMayBothCreate | apps/api/src/account-self-service.ts:377-422 | an interleaving in which one enrolment yields two credentials |
| TotpRuns.ConfirmIsRun | apps/api/src/account-self-service.ts:365-422 | the steps of an undisturbed confirm leave the enrolments as the method does |
| TotpDevices.SeenRun | apps/api/src/account-self-service.ts:429-440 | the devices a running removal saw are still there |
| TotpDevices.LastDeviceLostIff | apps/api/src/account-self-service.ts:424-441 | the next move takes the last device if and only if it is the deletion of a removal whose target is the only device; that removal had read that MFA was not required |
| TotpDevices.LastDevicePossibleIff | apps/api/src/account-self-service.ts:424-441 | with MFA required and staying so, the last device can still go, by any continuation, if and only if an approved removal whose target is the only device is under way |
| TotpDevices.RequiredKeepsADevice | apps/api/src/account-self-service.ts:434-436 | while MFA stays required, a user with a device keeps one |
| TotpDevices.SwitchingOnTooLate | apps/api/src/account-self-service.ts:434-439 | requiring MFA between policy read and delete loses the last device |
| TotpDevices.RemovalIsPlayed | apps/api/src/account-self-service.ts:424-441 | the moves of an undisturbed removal do to the devices what the method does |
| Wrapup.WrapupDatabase.SaveAgentWrapup | apps/api/src/agent-wrapup-v1.ts:95-203 | the statements compute the specified tables and answer on every path |
| Wrapup.WrapupDatabase.SubmitWrapup | apps/api/src/agent-workspace-api.ts:268-341 | the statements compute reads and writes of the two legacy steps |
| WrapupAnswers.UuidIff | apps/api/src/agent-wrapup-v1.ts:16-24 | the accepted ids, in the form of a template |
| WrapupAnswers.BodyIsIff | apps/api/src/agent-wrapup-v1.ts:26-50 | the valid bodies, and the disposition, note and command taken from them |
| WrapupAnswers.SaveSucceedsIff | apps/api/src/agent-wrapup-v1.ts:95-198 | after any run, a valid save is answered Ok if and only if the active agent owns the voice interaction and either it is V1, in wrap-up and the command unused, or this very save was made before |
| WrapupAnswers.SaveStores | apps/api/src/agent-wrapup-v1.ts:148-198 | what a first save stores in the five tables, in terms of the body, and its answer |
| WrapupAnswers.SaveRefusals | apps/api/src/agent-wrapup-v1.ts:101-126 | invalid, not an agent, not found, if and only if; no error changes anything, and two of them never occur |
| WrapupAnswers.SaveConflicts | apps/api/src/agent-wrapup-v1.ts:130-147 | each conflict if and only if its condition holds |
| WrapupAnswers.LegacyAnswers | apps/api/src/agent-workspace-api.ts:274-298 | every answer of the legacy reads, and what is then written |
| WrapupAnswers.LegacyStores | apps/api/src/agent-workspace-api.ts:299-338 | what the legacy writes store |
| WrapupAnswers.FirstEventMeaning | apps/api/src/agent-wrapup-v1.ts:213-217 | the completion shown is the earliest by time, then id |
| WrapupAnswers.DetailAnswers | apps/api/src/agent-wrapup-v1.ts:205-212 | when a detail can be read, and the errors |
| WrapupAnswers.LegacyDetailShows | apps/api/src/agent-wrapup-v1.ts:213-231 | what a legacy detail shows, with the time and its source |
| WrapupAnswers.ReuseIff | apps/api/src/agent-wrapup-v1.ts:130-137 | in any state, when a command counts as another one |
| WrapupAnswers.CommandAnswers | apps/api/src/agent-wrapup-v1.ts:235-258 | when a command can be read, and the errors |
| WrapupRuns.InvRun | apps/api/src/agent-wrapup-v1.ts:116-198 | the agreement of the tables in every world mixing both paths, racing legacy submits and outside changes that the triggers allow |
| WrapupRuns.FiveTablesAgree | apps/api/src/agent-wrapup-v1.ts:148-196 | a V1 interaction is COMPLETED iff one result, one event and one V1 receipt tell of the same command and disposition; a LEGACY one has no result and no V1 receipt |
| WrapupRuns.OneOfEachPerCommit | apps/api/src/agent-workspace-api.ts:308-338 | on both paths the k-th event, the k-th state log row and the receipt of its command name one actor, interaction and disposition; no two events share a command; the three tables are equally long |
| WrapupRuns.RecordsKept | apps/api/src/agent-wrapup-v1.ts:148-196 | results, receipts and events never change or go away |
| WrapupRuns.SaveLasts | apps/api/src/agent-wrapup-v1.ts:95-203 | what a successful save recorded is there after any further run |
| WrapupRuns.ReplayReturnsSameResult | apps/api/src/agent-wrapup-v1.ts:127-141 | the same command and payload returns the identical result and changes nothing, whatever came between |
| WrapupRuns.ReusedCommandIsRefused | apps/api/src/agent-wrapup-v1.ts:130-139 | the same id with another payload, resource or actor fails without effect |
| WrapupRuns.ReusedCommandIsRefusedByLegacy | apps/api/src/agent-workspace-api.ts:277-288 | so does the same id on the legacy path |
| WrapupRuns.OneCommandPerInteraction | apps/api/src/agent-wrapup-v1.ts:142-147 | a second command for a saved interaction is refused for good |
| WrapupRuns.CommandReadAgrees | apps/api/src/agent-wrapup-v1.ts:235-258 | a command read shows the committed result without its note, under the command that made it |
| WrapupRuns.LegacyReplayIff | apps/api/src/agent-workspace-api.ts:276-290 | replaying a legacy submit works if and only if the id was typed in lower case |
| WrapupRuns.LegacyUndisturbedCompletes | apps/api/src/agent-workspace-api.ts:291-338 | an undisturbed legacy submit completes with its disposition, and no other one gets through after it |
| WrapupRuns.LegacyRecordsIff | apps/api/src/agent-workspace-api.ts:299-338 | after any run, a legacy submit that has read records its event and receipt if and only if its command has no receipt by then, whatever has become of the interaction |
| WrapupRuns.BothRecordIff | apps/api/src/agent-workspace-api.ts:275-340 | in any world, of two legacy submits of one interaction, in any order and at any times, both record if and only if both have read before either writes; the disposition of the first writer stays |
| WrapupNotes.NormaliseTwiceIff | apps/api/src/agent-wrapup-v1.ts:45 | normalising again changes the payload if and only if the note typed has a CR CR LF with other text before and after it |
| WrapupNotes.NormaliseLeavesCrLf | apps/api/src/agent-wrapup-v1.ts:45 | a family of notes that change twice |
| WrapupNotes.UnixLinesConcat | apps/api/src/agent-wrapup-v1.ts:45 | one pass treats two texts separately unless a CR LF lies across the seam |
| WrapupNotes.CrLfOrigin | apps/api/src/agent-wrapup-v1.ts:45 | a CR LF in the result of a pass stands where a CR CR LF stood |
| History.LessOrder | apps/api/src/agent-history.ts:96-97 | the row comparison of (time, id) is a strict total order |
| History.SortedMeaning | apps/api/src/agent-history.ts:96-97 | the sorted listing holds each row once, descending |
| History.SortedUnique | apps/api/src/agent-history.ts:96-97 | there is only one such listing |
| History.PageMeaning | apps/api/src/agent-history.ts:58-120 | a page is the newest rows below the cursor up to the limit; its cursor is null exactly when nothing is left |
| History.FinishedWalkIsComplete | apps/api/src/agent-history.ts:41-121 | a finished walk is strictly descending, has every row that was there at every call and only rows that were there at some call, whatever was inserted or removed in between and with any limits |
| History.StaticWalkIsSlice | apps/api/src/agent-history.ts:41-121 | on a fixed table the pages are consecutive slices of the sorted listing |
| History.StaticWalkTerminates | apps/api/src/agent-history.ts:41-121 | and the walk ends with the whole listing after at most one call per row, plus one |
| History.CursorRoundTrip | apps/api/src/agent-history.ts:15-39 | for the decoded object of a cursor: it is read back as its key by its own user and rejected for anyone else, if and only if the id is a UUID of versions 1 to 5 |
| History.LimitFrom | apps/api/src/agent-history.ts:47-53 | an accepted limit is between 1 and 100 |
| History.LimitIsDecimal | apps/api/src/agent-history.ts:47-53 | accepted are the usual spellings of 1 to 100, each for its number; 20 without a limit |
| History.LimitSpelledOnce | apps/api/src/agent-history.ts:47-53 | every limit has exactly one accepted spelling |
| HistoryRows.ListMatchesDetail | apps/api/src/agent-history.ts:71-95 | in every reachable state the list has exactly the interactions whose detail read succeeds, with equal disposition, time, source and legacy flag |
| HistoryRows.SavedRowLasts | apps/api/src/agent-history.ts:71-95 | a saved interaction stays listed at the same key with the same content over every later run |
| HistoryRows.HistoryAnswers | apps/api/src/agent-history.ts:41-60 | when the list can be read, and the errors: limit, cursor, agent |
| HistoryRows.ReplyShows | apps/api/src/agent-history.ts:96-120 | the newest listed rows below the cursor up to the limit, each with its content, and a cursor for the last if and only if more are left |
| HistoryRows.ReplyIsPage | apps/api/src/agent-history.ts:98-120 | the rows and the cursor of a reply are those of the page of listed keys |
| HistoryRows.ClientFollowsWalk | apps/api/src/agent-history.ts:41-121 | with valid limits and ids no call of a client that follows cursors fails, and it walks the pages |
| HistoryRows.SavedIsSeenOnce | apps/api/src/agent-history.ts:41-121 | such a client sees every interaction saved before it began exactly once, while the system runs on |
| Base32.AlphabetTable | apps/api/src/account-identity.ts:244 | the alphabet string holds each symbol once, at its value |
| Base32.LookupGivesValue | apps/api/src/account-api.boundary.ts:82-87 | `indexOf` in the alphabet string gives a symbol's value, and -1 for any other character |
| Base32.Encode | apps/api/src/account-identity.ts:247-261 | for every input the output is the big-endian 5-bit regrouping of section 6 of RFC 4648 without padding, of ceil(8n/5) symbols, although the 32-bit word wraps |
| Base32.Decode | apps/api/src/account-api.boundary.ts:81-93 | for every text: the bytes are the whole octets of the symbols' bit stream, in which a character outside the alphabet sets all bits not yet written |
| Base32.DecodingInvertsEncoding | apps/api/src/account-api.boundary.ts:81-93 | whatever is a decoding of an encoding is the original byte sequence |
| Base32.DecodingUnique | apps/api/src/account-api.boundary.ts:81-93 | that fixes the bytes |
| Base32.EncodingUnique | apps/api/src/account-identity.ts:247-261 | a byte sequence has one encoding |
| Base32.RoundTrip | apps/api/src/account-identity.ts:247-261 | running the decoder on the encoder's output returns the bytes given |
| Base32.WrapKeepsLowBits | apps/api/src/account-identity.ts:252 | dropping bits above the 32nd never touches the bits still to be written |

## Left out

- SMTP, Keycloak, HTTP controllers, logging and timers: reduced to succeeds, fails for now, fails for good.
- `drainAll`, `start`, `stop`: the `draining` flag and the loop over tenants; one tenant is modelled throughout.
- Dispatchers with unequal options: all dispatchers of a run share lease, limits and backoff.
- Rate limiter, work-session leases, click-to-call and SIP credentials: the limiter's answer is an input, the rest is not part of this model.
- AES-GCM, SHA-256, random numbers: hashes are injective, secrets are absent, fresh values are inputs.
- Rendering: message texts, layout, `maskEmail`, URL building and date formatting; only which step refuses what is modelled.
- `updateProfile`, `changePassword`, the account view: same saga as an e-mail change with fewer cases.
- Whether a TOTP code fits the secret and whether a label is in use: an answer of the identity server stands for both.
- `updatedBy`, correlation ids and actor names in audit rows.
- Transaction isolation: a transaction is one atomic step; the exceptions are the stale uniqueness check of an e-mail change, the phases of a TOTP confirm, the reads of a device removal, and the legacy submit.
- Row-level security and tenant columns: every model is one tenant.
- Receipts of agent commands other than the two wrap-ups, and deletion of interactions.
- `startedAt` and `answered_at` of a history row; channels other than voice enter only as not listed.
- History.CursorRoundTrip: base64url, JSON, its key set, the ISO form of the date and the length limit are not modelled; a text decodes to an object of the five fields or is garbage.
- Letters beyond ASCII in case folding, and LIKE wildcards in the case-insensitive search.
- The surrogate check of a note: characters here are whole code points.
- Table scans `SELECT ... WHERE` are set or map comprehensions instead of loops, as in the source.
- Dispatcher.AccountEmailDispatcher.DrainTenant: assumes positive backoff options and a clock that stands still; without them a row can come due again within the drain.
- SelfService.AccountSelfService.ConfirmEmailChange: assumes the unique index on token hashes, which every run keeps.
- OutboxProtocol.AttemptsBoundedRun: assumes a positive maxAttempts, as ClaimPassesIff and AttemptsPassIff do; with none allowed the first claim is above it.
- OutboxProtocol.ClaimsReach: assumes a positive lease; with none the first due row is claimed again and again.
- TotpRuns.CredentialsPossibleIff: times are bounded from below and need not be those of one clock; the run that yields the credentials needs no more than a clock that stands still.
- HistoryRows.SavedIsSeenOnce: stated for V1 interactions; the time of a legacy row can change with a racing submit.
- HistoryRows.ClientFollowsWalk: assumes ids of UUID versions 1 to 5, without which the server rejects its own cursor.
