# ScanPal: protocols and codecs

ScanPal scans web sites for a team, keeps the books of the credits that costs, and tells
other systems about the results. Most of its logic is small protocols over Postgres rows:
a row lock, a lease, an idempotency key, a compare-and-set. This project models those
protocols, and the hand-written byte and text algorithms beside them, and proves what
they are for. `dafny verify dfyconfig.toml` checks all of it.

How things are modelled:

- A single statement, or a transaction that locks the rows it decides on, with
  `for update` or by writing them first, is one atomic step on maps of rows; `skip locked`
  makes rows locked by another round invisible to a selection. A transaction that selects without a lock is
  two steps, its select and its writes, because another one may commit in between: the
  Stripe handlers are modelled so. Beyond that the model relies on row locks being held
  from the first write to the commit, and on a unique index making a second insert of the
  same key wait for the end of the first transaction. A run is a list of steps in any
  order that the steps' guards allow.
- Where the source changes rows in place there is a class whose methods follow its
  statements (`Deliverer`, `CreditStore`, `ScanStore`, `BillingStore`, `OwnershipStore`,
  `Limiter`, `RunRoot`, `Pool`). Each method is proved equal to the step function that the
  protocol proofs are about.
- Network answers, the clock, DNS, fresh tokens, the order in which awaited calls settle,
  crashes and which row an unordered `limit 1` returns are parameters or choices of the
  run, so every theorem holds for all of them.
- JavaScript numbers are unbounded integers that the bitwise operators first reduce to 32
  bits and read back as signed, as ECMAScript defines them (`JsNumber`).

| files | what they are about |
|---|---|
| `WebhookDb`, `WebhookDeliverer`, `OutboxProtocol` | the webhook outbox: leases, retries, overlapping poll rounds |
| `Subscriptions`, `Credits` | credits spent and refunded, with a ledger and period resets |
| `ScanLifecycle`, `ScanEffects`, `ScanRuns`, `ScanStore` | scans created, scheduled, started, canceled and finished |
| `StripeEvents`, `StripeRuns` | Stripe events delivered at least once, by transactions that overlap |
| `Ownership` | DNS ownership checks racing with token rotation |
| `RateLimit` | the fixed-window limiter over one Redis key |
| `BoundedMap` | the map with bounded concurrency |
| `Checkpoints`, `Decimal` | the context checkpoint tool and its validator, under crashes |
| `JsNumber`, `Fips180`, `Primes`, `Sha256Constants`, `Sha256` | SHA-256 in JavaScript numbers against FIPS 180-4 |
| `Rfc4648`, `Base32`, `Base64Url` | the two hand-written codecs against RFC 4648 |
| `Incidents` | the incident query as a relational pipeline |
| `ScanDiff` | the diff between scans and the clean snapshot it is taken against |
| `FixPrompt` | the scan prompt within its token budget, and the evidence fence |
| `Robots` | robots.txt read, printed and applied |

## Where the code falls short of what it promises

Each of these is a proved statement about the code as it is.

- Mutual exclusion in the outbox rests on one hypothesis, that a claimed row is finished
  within the lease; it is exactly what is needed (`OutboxProtocol.ExclusionNeedsTheLease`),
  and a run from any initial state with a due delivery breaks it
  (`OutboxProtocol.OverrunIsReachable`).
  The sizing comment (50 rows of 10 seconds) leaves out redirects, so it does not give it.
- A scan canceled between the dispatcher's read and its unguarded write of `running` is
  revived although it is refunded, and can overlap a second scan
  (`ScanRuns.CancelUndoneByDispatcher`, `ScanRuns.RevivedScanOverlaps`); both states are
  reached from the empty database (`ScanRuns.CancelRaceIsReachable`,
  `ScanRuns.RevivedOverlapIsReachable`). The race guard documented on `finishScan` covers only
  that function.
- The onboarding route creates a scan without looking for one in progress
  (`ScanRuns.OnboardIsSafeIffIdle`, reached in `ScanRuns.OnboardOverlapIsReachable`).
- A Stripe team whose stored period end has passed starts a new period with every spend
  until Stripe reports a new one (`Credits.StaleStripePeriodIsUnlimited`;
  `Credits.StripeGrants` has the exact number over any stretch of time).
- When Stripe deletes a subscription the team keeps its used credits and loses its period
  end, so the free plan it falls back to is never renewed
  (`StripeEvents.DeletedTeamIsNeverRenewed`).
- The deletion of an old subscription erases a newer one of the same team when the new
  checkout commits between the deletion's select, which takes no lock, and its update,
  which names only the team (`StripeRuns.LateDeletionErasesNewSubscription`, a run from
  the empty table; neither serial order of the two events does that). The comment that a
  late deletion cannot do so holds exactly when the row selected does not hold another
  subscription as it is written (`StripeEvents.DeletionSparesOthersIff`).
  Which overlaps leave the tables of serial processing is said exactly by
  `StripeRuns.AlwaysSerialIffNoHarm`; a stale answer alone is no failure
  (`StripeRuns.StaleAnswerCanBeHarmless`).
- A change event of an old subscription takes over the row of a newer one of the same
  customer, without any overlap, because changes also match by customer
  (`StripeRuns.OldChangeTakesOver`); the exact condition is
  `StripeEvents.ChangeSparesOthersIff`.
- A limiter caller that dies between INCR and EXPIRE leaves a key that never expires
  (`RateLimit.OrphanedByDeath`, `RateLimit.OrphanBlocksForever`, reached in
  `RateLimit.OrphanIsReachable`).
- A checkpoint that crashes before `state.json` is written, followed by a rehydration,
  leaves a state that the validator rejects (`Checkpoints.CrashThenRehydrateIsRejected`);
  `Checkpoints.CrashRunsAreValidIffNoLapse` says which runs with crashes it accepts.
- A scan prompt can exceed its budget when the header alone is too long
  (`FixPrompt.BudgetIffHeaderFits`).
- `robotsRulesForAgent` documents prefix matching of agent names; the code matches when
  either name contains the other, and the model follows the code. They differ on a
  two-line robots.txt (`Robots.ContainmentIsNotPrefix`). They choose the same agent line
  exactly when no other match beats the longest prefix
  (`Robots.DocumentedIffNoLongerMatch`), and apply the same group exactly when every
  match in another group that is no prefix is beaten by some match in the documented group
  (`Robots.CodedAgainstDocumented`).

## Model

| member | source | states |
|---|---|---|
| WebhookDb.BackoffsGrow | packages/notify/src/webhook-deliverer.ts:57 | Backoffs are at least a minute, at most two hours and never shrink with the attempt number. |
| WebhookDb.DeliverOneProgress | packages/notify/src/webhook-deliverer.ts:260-439 | A completed delivery of an open row ends it or uses up one attempt below the maximum and makes it due no sooner than a minute later; no other row changes. |
| WebhookDb.TestRowsNeverEnd | packages/notify/src/webhook-deliverer.ts:400-424 | A failing test delivery is open again at once, however often it has failed. |
| WebhookDeliverer.DeliveryIsExact | packages/notify/src/webhook-deliverer.ts:280-439 | Whatever is answered: 2xx ends the row as ok; a refused URL or redirect, a payload that is too large and 400, 401, 403, 404 and 410 end it as rejected; everything else leaves it failed and due in 1, 5, 30 or 120 minutes by its attempt, or disabled at the maximum. The outcome says the same. |
| WebhookDeliverer.HookIsExact | packages/notify/src/webhook-deliverer.ts:231-439 | Its webhook has its failures cleared by ok, is left by a rejection and by a test, and otherwise counts one failure and is switched off when the row is disabled; no other row or webhook changes. |
| WebhookDeliverer.NothingIsSent | packages/notify/src/webhook-deliverer.ts:260-278 | A delivery that is over or has no webhook changes nothing and reports its status; with its webhook switched off an open one becomes disabled. |
| WebhookDeliverer.RetryIsVisibleFrom | packages/notify/src/webhook-deliverer.ts:427-471 | A poll round sees a failed delivery exactly from the end of its backoff on, unless another round has locked it. |
| WebhookDeliverer.ClaimHides | packages/notify/src/webhook-deliverer.ts:461-488 | A claim hides exactly its rows, for exactly fifteen minutes. |
| WebhookDeliverer.Deliverer.HandleFailure | packages/notify/src/webhook-deliverer.ts:394-439 | For every retryable answer the statements run are those of the retry plan, and the outcome is `disabled` exactly for a non-test row at its last attempt. |
| WebhookDeliverer.Deliverer.DeliverOne | packages/notify/src/webhook-deliverer.ts:260-391 | The early exits and branches leave the rows and webhooks of one delivery step and report its outcome, for every answer of the world. |
| WebhookDeliverer.Deliverer.SelectDue | packages/notify/src/webhook-deliverer.ts:464-471 | The rows selected are due, unlocked and distinct, oldest first; a visible row is omitted only when fifty rows at least as old are taken. |
| WebhookDeliverer.Deliverer.ClaimDue | packages/notify/src/webhook-deliverer.ts:459-488 | The claim leases exactly the selected rows until the end of the lease. |
| WebhookDeliverer.Deliverer.DeliverDue | packages/notify/src/webhook-deliverer.ts:442-500 | A round claims, then delivers every claimed row in order, and its counters are the tally of their outcomes. |
| WebhookDeliverer.RoundSettles | packages/notify/src/webhook-deliverer.ts:442-500 | After an undisturbed round every claimed open row is closed or has used exactly one attempt and backs off; unclaimed rows are untouched. |
| WebhookDeliverer.TallyAddsUp | packages/notify/src/webhook-deliverer.ts:490-497 | Every claimed row is counted once, under exactly one of the four outcomes. |
| WebhookDeliverer.TallyCountsOutcomes | packages/notify/src/webhook-deliverer.ts:490-497 | Each counter of a round is the number of deliveries with its own outcome. |
| WebhookDeliverer.HookAfter | packages/notify/src/webhook-deliverer.ts:231-439 | A success clears the failures of the webhook, a retryable failure adds one and at the last attempt switches it off, a rejection leaves it. |
| OutboxProtocol.StepKeeps | packages/notify/src/webhook-deliverer.ts:260-500 | Every step of overlapping rounds, crashes, test deliveries and outside changes keeps mutual exclusion, leases, fitting plans, attempt bounds and the account of requests sent. |
| OutboxProtocol.NoDoubleDelivery | packages/notify/src/webhook-deliverer.ts:451-488 | In no run whose claims happen while live rounds are within their lease do two rounds process one non-test delivery. |
| OutboxProtocol.PostsBounded | packages/notify/src/webhook-deliverer.ts:280-439 | Requests sent for a delivery number at most the maximum attempts plus those lost in crashes, before their answer or before it was written; an open delivery has attempts left. |
| OutboxProtocol.ClosedForever | packages/notify/src/webhook-deliverer.ts:268-278 | ok, rejected and disabled are final: over any run such a row is never written again. |
| OutboxProtocol.AttemptsCountUp | packages/notify/src/webhook-deliverer.ts:280-391 | `attempts` has no lost update: the write of an attempt's result adds exactly one to the row as it is then, and every other step leaves it. |
| OutboxProtocol.ExclusionNeedsTheLease | packages/notify/src/webhook-deliverer.ts:67 | Claims keep mutual exclusion whatever is due if and only if every live round is within its lease. |
| OutboxProtocol.OverrunIsReachable | packages/notify/src/webhook-deliverer.ts:61-67 | From any initial state with a due delivery a run leads to a claim that gives the delivery two owners, when the first round outlives its lease. |
| OutboxProtocol.CrashedDeliveryReturns | packages/notify/src/webhook-deliverer.ts:61-67 | After a crash a claimed row is due again exactly when the lease ends. |
| OutboxProtocol.UninterruptedIsDeliverOne | packages/notify/src/webhook-deliverer.ts:260-391 | Read, send and write steps without interference are the delivery that the class runs. |
| OutboxProtocol.AnswersFollowRequests | packages/notify/src/webhook-deliverer.ts:282-337 | A refused URL, an unreadable secret and a payload that is too large are settled without a request; every other result follows one. |
| OutboxProtocol.DeletionCascades | packages/db/migrations/011_webhooks.sql:36 | The deletion of a webhook takes exactly its deliveries away. |
| Credits.CreditStore.EnsureSubscriptionRow | packages/scan-core/src/credits.ts:106-116 | A missing row becomes a free one with thirty days; an existing row is kept. |
| Credits.CreditStore.Spend | packages/scan-core/src/credits.ts:128-182 | Row, reset, guarded increment and ledger entry together are the spend step, including what an error leaves behind. |
| Credits.SpendIsExact | packages/scan-core/src/credits.ts:128-182 | A spend is granted exactly to an active, trialing or past-due team with fewer credits used than the 5, 500 or 2000 of its plan, none counting once the period end has passed; it then books one entry, and a refusal books none. |
| Credits.FirstSpendIsExact | packages/scan-core/src/credits.ts:106-182 | A team without a row gets a free one with thirty days and spends the first of its credits. |
| Credits.NewRowIs | packages/scan-core/src/credits.ts:106-116 | The row inserted is free, active and unused, with thirty days; an existing row is kept. |
| Credits.CanceledGetsNothing | packages/scan-core/src/credits.ts:143-145 | A canceled subscription is granted nothing over any sequence of spends. |
| ScanRuns.CanceledIsNeverCharged | packages/scan-core/src/credits.ts:143-145 | No run without a Stripe event for the team books a credit spent by a team whose subscription is canceled. |
| Credits.CreditStore.Refund | packages/scan-core/src/credits.ts:191-221 | A refund happens exactly when the scan is charged to the team and not refunded yet, and then lowers the counter (not below zero) and books it. |
| Credits.RefundIsExact | packages/scan-core/src/credits.ts:191-221 | With a charge of the scan to the team and no refund of it, one credit is given back (not below zero) and booked; otherwise nothing happens. |
| Credits.SpendKeepsBooks | apps/scheduler/src/credits.ts:31-83 | A spend keeps the ledger orderly and the counter conserved since the last reset (both copies of the code are this step). |
| Credits.RefundKeepsBooks | packages/scan-core/src/credits.ts:191-221 | A refund keeps the ledger orderly (one per charge, after it) and the counter conserved. |
| Credits.NetCoversOutstanding | packages/scan-core/src/credits.ts:195-216 | When every refund matches a charge, the net is at least the number of charges not refunded; so the clamp at zero does not fire. |
| Credits.ResetsApart | packages/scan-core/src/credits.ts:147-158 | For a team without Stripe, within its plan, a spend keeps it there, and a reset comes more than thirty days after the previous one. |
| Credits.GrantsWhatIsLeft | packages/scan-core/src/credits.ts:160-169 | Inside a period exactly what is left of the plan is granted. |
| Credits.StaleStripePeriodIsUnlimited | packages/scan-core/src/credits.ts:147-158 | With a stale Stripe period end every spend of any sequence is granted. |
| Credits.StripeGrants | packages/scan-core/src/credits.ts:147-169 | Of spends at ascending times a Stripe team is granted what is left of its plan for those within the period, and all of those after it. |
| ScanLifecycle.StepKeeps | apps/web/lib/scans-core.ts:89-231 | Every step keeps one active scan per site, the ledger entries of every scan, the status copy on the site and the conservation of credits. |
| ScanLifecycle.CreateKeeps | apps/web/lib/scans-core.ts:97-166 | The same for the creation of a manual or deploy scan. |
| ScanLifecycle.ScheduleKeeps | apps/scheduler/src/core.ts:89-140 | The same for a due site, whose credit error is caught after the row is written. |
| ScanLifecycle.CancelKeeps | apps/web/lib/scans-core.ts:175-231 | The same for a cancellation with its refund. |
| ScanLifecycle.FinishKeeps | packages/scan-core/src/finish-scan.ts:40-116 | The same for a finish, which leaves canceled scans alone. |
| ScanLifecycle.StartKeeps | packages/scan-core/src/progress.ts:85-98 | The same for the start of a queued or running scan. |
| ScanEffects.CreateIsExact | apps/web/lib/scans-core.ts:97-166 | A scan is created, queued, with its trigger and named on its site, exactly for a site of the team without a queued or running scan when the credit is granted; the error says which failed first. |
| ScanEffects.ScheduleIsExact | apps/scheduler/src/core.ts:86-140 | A due site gets its next time, and a scheduled scan exactly when none is queued or running and the credit is granted. |
| ScanEffects.OnboardIsExact | apps/web/app/api/onboarding/sites/route.ts:45-73 | A granted credit gives the site, added if it is new, a queued scan; a refused one leaves everything. |
| ScanEffects.CancelIsExact | apps/web/lib/scans-core.ts:175-231 | Exactly a queued or running scan of a site of the team becomes canceled, on the site too, and is refunded; nothing else changes. |
| ScanEffects.FinishIsExact | packages/scan-core/src/finish-scan.ts:48-116 | A scan that is not canceled gets the outcome it is given, on the site too, and nothing else changes; a canceled one stays. |
| ScanEffects.StartIsExact | packages/scan-core/src/progress.ts:85-98 | The start writes running to the scan, whatever its status, and nothing else. |
| ScanRuns.OneScanPerSite | apps/web/lib/scans-core.ts:110-132 | Over every run a site has at most one queued or running scan. |
| ScanRuns.CanceledForever | packages/scan-core/src/finish-scan.ts:56-62 | Over every run a canceled scan stays as it is. |
| ScanRuns.StatusIsLastWritten | packages/scan-core/src/finish-scan.ts:48-104 | Over every run a scan is completed or failed exactly when a finish took effect, by the outcome of the last one, and canceled exactly when a cancellation took effect. |
| ScanRuns.ChargedOnceRefundedIffCanceled | packages/scan-core/src/credits.ts:171-220 | Over every run a manual or deploy scan has exactly one charge and exactly one refund if canceled, none otherwise; a scheduled scan has no entry. |
| ScanRuns.CreditsConserved | packages/scan-core/src/credits.ts:128-221 | Since the last reset `credits_used` is at least the net of the ledger and at most the number of spends, and equals the net when every refund matches a spend of the period. |
| ScanRuns.NetWithinPlan | packages/scan-core/src/credits.ts:128-221 | For a team no Stripe event touches, the net of a period never exceeds the credits of its plan, and the plan stays; its row may come from its sign-up or from its first spend. |
| Credits.EnsureOpensPeriod | apps/web/lib/team-core.ts:119-123 | The row inserted for a new team opens a period of thirty days from then; for a team that has a row nothing changes. |
| ScanRuns.StartIsSafeIffActive | apps/worker/src/queues/dispatcher.ts:52-66 | The unguarded start keeps the invariants and closed scans closed if and only if the scan is still queued or running. |
| ScanRuns.OnboardIsSafeIffIdle | apps/web/app/api/onboarding/sites/route.ts:45-73 | The onboarding scan keeps one active scan per site if and only if the site has none. |
| ScanRuns.CancelUndoneByDispatcher | apps/worker/src/queues/dispatcher.ts:52-66 | A queued scan canceled before the dispatcher's write is running afterwards and refunded. |
| ScanRuns.RevivedScanOverlaps | packages/scan-core/src/progress.ts:85-98 | If the team starts another scan in between, the site has two active scans. |
| ScanRuns.RevivedOverlapIsReachable | apps/worker/src/queues/dispatcher.ts:52-66 | A run from the empty database ends where the dispatcher's write gives a site two active scans. |
| ScanRuns.OnboardOverlapIsReachable | apps/web/app/api/onboarding/sites/route.ts:45-73 | A run from the empty database ends where an onboarding scan joins an active one. |
| ScanRuns.CancelRaceIsReachable | apps/worker/src/queues/dispatcher.ts:52-66 | The state in which that race can happen is reached from the empty database. |
| ScanStore.ScanStore.CreateManualScan | apps/web/lib/scans-core.ts:89-166 | The statements are the creation step, and every error leaves all rows as they were. |
| ScanStore.ScanStore.CancelScan | apps/web/lib/scans-core.ts:175-231 | The statements are the cancellation step with its two error cases. |
| ScanStore.ScanStore.FinishScan | packages/scan-core/src/finish-scan.ts:40-116 | The statements are the finish step: missing, canceled and overwritten scans. |
| ScanStore.ScanStore.WriteProgressSkeleton | packages/scan-core/src/progress.ts:85-98 | An existing scan becomes running whatever its status. |
| ScanStore.ScanStore.SelectDueSites | apps/scheduler/src/core.ts:78-85 | The sites selected are due, unlocked and distinct, earliest first; an unlocked due site is omitted only when fifty sites due at least as early are taken. |
| ScanStore.ScanStore.ProcessDueSites | apps/scheduler/src/core.ts:56-148 | The batch is the fold of the scheduling step over the selected sites, and the lists it returns are those of that fold. |
| ScanStore.RoundQueues | apps/scheduler/src/core.ts:121-140 | The scans of a round are new, queued, scheduled and one per started site; existing scans are untouched. |
| ScanStore.RoundCounts | apps/scheduler/src/core.ts:85-140 | Started and skipped sites add up to at most the due sites, and each started one has a scan. |
| ScanStore.RoundReports | apps/scheduler/src/core.ts:89-140 | Each due site is reported as started or as skipped by what its credit decided at its turn, and as neither when it is busy then. |
| ScanStore.PostponedIsDueAgain | apps/scheduler/src/core.ts:78-96 | After its turn a site is selected again from its next time on, unless it is never scanned or locked. |
| ScanStore.RoundPostpones | apps/scheduler/src/core.ts:92-138 | Every due site gets its next time whether it overlapped, had no credit or started; no other site changes. |
| ScanStore.BatchKeeps | apps/scheduler/src/core.ts:75-148 | The batch transaction keeps the invariants of the lifecycle. |
| StripeRuns.EffectivelyOnce | apps/web/lib/billing-core.ts:60-108 | Under repeated, failed and overlapping deliveries the table is that of writing the first success of every event once, in commit order and with no duplicate check. |
| StripeRuns.AlwaysSerialIffNoHarm | apps/web/lib/billing-core.ts:60-231 | At every moment of a run the table is that of processing the acknowledged events one by one in commit order, each selecting anew on the table it writes, if and only if every answer that is written would still be selected then or changes nothing where a new answer would change nothing either. |
| StripeEvents.StaleAgreesIff | apps/web/lib/billing-core.ts:154-231 | An answer that is no longer one of the table, when it is written, leaves the table a new answer would leave if and only if neither changes anything. |
| StripeRuns.StaleAnswerCanBeHarmless | apps/web/lib/billing-core.ts:154-168 | A run from the empty table in which a change that selected nothing commits after the checkout of its subscription, with a stale answer and yet the serial table at every moment. |
| StripeRuns.EveryDeliveryIsAnswered | apps/web/lib/billing-core.ts:65-84 | An event of no interest is ignored, a recorded one is a duplicate, and any other is processed, unless a delivery of it is in progress. |
| StripeRuns.SeenIsAcknowledged | apps/web/lib/billing-core.ts:73-82 | An event is recorded if and only if one of its deliveries was acknowledged. |
| StripeRuns.UniqueKept | packages/db/migrations/003_billing.sql:16-20 | Customer and subscription ids stay unique over every run. |
| StripeRuns.LateDeletionErasesNewSubscription | apps/web/lib/billing-core.ts:149-188 | A run from the empty table, with ids as Stripe sends them, in which a deletion erases the subscription of a checkout that commits after its select; it is not serial, and in both serial orders of the two events that subscription stays. |
| StripeEvents.DeletionSparesOthersIff | apps/web/lib/billing-core.ts:170-188 | A deletion leaves every row with another subscription unchanged if and only if the row it selected does not hold another subscription when it is written. |
| StripeEvents.DeletionIsPrecise | apps/web/lib/billing-core.ts:149-188 | On the table it selected from, a deletion resets exactly the row with that subscription id to a clean free plan, keeping customer and credits used; every other row is unchanged. |
| StripeEvents.DeletedTeamIsNeverRenewed | apps/web/lib/billing-core.ts:170-188 | After the update of a deletion exactly five credits less those already used are granted to the team, at whatever times it spends. |
| StripeEvents.EventsKeepCredits | apps/web/lib/billing-core.ts:110-231 | No write of an event, whatever it had selected, touches `credits_used` of an existing row or more than one team: it is a billing step of the credit books. |
| StripeRuns.OldChangeTakesOver | apps/web/lib/billing-core.ts:154-213 | A run from the empty table, without overlap, in which a change of an old subscription replaces the newer one on the row of its customer. |
| StripeEvents.ChangeSparesOthersIff | apps/web/lib/billing-core.ts:154-231 | A change that is written leaves the subscription of every row with another one alone if and only if it has no subscription id or the row it selected does not hold another subscription; it leaves those rows alone altogether if and only if the row it selected holds no other one or shows every value the change carries already. |
| StripeEvents.ChangeFailsIffTaken | apps/web/lib/billing-core.ts:198-213 | A change fails if and only if another row than the one selected has its subscription or its customer when it is written, whatever the table was at the select. |
| StripeEvents.ChangeFailsIffSplit | apps/web/lib/billing-core.ts:154-213 | On the table it selected from, a change event fails if and only if its subscription is on one row and its customer on another. |
| StripeEvents.CheckoutFailsIffTaken | apps/web/lib/billing-core.ts:110-139 | A checkout fails if and only if another team's row has its subscription or its customer. |
| StripeEvents.CheckoutIsExact | apps/web/lib/billing-core.ts:110-139 | The row of the team has the paid plan (Pro by default), is active and has the subscription, and takes customer and period end over when the event carries them; the other columns stay, or are those of a new row, and no other row changes. |
| StripeEvents.NothingToCheckOut | apps/web/lib/billing-core.ts:114-115 | Without a team or a subscription nothing is written. |
| StripeEvents.ChangeIsExact | apps/web/lib/billing-core.ts:190-231 | The row selected has the mapped status and every value the event carries, times in milliseconds; nothing else changes. |
| StripeEvents.ChangeFindsItsRow | apps/web/lib/billing-core.ts:154-168 | A change selects a row with its subscription or its customer if there is one, and otherwise writes nothing. |
| StripeRuns.OwnedRunsAlwaysWrite | apps/web/lib/billing-core.ts:60-231 | When every subscription has one customer, named in its events, and checkouts are paid by customers of their own team, no run from the empty table, however its deliveries overlap, loses an event to a unique index. |
| StripeRuns.SplitNeedsOneMissingCustomer | apps/web/lib/billing-core.ts:110-139 | One checkout without its customer is enough for a table on which a change event fails. |
| StripeEvents.ChoiceIsIrrelevant | apps/web/lib/billing-core.ts:154-163 | While what was selected still matches, the unordered `limit 1` never changes the result. |
| StripeEvents.StaleChoiceMatters | apps/web/lib/billing-core.ts:154-213 | Once the row selected by its subscription has lost it, that choice fails where the row of the customer is written. |
| StripeRuns.BillingStore.BeginEvent | apps/web/lib/billing-core.ts:60-86 | Unsupported and recorded events end at once; others are opened with the team they select, and nothing is written. |
| StripeRuns.BillingStore.FinishEvent | apps/web/lib/billing-core.ts:86-108 | The handler writes to the table as it then is, and commit or rollback leaves one step of the runs with its outcome. |
| Ownership.VerifiedMeansMatched | packages/scan-core/src/ownership.ts:107-220 | However checks and rotations interleave, a verified site's current token value was found by a lookup of its DNS. |
| Ownership.RotationNeedsNewLookup | packages/scan-core/src/ownership.ts:107-127 | After a rotation to a token that no lookup has found, no check in flight verifies it: the site needs a new lookup that finds the token. |
| Ownership.OwnershipStore.RecordOwnershipCheck | packages/scan-core/src/ownership.ts:190-220 | The update takes effect exactly when team and token still match, and says so. |
| Ownership.OwnershipStore.CheckOwnershipLive | packages/scan-core/src/ownership.ts:129-181 | Verified exactly when a token and record name exist and the lookup finds the token read. |
| Ownership.OwnershipStore.RotateOwnershipToken | packages/scan-core/src/ownership.ts:107-127 | A rotation replaces the token and clears the verification in one statement. |
| Ownership.OwnershipStore.EnsureOwnershipToken | packages/scan-core/src/ownership.ts:87-105 | An existing token is kept, a missing one is set. |
| Ownership.CheckVerifiesIffFound | apps/web/app/api/sites/[id]/verify-ownership/route.ts:64-95 | A check that nothing interrupts leaves the site verified now, by DNS, when the lookup finds its token, and unverified when not. |
| Ownership.VerifiedIsReachable | packages/scan-core/src/ownership.ts:87-220 | A site added to the empty store is verified after a token and a check that finds it. |
| Ownership.WritesAreExact | packages/scan-core/src/ownership.ts:87-220 | Only a site of the team is written: a missing token is set, a rotation replaces it and forgets the verification, and the result of a check is stored exactly when its token is still there. |
| Ownership.LooksUpCurrentToken | packages/scan-core/src/ownership.ts:129-181 | The lookup is for the token the site has now, and is made exactly when there is one and a name to look under. |
| RateLimit.LimitPerLifetime | apps/web/lib/rate-limit.ts:17-32 | At most the limit of calls is admitted in one lifetime of the key, with any callers stalling or dying. |
| RateLimit.FirstCallsAreAdmitted | apps/web/lib/rate-limit.ts:18-33 | And not fewer: over every run exactly the first calls of a lifetime, up to the limit, are admitted. |
| RateLimit.TwiceLimitPerWindow | apps/worker/src/rate-limit.ts:14-30 | At most twice the limit is admitted in any half-open interval as long as the window. |
| RateLimit.OrphanedByDeath | apps/web/lib/rate-limit.ts:22-26 | A key loses its expiry exactly when its creating caller dies between INCR and EXPIRE. |
| RateLimit.OrphanIsReachable | apps/web/lib/rate-limit.ts:22-26 | From an empty store a call that dies after its INCR leaves such a key. |
| RateLimit.OrphanBlocksForever | apps/web/lib/rate-limit.ts:22-30 | Such a key lives for ever and admits only what was left of the limit. |
| RateLimit.Limiter.CheckRateLimit | apps/web/lib/rate-limit.ts:17-32 | One call counts, sets the expiry on the first hit, admits up to the limit, else reports at least one second to wait; other keys are untouched. |
| RateLimit.UninterruptedIsTheCall | apps/worker/src/rate-limit.ts:14-30 | The steps of one caller without interference have the effect of that call. |
| RateLimit.LifetimeIsWindow | apps/web/lib/rate-limit.ts:23-33 | A key given its expiry at once lives for exactly one window, during which its time to live is what is left, and then the count starts again. |
| BoundedMap.WorkerCount | apps/worker/src/concurrency.ts:13-29 | The number of workers is the floor of a concurrency of at least one, capped by the items; one for anything less and for NaN, all items for infinity. |
| BoundedMap.OncePerIndexWithinLimit | apps/worker/src/concurrency.ts:17-24 | For every schedule `fn` is called once per index in order and never more often at once than the limit. |
| BoundedMap.InFlightCounts | apps/worker/src/concurrency.ts:17-24 | The calls in flight are those a worker waits for. |
| BoundedMap.ResultsInOrder | apps/worker/src/concurrency.ts:14-31 | When all workers have stopped each result is at its own index, unless a call threw, which is when a worker rejects. |
| BoundedMap.SchedulesEnd | apps/worker/src/concurrency.ts:17-30 | Every schedule is bounded by a decreasing measure and can stop only when all workers have stopped. |
| BoundedMap.Pool.Take | apps/worker/src/concurrency.ts:18-22 | A worker takes the shared next index, or stops at the end. |
| BoundedMap.Pool.Settle | apps/worker/src/concurrency.ts:22-23 | A settled call fills its own slot of the results array and nothing else. |
| Checkpoints.NextNameIsFree | DeepSeekAndDestroy/tools/context_checkpoint.py:130-138 | The exclusive mkdir can only meet a plain file, whatever the directory holds. |
| Checkpoints.NumbersAreNotReused | DeepSeekAndDestroy/tools/context_checkpoint.py:198-200 | Over every run with crashes a new checkpoint's number exceeds all earlier ones. |
| Checkpoints.RunIsCrashSafe | DeepSeekAndDestroy/tools/context_checkpoint.py:182-300 | With crashes between any two writes LATEST is absent, empty or names a checkpoint whose manifest and CHECKPOINT.md exist, and no existing checkpoint changes. |
| Checkpoints.CrashFreeRunsAreValid | DeepSeekAndDestroy/tools/check_state.py:113-128 | Without crashes every state the commands write passes the validator's checkpoint rules. |
| Checkpoints.CrashRunsAreValidIffNoLapse | DeepSeekAndDestroy/tools/check_state.py:113-128 | Over runs from a fresh run root with any crashes, the validator accepts every state if and only if no rehydration finds a checkpoint on disk while state.json records none, and no resume is verified against a checkpoint without its CHECKPOINT.md. |
| Checkpoints.StepIsSaneIffNoLapse | DeepSeekAndDestroy/tools/context_checkpoint.py:173-369 | From a state that records nothing or a complete checkpoint, every step with any crash leaves such a state, except exactly those two, which are rejected at once. |
| Checkpoints.CrashThenRehydrateIsRejected | DeepSeekAndDestroy/tools/context_checkpoint.py:282-300 | A first checkpoint that crashes before the state is written, then a rehydration, is rejected. |
| Checkpoints.ResumeIsValidIffTextExists | DeepSeekAndDestroy/tools/context_checkpoint.py:346-369 | A verified resume leaves a valid state if and only if the checkpoint has its CHECKPOINT.md. |
| Checkpoints.PreparedIsResumable | DeepSeekAndDestroy/tools/context_checkpoint.py:173-369 | A completely prepared checkpoint is resumed, after any steps and crashes that leave LATEST as it is, exactly when neither run id nor plan id was edited since and no other number is asked for; the state is then resumed, verified and valid, and otherwise unchanged. |
| Checkpoints.HookRunsKeepLatest | DeepSeekAndDestroy/tools/context_checkpoint.py:173-420 | LATEST stays over every run, with crashes, whose prepares and pre-compact hooks find a checkpoint to use again. |
| Checkpoints.CycleEndsInResume | DeepSeekAndDestroy/tools/context_checkpoint.py:409-420 | Pre-compact, post-compact and rehydrate after a prepare end with its checkpoint required, and a resume succeeds for its number or none and for no other. |
| Checkpoints.PreCompactReuses | DeepSeekAndDestroy/tools/context_checkpoint.py:183-197 | A prepared checkpoint is used again, and the hook before a compaction only marks it. |
| Checkpoints.FirstCrashLeaves | DeepSeekAndDestroy/tools/context_checkpoint.py:303-312 | After a crash of the very first prepare its checkpoint is found as soon as its directory is there, but not while LATEST is empty. |
| Checkpoints.RunRoot.FindLatestSequence | DeepSeekAndDestroy/tools/context_checkpoint.py:130-138 | The loop finds the largest number among the numbered directories, or 0. |
| Checkpoints.RunRoot.LatestOnDisk | DeepSeekAndDestroy/tools/context_checkpoint.py:303-312 | LATEST if it is there and a positive number, else the largest directory, else an error. |
| Checkpoints.RunRoot.PrepareCheckpoint | DeepSeekAndDestroy/tools/context_checkpoint.py:173-300 | The writes, in order, are those that crashes cut short; a checkpoint still prepared is used again; the number returned is the next one or that of the checkpoint used again. |
| Checkpoints.RunRoot.PreCompactHook | DeepSeekAndDestroy/tools/context_checkpoint.py:409-412 | The hook prepares and then marks the state compacting, or blocks. |
| Checkpoints.RunRoot.PostCompactHook | DeepSeekAndDestroy/tools/context_checkpoint.py:413-420 | The hook requires rehydration of the latest checkpoint and records its number. |
| Checkpoints.RunRoot.RehydrateText | DeepSeekAndDestroy/tools/context_checkpoint.py:324-343 | Only the status changes, and only when there is a checkpoint. |
| Checkpoints.RunRoot.VerifyResumed | DeepSeekAndDestroy/tools/context_checkpoint.py:346-375 | Succeeds exactly when number and identities agree, and then records the resume. |
| Decimal.ParsePad4 | DeepSeekAndDestroy/tools/context_checkpoint.py:168-170 | Reading a zero-padded directory name gives its number back. |
| Decimal.Pad4Length | DeepSeekAndDestroy/tools/context_checkpoint.py:168-170 | The name has four characters exactly for numbers below 10000 and is then unpadded. |
| Sha256.Sha256Hex | packages/shared/src/diff.ts:43-108 | For every byte string below the int32 length limit the result is the hexadecimal SHA-256 digest, with signed intermediates, exact sums and one reused schedule array. |
| Sha256.HexDigitIs | packages/shared/src/diff.ts:34-36 | The sixteen digits are those of `toString(16)`. |
| Sha256.PadMessage | packages/shared/src/diff.ts:44-51 | The padded bytes are the padding of section 5.1.1 of FIPS 180-4. |
| Sha256.FillSchedule | packages/shared/src/diff.ts:62-71 | The schedule is that of section 6.2.2, whatever the array held before. |
| Sha256.RunRounds | packages/shared/src/diff.ts:73-95 | The sixty-four rounds are those of section 6.2.2. |
| Sha256.WordOfRotr | packages/shared/src/diff.ts:30-32 | The rotation in signed 32-bit arithmetic is the rotation of the standard. |
| Sha256.DigestIsSha256 | packages/shared/src/diff.ts:16-60 | The tables of the source make the digest that of the standard. |
| Sha256Constants.TableIsRoundConstants | packages/shared/src/diff.ts:16-28 | The round constants are the fractional parts of the cube roots of the first 64 primes. |
| Sha256Constants.TableIsInitialValues | packages/shared/src/diff.ts:53-60 | The initial values are the fractional parts of the square roots of the first 8 primes. |
| Primes.PrimesInOrder | packages/shared/src/diff.ts:16-28 | The table of primes behind the constants begins at 2, ascends, and holds a number up to its last one if and only if that is prime. |
| Fips180.DigestUnique | packages/shared/src/diff.ts:43-108 | The specification determines one digest per message. |
| Fips180.PadLengthIsLeast | packages/shared/src/diff.ts:45 | The zero bits of the specified padding are the fewest that let the length end a block (section 5.1.1). |
| Base32Encoder.EncodeBase32 | packages/scan-core/src/ownership.ts:43-57 | For byte strings of any length the result is the unpadded base32 of section 6 of RFC 4648, although the accumulator wraps at 32 bits. |
| Rfc4648.Base32 | packages/scan-core/src/ownership.ts:43-57 | The encoding has length ceil(8n/5). |
| Rfc4648.Base32Injective | packages/scan-core/src/ownership.ts:43-57 | No two byte strings share an encoding. |
| Rfc4648.SymbolIsTable2 | packages/shared/src/browser-storage.ts:23-42 | The alphabet is that of table 2 of section 5. |
| Base32Encoder.AlphabetIsTable3 | packages/scan-core/src/ownership.ts:43-57 | The alphabet is that of table 3 of section 6. |
| Base64UrlDecoder.DecodeBase64Url | packages/shared/src/bundle-secrets.ts:154-173 | The loop computes the decoding although its accumulator overflows 32 bits. |
| Base64UrlDecoder.BuildTable | packages/shared/src/bundle-secrets.ts:155-159 | The table gives every character of the alphabet its value and nothing else. |
| Base64UrlDecoder.DecodeUndoesEncode | packages/shared/src/browser-storage.ts:23-42 | Decoding undoes the unpadded encoding of section 5 of RFC 4648 for byte strings of any length (this copy has the same statements as the other). |
| Base64UrlDecoder.DecodeSkipsNoise | packages/shared/src/bundle-secrets.ts:163-168 | Characters outside the alphabet other than `=` do not change the result. |
| Base64UrlDecoder.DecodeStopsAtPadding | packages/shared/src/bundle-secrets.ts:163-168 | Nothing after the first `=` is read. |
| Incidents.RowsAreRuns | apps/web/lib/public-status-core.ts:138-170 | Every row of the result describes a maximal run of down events, rows are newest first and at most fifty, and only the newest can be open. |
| Incidents.RunsAreRows | apps/web/lib/public-status-core.ts:138-170 | Every maximal run is a row, or fifty newer runs are. |
| Incidents.IncidentDescribesRun | apps/web/lib/public-status-core.ts:151-167 | Start is the first event of the run, end the very next event after it, and the error one of its own. |
| Incidents.EachDownInOneRun | apps/web/lib/public-status-core.ts:137-150 | Every down event is in exactly one maximal run. |
| Incidents.GroupIsRun | apps/web/lib/public-status-core.ts:145-150 | The down events of one cumulative-sum group are exactly the events of one maximal run. |
| ScanDiff.ComputeScanDiff | packages/shared/src/diff.ts:251-302 | Every count and list is that of the findings, by fingerprint, status, activity and snooze. |
| ScanDiff.DiffIsUnique | packages/shared/src/diff.ts:251-302 | That contract determines the diff. |
| ScanDiff.TagIsExact | packages/shared/src/diff.ts:262-290 | New is a finding whose fingerprint the snapshot lacks, regressed an open one whose last counterpart there was fixed or ignored, same every other; findings of active tests count as none. |
| ScanDiff.SnoozeEnds | packages/shared/src/diff.ts:131-139 | A snooze until a time ends at that time, and one until the next scan mutes this one. |
| ScanDiff.CountersAreNamed | packages/shared/src/diff.ts:269-289 | Each severity is counted by its own counter. |
| ScanDiff.DiffAddsUp | packages/shared/src/diff.ts:251-302 | Per severity new, regressed and unchanged add up to the counted findings; id lists agree with the totals and alerts stay within the counts. |
| ScanDiff.ResolvedMirrorsNew | packages/shared/src/diff.ts:240-302 | Without active findings, resolved from b to a is new from a to b. |
| ScanDiff.IsCleanScan | packages/shared/src/diff.ts:148-159 | Clean exactly with a score of at least 80 or no open critical or high finding that is counted. |
| ScanDiff.FindCleanSnapshot | packages/scan-core/src/scan-diff.ts:18-41 | The newest clean scan among the newest twenty, skipping those that do not parse. |
| ScanDiff.ComputeAndWriteScanDiff | packages/scan-core/src/scan-diff.ts:53-74 | The stored findings are the full rewrite, also on the fast path, and one scan consumes every `next-scan` snooze; findings that do not parse are returned unchanged, without a diff. |
| ScanDiff.FastPath | packages/scan-core/src/scan-diff.ts:63-69 | The fast path returns what the rewrite would; the rewrite is the identity exactly when no snooze ends and every flag is set. |
| FixPrompt.BuildScanFixPrompt | packages/shared/src/fix-prompt.ts:359-426 | The prompt is the header, the longest prefix of blocks that fits, the note on what is omitted and the requirements. |
| FixPrompt.CoversTheWorst | packages/shared/src/fix-prompt.ts:363-369 | The findings covered are the first of the open findings, each as often as it occurs, in order; nothing omitted outranks them, and `truncated` says whether any is. |
| FixPrompt.SortIsStable | packages/shared/src/fix-prompt.ts:363-369 | Findings of one severity and equal titles keep the order in which they were found. |
| FixPrompt.CoversTheMost | packages/shared/src/fix-prompt.ts:402-415 | No longer prefix of the findings fits. |
| FixPrompt.WithinBudget | packages/shared/src/fix-prompt.ts:398-426 | With a header of at most 1380 tokens, of four characters each, the prompt is at most 1500, unless the omitted count has 228 digits. |
| FixPrompt.BudgetIffHeaderFits | packages/shared/src/fix-prompt.ts:398-426 | For lists as long as an array can be, the budget holds if and only if the header leaves the headroom or fits together with the footer. |
| FixPrompt.FenceIsShortestSafe | packages/shared/src/fix-prompt.ts:217-225 | The fence does not occur in the sanitized evidence, and every shorter one of at least three backticks does. |
| FixPrompt.FenceClosesAtTheEnd | packages/shared/src/fix-prompt.ts:346-349 | After the opening fence the next fence is the closing one, whatever the evidence. |
| FixPrompt.SanitizeIsExact | packages/shared/src/fix-prompt.ts:216-218 | Exactly the control characters other than tab, line feed and carriage return are taken out. |
| FixPrompt.SanitizeKeepsOrder | packages/shared/src/fix-prompt.ts:216-218 | A text without them stays as it is. |
| Robots.ParseRobotsGroups | packages/shared/src/aeo-engine-matrix.ts:173-220 | The loop with its pending agents reads the groups and sitemaps of the text. |
| Robots.LineIsExact | packages/shared/src/aeo-engine-matrix.ts:184-216 | A line is a field name in any case and a value, with blanks and a comment left out, however it is written. |
| Robots.NoColonNoField | packages/shared/src/aeo-engine-matrix.ts:184-187 | A line without a colon before its comment says nothing. |
| Robots.LowerIsExact | packages/shared/src/aeo-engine-matrix.ts:188-201 | Latin capitals become small and all other characters stay. |
| Robots.SpaceIsExact | packages/shared/src/aeo-engine-matrix.ts:184-189 | The blanks trimmed are the white space and line terminators of ECMAScript. |
| Robots.LineEndsAreExact | packages/shared/src/aeo-engine-matrix.ts:182 | Lines end with a line feed, with or without a carriage return before it. |
| Robots.SitemapsAreExact | packages/shared/src/aeo-engine-matrix.ts:204-207 | The sitemaps are the non-empty values of the sitemap lines, in order, in whatever group they stand. |
| Robots.ParsePrintIff | packages/shared/src/aeo-engine-matrix.ts:173-220 | Printed groups are read back if and only if they are groups some text has: clean values, agents in all but the first, rules in all but the last. |
| Robots.PrintPreservesMeaning | packages/shared/src/aeo-engine-matrix.ts:173-220 | Printing the groups of any robots.txt gives a robots.txt with the same groups. |
| Robots.RobotsRulesForAgent | packages/shared/src/aeo-engine-matrix.ts:228-262 | The rules are those of the group with the longest matching agent line (the first of equals), else of the first star group, else none. |
| Robots.OwnNameMatches | packages/shared/src/aeo-engine-matrix.ts:222-250 | An agent matches a line with its own name by the code and by its comment. |
| Robots.DocumentedIffNoLongerMatch | packages/shared/src/aeo-engine-matrix.ts:222-250 | The agent line chosen is the documented one if and only if every line that matches without being a prefix is shorter than the longest prefix, or as long and later (none at all when there is no prefix). |
| Robots.CodedAgainstDocumented | packages/shared/src/aeo-engine-matrix.ts:222-254 | For every list of groups and agent the code and its comment choose the same group, or both none, if and only if every match in another group that is no prefix is shorter than some match in the documented group, or as long and later; star and empty cases included. |
| Robots.MiddleMatchDiffers | packages/shared/src/aeo-engine-matrix.ts:222-250 | A single agent line inside the name but not at its start gives the agent rules the documentation does not. |
| Robots.ContainmentIsNotPrefix | packages/shared/src/aeo-engine-matrix.ts:222-250 | A concrete robots.txt on which the code and its comment choose differently. |
| Robots.IsPathAllowed | packages/shared/src/aeo-engine-matrix.ts:275-298 | Allowed exactly with an empty disallow or a longest matching allow at least as long as the longest matching disallow (section 2.2.2 of RFC 9309). |
| Robots.EmptyNeverMatches | packages/shared/src/aeo-engine-matrix.ts:260-262 | An empty pattern matches no path. |
| Robots.OrderIsIrrelevant | packages/shared/src/aeo-engine-matrix.ts:275-298 | Only which rules there are matters, not their order or repetition. |

## Left out

- Web pages, routes, middleware, environment parsing and migrations are not modelled.
- The network, DNS resolution, TLS, Stripe, mail and cryptography are outcomes of a step; signatures and secrets are opaque.
- Redirects and payload enrichment of a webhook request are folded into the outcome of the send.
- `http_status`, `error`, `delivered_at` and `last_delivery_at` of webhook rows are not modelled; no decision reads them.
- Deletion of teams, sites and scans, and with it the ledger rows whose scan id becomes null, is not part of the lifecycle runs.
- Workspace filters are not modelled; every operation is scoped by team.
- Findings, scores and notifications that `finishScan` and the scheduler also write are not part of the lifecycle.
- `computeNextScanAt` and the carry-over of finding statuses are not part of this model; next scan times are arbitrary.
- `now()` of the database and the clock of the process are one clock within a transaction.
- Aliasing between the rows of a query result and later updates is not modelled; results are values.
- Sha256.Sha256Hex: the input is the byte string; the UTF-8 encoding of the text is not modelled, and lengths from 2^31 - 72 bytes on, where the padding length leaves int32, are excluded.
- RateLimit.Limiter.CheckRateLimit: time to live is in whole seconds, and eviction or restart of Redis is not modelled.
- Checkpoints.RunIsCrashSafe: a write of LATEST is seen as absent, empty or complete, other files as absent or complete; two commands at once are not modelled, nor are the snapshot copies and the text of CHECKPOINT.md.
- Ownership.OwnershipStore.CheckOwnershipLive: whether the TXT records match the token is an input, because the normalisation of record text has no state.
- StripeRuns.AlwaysSerialIffNoHarm: compares with the order of the commits; runs whose tables are those of another order of the same events count as not serial.
- Incidents.IncidentDescribesRun: for events at distinct times; among several errors of a run the aggregate's order is unspecified in SQL, and the model takes the earliest.
- ScanDiff.ComputeScanDiff: fingerprints are given; two findings with one fingerprint are one to the diff, as in the code.
- FixPrompt.BuildScanFixPrompt: the text of a block and of the header is given, and title comparison is any total preorder. A character stands for one UTF-16 code unit.
- Robots.ParseRobotsGroups: lower-casing outside ASCII is not modelled.
- Robots.IsPathAllowed: how a non-empty pattern matches a path is left open, because the code translates it to a regular expression of its own.
- Secret extraction, HTML heuristics, check catalogues, schemas and severity tables are lookups and add only easy members.
- The uptime bars and percentages of the public status page and the domain watchtower are not modelled.
