# Verified model of the platform's protocols

This project models the stateful protocols of the platform and proves what they promise: the event
pipeline from transactional outbox to rollups and search index, the escrow and payment ledger,
refresh-token rotation with reuse detection, the offline screenshot upload, the gateway's token
bucket, activity scoring, and the contract state machine. `dafny verify dfyconfig.toml` checks
everything; there are no assumptions beyond the ones listed here.

## How it is built

Each service appears in up to three forms.

- A **class** whose methods change tables, queues and logs in place, statement by statement, and roll
  back where the source does (`EscrowService`, `PaymentService`, `AuthService`, `ContractService`,
  `AnalyticsService`, `RelayService`, `Consumer`, `RateLimiter.Limiter`, `Screenshots.Store`,
  `Tracker.LocalStore`, `Timesheets.Store`, `Ledger.Transactions`; the loops of `Activity` and `Signals`).
- The **atomic operation** each method is proved equal to, as a function on committed states
  (`EscrowModel`, `PaymentModel`, `AuthModel`, `ContractModel`, `Rollups`, …), with the invariants of
  whole runs.
- Where concurrency matters, a **state machine** whose steps are single statements, commits, crashes,
  lost replies and redeliveries (`EscrowConcurrency`, `PaymentConcurrency`, `AuthConcurrency`,
  `Delivery`, `Ingestion`, `SearchIndex`, `Screenshots` with `UploadQueue`). `Reaches(s, steps)` says that a state is
  reached by steps each of which is enabled when it is taken; theorems about runs take it as their
  only hypothesis, unless they name another. `MachineLinks` shows that the machines of the pipeline
  have a run for every outcome of the classes' methods, as the commit lemmas do for the services;
  `JointLedger` interleaves the statements of escrow and payment over one ledger.

The modules whose names end in `Laws`, and `SearchRouting`, say what single calls answer and do, in
terms of the rows before them and their own arguments.

What the model takes as given:

- PostgreSQL: a statement reads committed data, row locks and unique keys make a conflicting statement
  wait, a rollback or crash undoes every write of the transaction. Unique indexes and CHECK constraints
  are those of `db/migrations`.
- Ids minted by the database are positions in the tables; event ids come from the outbox's own
  identity column and may become visible in any order.
- Kafka keeps the order of messages of one topic and key, may deliver any message again at any time,
  and a publish that returned an error may still be written, at once or later. The state machines of
  the consumers run over the bus as it is at the end: a consumer that reads while messages are being
  appended only ever sees a prefix of it, so its runs are among those considered.
- One consumer at a time works on a lane of the search index. A handler that is still running when its
  lane has been given to another consumer, and writes after it, is not modelled; `Ingestion` allows any
  number of workers.
- Redis and the gateways share one clock; the limiter's arithmetic and the activity scores are over
  reals. Cents are unbounded integers; Go's integer division truncates.
- Cryptography is symbolic in `Screenshots` (a ciphertext opens under exactly what it was sealed
  with) and any lawful authenticated encryption in `Envelope` (section 2 of RFC 5116).
- Refresh-token rotation follows the scheme of section 4.14.2 of RFC 9700; a denied request is
  answered as in section 4 of RFC 6585 with the Retry-After of section 10.2.3 of RFC 9110.

## What came out of it

Where a promise does not hold as one might read it, the project proves exactly when it does.

- **Ledger kinds.** Funding debits account kind `escrow` and credits `escrow_contract`; releases and
  refunds debit `escrow` again and never `escrow_contract`. So neither kind alone is the money in
  escrow: only their sum is (`JointLedger.MoneyIsConserved`), and per escrow the legs that carry its
  reference sum to `held_cents`. The comment in `FundEscrow` says that the net credit to kind `escrow`
  from a deposit stays at its amount; the debit of the hold marker brings it to zero.
- **Order per key** is kept in every run exactly if no relay runs, or no key has two rows, or a single
  relay runs and the rows of each key became visible in id order (`DeliveryOrder.OrderIsExact`). One
  replica alone, which the comment on the relay asks for, is not enough: `LateRowsCanSwap`.
- **Index convergence** needs the deduplication check to succeed as well as the mark. If either may
  fail, a document is certain to end as its highest row leaves it exactly if all its rows leave it
  alike; if a handler may give up, exactly if none of its rows puts it
  (`SearchConvergence.ConvergenceIsExact`). So a closed project can come back by one of these faults
  alone, and `OneKindRevives` gives the relay run and the consumer run.
- **Reuse detection** stops a family when its revocation commits. `Refresh` reports the reuse even if
  the revocation or its commit fails, and then nothing is stopped
  (`AuthConcurrency.ReportWithoutCommitStopsNothing`).
- **Logging out of all sessions** revokes the token's family; but every session is given a family of
  its own, so in every reachable state it does what logging out of one session does
  (`AuthConcurrency.LogoutReachesOneSession`).
- **Every upload eventually leaves the queue** is false, in two ways. If the acceptance is lost after
  the server has stored the row, every later confirm is refused; and if the tracker stops between
  marking a row confirmed and deleting it, no attempt picks it again. A queued row can still leave
  exactly if its evidence is not stored yet, or the acceptance is at hand, or the deletion is the next
  step (`UploadQueue.RowLeavesExactly`); both ways of staying happen to any capture
  (`LostAcceptanceRemains`, `CrashForgets`), and the blob stays with the row. The evidence itself is
  never lost once it is queued.
- **The rate limit** shared by the auth and the general bucket is bounded by the larger capacity and
  the larger rate if and only if no policy lets the key expire before the larger bucket could have
  refilled (`RateLimiter.WindowBoundIsExact`); policies with one window, as the gateway configures
  them, qualify unless they refill by less than 0.0001 tokens a second. Expiry is invisible under the
  same kind of condition, again exactly. A clock that goes backwards adds what flows in while it makes
  up the lost time, and no more (`WindowBoundWithDrift`); that much it can add (`BackwardClockMints`).
- **Denied requests are invisible** on a shared key if and only if all its policies refill at one rate
  (`RateLimiterLaws.DeniedIsInvisibleExactly`): a refill is credited at the rate of the policy that
  asks. With one window and two capacities, as the gateway has them, a denied request of one bucket
  can change a decision of the other (`SharedWindowIsNoticed`).
- In `sync.rs` the comment says that a row beyond the retry limit is left for manual sync; the code
  leaves its `next_attempt` in the past, so it is tried again at every tick. The model allows any
  number of attempts.

## Model

| member | source | states |
|---|---|---|
| Ledger.TotalPair | services/escrow/internal/store/store.go:284-303 | appending a debit and a credit changes every balance query by exactly the legs it matches |
| Ledger.FiltersSelect | services/escrow/internal/store/store.go:284-303 | which rows each balance query selects, by kind, currency, reference, group and payment |
| Ledger.Transactions.WriteLegs | services/escrow/internal/store/store.go:284-303 | a group of legs is appended in full if it sums to zero, otherwise nothing is written |
| EscrowBooks.ApplyKeepsInv | services/escrow/internal/service/service.go:37-365 | every operation, successful or refused, keeps solvency, unique allocations, ledger agreement and one payment per target |
| EscrowBooks.EveryRunKeepsTheBooks | services/escrow/internal/service/service.go:77-351 | after any run: held allocations fit in held_cents, released_cents is the sum of released allocations, the legs naming an escrow sum to held_cents, its escrow_contract legs to held+released+refunded, in each currency freelancer_balance and refunds equal the totals released and refunded, every group is balanced |
| EscrowBooks.DriftGuardNeverFires | services/escrow/internal/service/service.go:192-214 | after any run a milestone release is refused only if the escrow or a held allocation is missing, never by the drift guard, and pays the allocated amount |
| EscrowBooks.RefundsNeverTouchReservations | services/escrow/internal/service/service.go:307-329 | after any run a refund succeeds exactly when refund and reservations together fit in what the ledger holds for the escrow |
| EscrowBooks.StatusAfterMovement | services/escrow/internal/service/service.go:212-403 | after any run, which status a release, a refund and a funding leave, in terms of what is still held |
| EscrowLaws.FundingCredits | services/escrow/internal/service/service.go:37-108 | a positive amount under an unused key raises held_cents of the contract's account, and the ledger sum under its id, by exactly that amount, with these legs and this event; a new account has the given currency or USD; nothing else changes |
| EscrowLaws.AllocationReserves | services/escrow/internal/service/service.go:114-167 | each answer's condition; a reservation has the amount asked for, is made once per milestone and only out of what is held and not reserved |
| EscrowLaws.MilestoneReleasePays | services/escrow/internal/service/service.go:179-231 | each answer's condition; the milestone's held allocation is paid in its own amount, with these legs and this event |
| EscrowLaws.WeekReleasePays | services/escrow/internal/service/service.go:235-303 | each answer's condition; a week is paid once, in the amount asked for, with these legs and this event |
| EscrowLaws.RefundReturns | services/escrow/internal/service/service.go:307-365 | each answer's condition; the amount asked for is given back, with these legs and this event |
| EscrowLaws.DepositsAreFundings | services/escrow/internal/service/service.go:62-108 | over any run, held, released and refunded cents of a contract's account together are the sum of the fundings that count: positive, and without a key used for the contract before |
| EscrowLaws.RefundsAreGranted | services/escrow/internal/service/service.go:307-365 | over any run, refunded cents of an account are the sum of the refunds that were granted |
| EscrowLaws.AllocationsAreAskedFor | services/escrow/internal/service/service.go:114-303 | over any run, each allocation has the target and the amount that a call of the run asked for |
| EscrowRetries.SettledStays | services/escrow/internal/service/service.go:62-268 | the trace a successful keyed call leaves survives every later operation |
| EscrowRetries.SuccessSettles | services/escrow/internal/service/service.go:62-268 | a successful keyed call leaves a trace for its key |
| EscrowRetries.SettledMakesNoOp | services/escrow/internal/service/service.go:62-268 | a call whose key has left its trace changes nothing, even with another amount |
| EscrowRetries.RetriesDoNotMatter | services/escrow/internal/service/service.go:62-258 | deleting any set of calls that repeat an earlier successful call with the same key leaves balances, allocations, ledger and events of the run unchanged |
| EscrowRetries.PaidAsFirstRecorded | services/escrow/internal/service/service.go:192-302 | each milestone or week is paid at most once in a run, and then the amount first recorded for it |
| EscrowConcurrency.StatementIsSound | services/escrow/internal/service/service.go:37-365 | what a transaction has read stays true while it holds its lock, and a call that ends without writing answers as the atomic operation would |
| EscrowConcurrency.CommitIsApply | services/escrow/internal/service/service.go:37-365 | committing the statements of a transaction has the effect and the reply of the atomic operation on the state at commit |
| EscrowConcurrency.OthersKeepKnowing | services/escrow/internal/store/store.go:105-120 | a commit does not falsify what other open transactions have read under their locks |
| EscrowConcurrency.StepKeepsSysInv | services/escrow/internal/service/service.go:37-365 | every statement, commit and crash keeps the locking invariant |
| EscrowConcurrency.EveryInterleavingIsSerial | services/escrow/internal/store/store.go:105-120 | in every interleaving the database and all replies are those of the finished calls run one after the other |
| EscrowConcurrency.EveryInterleavingKeepsTheBooks | services/escrow/internal/service/service.go:114-365 | solvency, unique allocations and agreement of ledger and balances hold in every committed state of every interleaving |
| EscrowConcurrency.GuardsAgainstRacesNeverFire | services/escrow/internal/service/service.go:145-214 | in no interleaving does a release hit the drift guard or an insert a duplicate allocation |
| EscrowService.Service.FundEscrow | services/escrow/internal/service/service.go:37-108 | on the mutable tables: exactly the atomic funding, with the creating upsert, the idempotency key, the hold legs and the event |
| EscrowService.Service.AllocateToMilestone | services/escrow/internal/service/service.go:114-167 | on the mutable tables: exactly the atomic allocation |
| EscrowService.Service.ReleaseMilestone | services/escrow/internal/service/service.go:179-231 | on the mutable tables: exactly the atomic milestone release |
| EscrowService.Service.ReleaseHours | services/escrow/internal/service/service.go:235-303 | on the mutable tables: exactly the atomic release of a billing week |
| EscrowService.Service.RefundEscrow | services/escrow/internal/service/service.go:307-365 | on the mutable tables: exactly the atomic refund |
| EscrowService.Service.UpsertEscrowForContract | services/escrow/internal/store/store.go:105-113 | the contract's account is returned, created empty if there was none, and no other account changes |
| EscrowService.Service.RecordFundIdempotency | services/escrow/internal/store/store.go:122-131 | a key is recorded once per contract and a second use is reported |
| EscrowService.Service.InsertAllocation | services/escrow/internal/store/store.go:193-204 | an allocation is inserted unless a non-refunded one exists for its target |
| EscrowService.Service.MarkAllocationReleased | services/escrow/internal/store/store.go:232-240 | only a held allocation is marked released |
| EscrowService.Service.PostMovement | services/escrow/internal/service/service.go:77-105 | a movement writes one balanced group and one event |
| PaymentModel.OneDepositPerPayment | services/payment/internal/service/service.go:155-208 | after any run a payment has exactly one balanced four-leg deposit group and one captured event if it succeeded, and none otherwise |
| PaymentModel.DepositTotals | services/payment/internal/service/service.go:188-196 | a deposit moves its amount from stripe_clearing to escrow, nets to zero in client_funding and is balanced |
| PaymentModel.ApplyKeepsInv | services/payment/internal/service/service.go:95-282 | every call keeps unique keys and intents, one deposit per succeeded payment, and a succeeded payment behind every recorded success event |
| PaymentLaws.CreationRecords | services/payment/internal/service/service.go:95-150 | each answer's condition; the payment recorded has the payer, contract, amount, currency, intent and key asked for |
| PaymentLaws.ConfirmCaptures | services/payment/internal/service/service.go:155-208 | exactly a processing payment is captured, with these four legs and its announcement |
| PaymentLaws.WebhookCaptures | services/payment/internal/service/service.go:223-282 | each answer's condition; a success captures its processing payment once, and is refused before the payment exists |
| PaymentLaws.PaymentsAreAskedFor | services/payment/internal/service/service.go:95-150 | over any run, every payment is what a call of the run asked for, but for its status |
| PaymentConcurrency.StatementIsSound | services/payment/internal/service/service.go:95-282 | a statement keeps what its transaction relies on; an answer without writes is the atomic answer; a webhook that loses the race against a confirm would, run alone, only record its event |
| PaymentConcurrency.CommitIsApply | services/payment/internal/service/service.go:95-282 | a commit is the atomic operation on the tables at commit |
| PaymentConcurrency.EveryInterleavingIsSerial | services/payment/internal/service/service.go:95-282 | in every interleaving tables and replies are those of the answered calls run one after the other; crashed and race-losing calls have no effect |
| PaymentConcurrency.OneDepositInEveryInterleaving | services/payment/internal/store/store.go:144-151 | whatever confirms and webhooks are interleaved, duplicated or early, each payment has one deposit exactly if it succeeded, and a recorded success event implies its payment succeeded |
| PaymentConcurrency.LostRaceIsHarmless | services/payment/internal/service/service.go:247-271 | a webhook that finds its payment already captured has no effect, and sent again is recorded without a second deposit |
| PaymentService.Service.CreatePaymentIntent | services/payment/internal/service/service.go:95-150 | on the mutable tables: exactly the atomic creation, idempotent per key |
| PaymentService.Service.ConfirmPayment | services/payment/internal/service/service.go:155-174 | on the mutable tables: exactly the atomic confirm |
| PaymentService.Service.HandleWebhook | services/payment/internal/service/service.go:223-282 | on the mutable tables: exactly the atomic webhook, with the event row rolled back when the payment does not exist yet |
| PaymentService.Service.InsertPayment | services/payment/internal/store/store.go:117-128 | a payment is inserted unless its key or intent is taken |
| PaymentService.Service.MarkSucceeded | services/payment/internal/store/store.go:144-151 | only a processing payment is marked, and no other row changes |
| PaymentService.Service.InsertStripeEvent | services/payment/internal/store/store.go:217-226 | an event is recorded once, and its first recording wins |
| PaymentService.Service.WriteDepositLedger | services/payment/internal/service/service.go:188-208 | the four deposit legs are written as one balanced group and the capture is announced |
| JointLedger.PartsRunAlone | services/payment/internal/service/service.go:176-187 | with the statements of both services interleaved in any way, each service behaves as if alone, and every balance of the shared ledger is the sum of both shares |
| JointLedger.MoneyIsConserved | services/escrow/internal/service/service.go:72-90 | in every interleaving of the two services' statements, in each currency and over all: kinds escrow and escrow_contract together hold captured minus released minus refunded; client_funding nets to zero, freelancer_balance is what was released, refunds what was refunded, stripe_clearing the negated captures |
| AuthModel.RotateLinks | services/auth/internal/store/store.go:162-201 | rotation appends to the chain of the token's own session and leaves every other chain alone |
| AuthModel.NewestToken | services/auth/internal/service/service.go:142-199 | a session's newest token can be exchanged exactly while the session is not revoked and the token has not expired |
| AuthLaws.RefreshAnswers | services/auth/internal/service/service.go:142-199 | the three answers of a refresh, each if and only if, on the rows of the token and its session |
| AuthLaws.RotationIssues | services/auth/internal/service/service.go:168-199 | a rotation uses the token up and issues one in its session that expires when the call says; no other row changes |
| AuthLaws.ReuseRevokes | services/auth/internal/service/service.go:156-166 | a reuse revokes exactly the sessions of the family and their tokens, a refusal nothing |
| AuthLaws.LogoutRevokes | services/auth/internal/service/service.go:211-246 | which sessions and tokens a logout revokes, and no others |
| AuthLaws.UsersRevokeTheirOwn | services/auth/internal/store/store.go:244-255 | a user can revoke exactly a session of their own that lives |
| AuthLaws.LoginOpens | services/auth/internal/service/service.go:264-288 | a login opens a live session of the user, in a family of its own, with one token until the given instant |
| AuthLaws.CommitRecordsExpiry | services/auth/internal/service/service.go:168-199 | in every reachable state a rotation that commits is recorded with the token and the expiry its call asked for |
| AuthLaws.TokensLastAsIssued | services/auth/internal/service/service.go:142-288 | in every reachable state a token expires when the login or refresh that issued it said, and, unused and in a live session, can be exchanged exactly until then |
| AuthConcurrency.StepKeepsSysInv | services/auth/internal/store/store.go:182-242 | every lock, row update, commit and abort keeps the chains, the locks and the truth of the history |
| AuthConcurrency.TokensRotateOnce | services/auth/internal/service/service.go:142-199 | in every interleaving each refresh token is exchanged at most once |
| AuthConcurrency.BurntFamiliesStayBurnt | services/auth/internal/service/service.go:156-166 | once the revocation of a reused token's family has committed, no token of that family is ever exchanged again |
| AuthConcurrency.NoTokenAfterRevocation | services/auth/internal/store/store.go:203-242 | no rotation commits a token into a session whose revocation, by reuse, logout or the user, committed before |
| AuthConcurrency.ReplacementSharesSession | services/auth/internal/store/store.go:196-201 | the replacement of a used token is a later token of the same session |
| AuthConcurrency.SessionsAreChains | services/auth/internal/store/store.go:162-201 | in every committed state the tokens of a session form one replaced_by chain whose last element is the only unused one |
| AuthConcurrency.CommitIsAtomic | services/auth/internal/service/service.go:142-246 | a commit has the effect of the whole call run alone on the tables at commit |
| AuthConcurrency.NewestTokenWorksIffSessionLives | services/auth/internal/service/service.go:142-199 | in every reachable state the newest token of a session works exactly while the session lives |
| AuthModel.FamilyIsOneSession | services/auth/internal/store/store.go:153-160 | in every kept state a family consists of one session |
| AuthModel.LogoutEndsOneSession | services/auth/internal/service/service.go:211-236 | after a logout no token of that session can be exchanged, and every token of another session fares as before |
| AuthConcurrency.LogoutReachesOneSession | services/auth/internal/service/service.go:227-231 | in every reachable state a logout of all sessions equals a logout of one and ends exactly that session |
| AuthConcurrency.ReportWithoutCommitStopsNothing | services/auth/internal/service/service.go:161-165 | a run in which a reuse is reported, its revocation does not commit, and the stolen chain goes on |
| AuthService.Service.IssueSession | services/auth/internal/service/service.go:264-288 | a new session starts a family of its own with one token |
| AuthService.Service.Refresh | services/auth/internal/service/service.go:142-199 | on the mutable rows: exactly the atomic refresh, including the revocation of the family on reuse |
| AuthService.Service.Logout | services/auth/internal/service/service.go:211-246 | on the mutable rows: exactly the atomic logout of one session or the family |
| AuthService.Service.RevokeSession | services/auth/internal/store/store.go:244-255 | only the user's own live session is revoked, and its tokens' rows are left alone |
| AuthService.Service.RevokeAll | services/auth/internal/store/store.go:203-229 | all given sessions and all their tokens carry the revocation, and no other row changes |
| Outbox.EventIdsNeverCollide | services/pkg/outbox/outbox.go:94-99 | event ids are injective over source and row id, whatever characters the source contains |
| Outbox.DecimalDenotes | services/pkg/outbox/outbox.go:94-99 | row ids are written in decimal digits that denote them, without a leading zero |
| Outbox.MessagesCarryRows | services/pkg/outbox/outbox.go:152-167 | a message has its row's topic, key, payload and type, under an id that names database and row |
| Outbox.LowestAscends | services/pkg/outbox/outbox.go:129-139 | a batch holds distinct candidates in id order, as many as fit |
| Outbox.LowestSkipsNothing | services/pkg/outbox/outbox.go:129-139 | a batch contains every candidate below any of its rows |
| RelayService.Relay.Enqueue | services/pkg/outbox/outbox.go:30-49 | committing a row adds exactly that row to the unpublished ones |
| RelayService.Relay.PublishBatch | services/pkg/outbox/outbox.go:154-166 | rows are sent in id order up to the first failure, with a failed publish possibly written |
| RelayService.Relay.Drain | services/pkg/outbox/outbox.go:122-168 | whatever fails, the messages sent are a prefix of the batch and stay sent, and the marks are made for the whole batch or not at all |
| RelayService.DrainMakesProgress | services/pkg/outbox/outbox.go:122-168 | a successful drain reduces the unpublished rows by the size of its batch |
| RelayService.OutboxEmpties | services/pkg/outbox/outbox.go:102-120 | without new rows, n successful drains empty the outbox exactly when n batches have room for all of it |
| Delivery.StepKeepsSysInv | services/pkg/outbox/outbox.go:122-168 | every step of producers and relays keeps provenance, disjoint batches and marks backed by messages |
| Delivery.EveryMessageIsARow | services/pkg/outbox/outbox.go:152-167 | every message carries a committed row's content, under an event id that identifies it |
| Delivery.MarkedRowsAreOnTheBus | services/pkg/outbox/outbox.go:160-165 | a row marked published has reached the bus, with any number of replicas |
| Delivery.NoPublishAfterMarks | services/pkg/outbox/outbox.go:129-167 | once a batch's marks are committed no replica publishes any of its rows again |
| Delivery.FirstPublicationsInOrder | services/pkg/outbox/outbox.go:60-65 | with one replica and rows of a key visible in id order, a row's first publication precedes every publication of a higher row of its key |
| DeliveryOrder.OrderIsExact | services/pkg/outbox/outbox.go:60-65 | for any rows, any order of their arrival and any number of replicas: every run that ends with them publishes each key in order if and only if no replica runs, or no key has two rows, or a single replica runs and the rows of each key became visible in id order |
| DeliveryOrder.OneReplicaIffOrdered | services/pkg/outbox/outbox.go:60-65 | a number of replicas keeps every outbox with rows visible in id order in order if and only if it is at most one |
| DeliveryOrder.ArrivalsDecide | services/pkg/outbox/outbox.go:129-134 | with one replica the rows of each key became visible in id order if and only if every run that ends with them is in order |
| DeliveryOrder.ReplicasCanSwap | services/pkg/outbox/outbox.go:60-65 | with any number of replicas from two on, a run that reverses the order within a key |
| DeliveryOrder.LateRowsCanSwap | services/pkg/outbox/outbox.go:129-134 | with one replica, a run that reverses it because a lower row becomes visible late |
| DeliveryRuns.RepeatRow | services/pkg/outbox/outbox.go:152-167 | with one replica, any row of any outbox can come once more behind all others, all rows being published |
| MachineLinks.DrainIsARun | services/pkg/outbox/outbox.go:122-168 | for every way a drain can go, the relay machine has a run with exactly the messages and marks that the drain's contract states |
| Consumer.Consumer.constructor | services/pkg/kafka/consumer.go:47-80 | three attempts unless a dead-letter queue is given with a positive number |
| Consumer.Consumer.Process | services/pkg/kafka/consumer.go:105-141 | whether the offset is committed, what is remembered, what is dead-lettered and how often the handler ran, for every behaviour of check, handler, shutdown, dead-letter queue and mark |
| Consumer.TriesStopsAtFirstSuccess | services/pkg/kafka/consumer.go:114-126 | the attempts end at the first success, within the limit and before any shutdown |
| Consumer.OffsetsAreCommittedIff | services/pkg/kafka/consumer.go:105-141 | the offset is committed if and only if the message is known, handled or dead-lettered, and when its id is remembered then |
| Consumer.OnlyHandledEventsAreRemembered | services/pkg/kafka/consumer.go:134-139 | an event is skipped later only if some delivery of it was handled or dead-lettered |
| Rollups.CountsAreNumbersOfEvents | services/analytics/internal/store/store.go:80-88 | event_counts holds the number of counted events of each day and type |
| Rollups.GmvIsTheSumOfPayments | services/analytics/internal/store/store.go:94-118 | gmv_daily holds the sums of the captured payments and the number of activations of each day and currency |
| Rollups.FunnelCountsTheStages | services/analytics/internal/store/store.go:122-131 | funnel_daily holds the number of events of each stage and day |
| Rollups.RoundingNeverDrifts | services/analytics/internal/service/service.go:76-81 | in every bucket gross is fee plus net, and n payments leave the fee within n cents of the exact tenth |
| Rollups.OrderDoesNotMatter | services/analytics/internal/store/store.go:80-131 | the rollups depend only on the multiset of counted events |
| Rollups.OneEventAdds | services/analytics/internal/service/service.go:72-95 | what one event adds to each bucket of each table, by its type, day and currency |
| Rollups.DaysAreUtc | services/analytics/internal/store/store.go:80-88 | an instant belongs to the day of 86400 seconds that it lies in |
| AnalyticsService.Store.IngestEvent | services/analytics/internal/service/service.go:49-95 | an event is claimed and counted together or not at all; success means it is counted now or was before; a lost commit reply is safe to retry |
| AnalyticsService.Store.ClaimEvent | services/analytics/internal/store/store.go:40-48 | the claim succeeds exactly for the first caller |
| AnalyticsService.Store.BumpEventCount | services/analytics/internal/store/store.go:80-88 | one more event in its own bucket only |
| AnalyticsService.Store.AddGmv | services/analytics/internal/store/store.go:94-105 | the three sums of one bucket grow, its contract count does not |
| AnalyticsService.Store.AddContractCount | services/analytics/internal/store/store.go:110-118 | the contract count of one bucket grows, its sums do not |
| AnalyticsService.Store.BumpFunnel | services/analytics/internal/store/store.go:122-131 | exactly one stage of one day grows |
| AnalyticsService.IngestIsIdempotent | services/analytics/internal/service/service.go:60-70 | ingesting an event id again changes nothing, whatever the second delivery says |
| AnalyticsService.EventsAreCountedOnce | services/analytics/internal/service/service.go:49-95 | an event is added and claimed once per group and id, and every time without an id |
| Ingestion.StepKeepsInv | services/analytics/cmd/consumer/main.go:71-97 | every check, claim, commit, failure, mark and crash of any number of workers keeps the rollups equal to the fold over distinct counted events |
| Ingestion.CountedOnce | services/analytics/internal/service/service.go:49-95 | end to end: the rollups are the fold over the counted events, no id is counted twice, each counted event is a committed row with its content, and every decodable message that process returned true for is counted |
| Ingestion.EverythingIsCounted | services/analytics/cmd/consumer/main.go:71-97 | once a row is published and every message acknowledged, the row is counted exactly if its payload decodes |
| Ingestion.TypesAreInferred | services/analytics/cmd/consumer/main.go:112-156 | the type of a payload without a header: its own, or by topic, so that only payments move money and only undisputed contract events count a contract |
| Ingestion.EventsAreReadAs | services/analytics/cmd/consumer/main.go:71-97 | which payload fields an event's amount and currency are read from |
| SearchIndex.Engine.IndexEvent | services/search/cmd/consumer/main.go:80-99 | a handled event changes its one document as routed; poison payloads and ignored events succeed without effect |
| SearchIndex.StepKeepsInv | services/pkg/kafka/consumer.go:83-141 | in every fault-free step the index is the fold of first publications up to the furthest position, or one event ahead of it |
| SearchIndex.ReadToTheEnd | services/pkg/kafka/consumer.go:83-141 | after any redeliveries, retries and crashes, a lane read to its end has every event applied once, at its first publication |
| SearchIndex.HighestDecides | services/search/cmd/consumer/main.go:120-138 | every document is as the highest row that touches it leaves it |
| SearchIndex.IndexConverges | services/search/cmd/consumer/main.go:80-138 | from outbox to index: a document is indexed with the content of its highest row, or absent if that row removes it, whatever duplicates and replays occurred |
| SearchIndex.NothingAppearsFromNowhere | services/search/cmd/consumer/main.go:80-138 | a document no row touches is not in the index |
| SearchRouting.LastWordDecides | services/search/cmd/consumer/main.go:80-138 | from outbox to index, on event types and payload fields: a project is indexed if and only if its highest row says published rather than closed, a freelancer if and only if the highest row says searchable, with that row's payload |
| SearchRouting.OnlyTheseEnter | services/search/cmd/consumer/main.go:101-138 | whatever faults there are, only published projects and searchable freelancer profiles are ever in the index |
| SearchRouting.EventsActOnTheirDocument | services/search/cmd/consumer/main.go:120-138 | which events put and remove which document, in both directions, on event types and payload fields |
| SearchRouting.TypesAreInferred | services/search/cmd/consumer/main.go:140-167 | the type of a payload without a header: its own, or by topic |
| Events.FirstText | services/search/cmd/consumer/main.go:182-189 | a text field is read from the first key that has one |
| Events.FirstNumber | services/analytics/cmd/consumer/main.go:158-166 | an amount is read from the first key that has a number, without its fraction |
| SearchFaults.ToleranceIsExact | services/pkg/kafka/consumer.go:105-141 | for any lane and document: runs with failed checks or failed marks all leave the document as without them if and only if no copy after the last new message about it would leave it otherwise; runs with handlers that give up, if and only if no message puts it |
| SearchFaults.CopyWins | services/pkg/kafka/consumer.go:105-141 | failed checks, failed marks or handlers that give up, each alone, can make any copy decide that nothing new about the document follows |
| SearchConvergence.ConvergenceIsExact | services/search/cmd/consumer/main.go:80-138 | from outbox to index, for every run of one relay and every run of the consumer: without faults the highest row decides; with checks or marks that may fail, if and only if all rows about the document leave it alike; with handlers that may give up, if and only if no row puts it |
| SearchConvergence.OneKindRevives | services/pkg/kafka/consumer.go:107-139 | for any row about a document, a relay run that meets every condition of convergence and a consumer run with a single kind of fault that leaves the document as that row does |
| MachineLinks.IndexingIsARun | services/pkg/kafka/consumer.go:105-141 | for every behaviour of check, handler, shutdown and mark, the index machine has a run with exactly the outcome that the consumer's contract states |
| MachineLinks.CountingIsARun | services/analytics/cmd/consumer/main.go:71-97 | the same for a worker of the rollups, whose handler has the effect that the contract of the ingestion states |
| RateLimiter.Limiter.TokenBucket | services/gateway/internal/ratelimit/ratelimit.go:27-66 | the script's whole reply and the key it stores, for a missing, live or expired key |
| RateLimiter.Limiter.Middleware | services/gateway/internal/ratelimit/ratelimit.go:135-174 | requests are denied exactly when Redis answers and the bucket has no token, with a Retry-After that is at least one without the clamp |
| RateLimiter.ClientsHaveOneKey | services/gateway/internal/ratelimit/ratelimit.go:165-174 | two requests share a key exactly if they come from the same user or, without one, the same address, whatever their paths; the auth bucket applies exactly to the auth endpoints |
| RateLimiter.RetryIsPositive | services/gateway/internal/ratelimit/ratelimit.go:52-57 | the retry of a denied request is at least one second |
| RateLimiter.WindowBound | services/gateway/internal/ratelimit/ratelimit.go:27-66 | in any window of any trace with an ordered clock, admitted requests number at most the largest capacity plus the largest rate times the window |
| RateLimiter.WindowBoundWithDrift | services/gateway/internal/ratelimit/ratelimit.go:42-60 | on any clock, admitted requests number at most the largest capacity plus the largest rate times the window and whatever the clock went back within it |
| RateLimiter.WindowBoundIsExact | services/gateway/internal/ratelimit/ratelimit.go:61-63 | for a set of policies sharing a key the bound holds on all traces if and only if every policy keeps the key long enough for the largest bucket to refill |
| RateLimiter.OneWindowIsEnough | services/gateway/internal/ratelimit/ratelimit.go:69-79 | policies with one window meet that condition |
| RateLimiter.FullAfterTheWindow | services/gateway/internal/ratelimit/ratelimit.go:69-79 | an empty bucket is full after exactly its window, or after a second without one |
| RateLimiter.KeysOutliveRefills | services/gateway/internal/ratelimit/ratelimit.go:61-63 | an untouched key lives between one and two seconds longer than the refill |
| RateLimiterLaws.BackwardClockMints | services/gateway/internal/ratelimit/ratelimit.go:42-60 | for every policy that keeps its key long enough and every n, a trace that admits n requests above the ordered bound, exactly as many as the bound with drift allows |
| RateLimiterLaws.FastEnough | services/gateway/internal/ratelimit/ratelimit.go:61-63 | a rate of at least 0.0001 keeps a key until the bucket of its only policy is full |
| RateLimiterLaws.OneWindowIsKept | services/gateway/internal/ratelimit/ratelimit.go:61-79 | policies with one window that refill no slower keep a shared key until the bucket of each is full |
| RateLimiterLaws.ExpiryIsInvisibleExactly | services/gateway/internal/ratelimit/ratelimit.go:61-63 | for any set of policies sharing a key, expiry changes no decision on any trace if and only if under none of them the key expires before the bucket of each could have refilled |
| RateLimiterLaws.DeniedIsInvisibleExactly | services/gateway/internal/ratelimit/ratelimit.go:42-60 | for any set of policies that keep a shared key, removing a denied request changes no other decision on any trace if and only if all of them refill at one rate |
| RateLimiterLaws.SharedWindowIsNoticed | services/gateway/internal/ratelimit/ratelimit.go:69-79 | for two policies with one window and different capacities, a trace in which a denied request changes a later decision |
| RateLimiterLaws.RetryAfterIsExact | services/gateway/internal/ratelimit/ratelimit.go:52-57 | after a denied request and any denied polling under policies that refill alike, a request n whole seconds later passes if and only if n is at least the returned retry |
| Activity.BucketSamples | services/timetracking/internal/activity/activity.go:189-202 | each bucket holds the first of its busiest samples, and exactly the buckets with samples exist |
| Activity.BucketsHoldTheBusiest | services/timetracking/internal/activity/activity.go:189-202 | for every sample sequence, placing the samples one at a time leaves in each bucket a sample of the greatest score, the first of equals |
| Activity.VisitedCovers | services/timetracking/internal/activity/activity.go:132-133 | the steps of the walk, with its shorter last one, add up to exactly the slice |
| Activity.Walk | services/timetracking/internal/activity/activity.go:127-156 | the incremental counter yields the total length of the maximal unbillable runs that reach the threshold, and the graded active seconds, over the steps of the slice |
| Activity.Compute | services/timetracking/internal/activity/activity.go:112-187 | the whole result by that specification, with the percentage unclamped and the fraud signals with their reasons; a slice of constant intensity on the ramp bills its share of the slice to half a second |
| Activity.OneMoreBucket | services/timetracking/internal/activity/activity.go:138-155 | how one more bucket changes the declarative idle total and the run at the end |
| Activity.RunIsUnique | services/timetracking/internal/activity/activity.go:142-155 | a bucket lies in at most one maximal run |
| Activity.ActiveAndIdleFit | services/timetracking/internal/activity/activity.go:156-163 | rounded active seconds and idle seconds never exceed the slice together |
| Activity.ClampNeverBites | services/timetracking/internal/activity/activity.go:158-163 | for any parameters and intensities active seconds fit in the denominator and the percentage is within 0 to 100 |
| Activity.ActiveSecondsAreMonotone | services/timetracking/internal/activity/activity.go:67-76 | more intensity in any bucket never lowers the active seconds |
| Activity.GradingIsARamp | services/timetracking/internal/activity/activity.go:67-76 | nothing is billed below the floor, everything from full activity on, and a straight line in between |
| Activity.RoundIsNearest | services/timetracking/internal/activity/activity.go:156-162 | rounding goes to the nearest second, halves away from zero |
| ActivityLaws.BillableAboveTheFloor | services/timetracking/internal/activity/activity.go:67-76 | a bucket is billed if and only if its intensity is above the floor, or reaches it where there is no ramp |
| ActivityLaws.ActiveSecondsAdd | services/timetracking/internal/activity/activity.go:138-141 | the active seconds of two stretches add up |
| ActivityLaws.OneGap | services/timetracking/internal/activity/activity.go:142-155 | a stretch without billable buckets is idle as a whole if it reaches the threshold, and not at all otherwise |
| ActivityLaws.GapsAreApart | services/timetracking/internal/activity/activity.go:138-155 | idle time on the two sides of a billable bucket adds up; with the law of one gap this determines it for every slice |
| ActivityLaws.MissingSamplesAreIdle | services/timetracking/internal/activity/activity.go:127-155 | a slice without samples bills nothing and is idle as a whole if it reaches the threshold |
| ActivityLaws.ExcusedIdleLeaves | services/timetracking/internal/activity/activity.go:158-161 | how much idle time leaves the denominator |
| ActivityLaws.PercentageIsNearest | services/timetracking/internal/activity/activity.go:162-163 | the percentage is the nearest to a hundred times active over denominator |
| ActivityLaws.ScoreCounts | services/timetracking/internal/activity/activity.go:204-204 | what a sample scores |
| ActivityLaws.SamplesFallInTheirStep | services/timetracking/internal/activity/activity.go:189-195 | which step of the slice a sample falls into, also when it is early |
| ActivityLaws.ReasonsHaveCauses | services/timetracking/internal/activity/activity.go:165-181 | each reason for suspicion is given exactly for its cause |
| Signals.IsTooUniform | services/timetracking/internal/activity/activity.go:207-234 | the flag is raised exactly for five or more buckets, mostly with input, whose standard deviation is below one percent of their mean |
| Signals.OneIdleBucketClears | services/timetracking/internal/activity/activity.go:207-234 | a slice of up to ten thousand buckets with a single bucket without input is never flagged as uniform |
| Signals.SteadyInputIsFlagged | services/timetracking/internal/activity/activity.go:207-234 | input that never varies is flagged exactly if it lasts five buckets and is not negligible |
| Signals.UniformMeans | services/timetracking/internal/activity/activity.go:207-234 | the exact thresholds of the uniformity flag |
| Signals.MouseOnlyMeans | services/timetracking/internal/activity/activity.go:236-246 | the mouse flag says that no sample has a key and some sample has the mouse, in five samples or more |
| Timesheets.Store.AccrueTimesheet | services/timetracking/internal/store/store.go:112-125 | one week's row grows by the seconds and their truncated price |
| Timesheets.RoundingNeverDrifts | services/timetracking/internal/store/store.go:112-125 | at a fixed rate n accruals leave the amount less than n cents below the exact price and never above it |
| Timesheets.SessionsAccrue | services/timetracking/internal/store/store.go:112-125 | what one session adds to its week, and that it sets the average |
| ContractModel.ApplyKeepsInv | services/contract/internal/service/service.go:81-384 | every call keeps the logs replayable, milestone sums equal to the contract total, and announcements equal to approvals |
| ContractModel.ReplayFollowsPaths | services/contract/internal/store/store.go:124-135 | replaying a log succeeds exactly on paths and ends where the path ends |
| ContractModel.LogReplaysToStatus | services/contract/internal/service/service.go:199-384 | in every reachable state a contract's log is a path from its creation to its stored status |
| ContractModel.EveryContractWasCreated | services/contract/internal/service/service.go:81-148 | in every reachable state each contract was created by a call, from a proposal |
| ContractModel.ApprovalsWithinBid | services/contract/internal/service/service.go:152-332 | in every state after its creation a contract has the terms of the proposal it was created from, its approved amounts never exceed the bid of that proposal, and each milestone is announced once exactly if it is approved |
| ContractService.DeriveContractTerms | services/contract/internal/service/service.go:152-195 | on success project, freelancer, fee, currency and amount are the proposal's and fixed milestones sum to the bid; each refusal has its own condition, in both directions |
| ContractModel.RequestCannotForge | services/contract/internal/service/service.go:152-195 | two requests of one client for one proposal that differ in whatever the client must not control have the same outcome and terms |
| ContractLaws.CreationAnswers | services/contract/internal/service/service.go:81-148 | each refusal's condition, when a contract is created, and that it starts with pending milestones, the terms of its proposal and one log entry |
| ContractLaws.MilestonesMoveInTurn | services/contract/internal/store/store.go:159-211 | each answer of the three milestone calls on the milestone's status and the caller, and what they change |
| ContractLaws.MilestonesAreEarned | services/contract/internal/service/service.go:240-332 | in any run a milestone is funded, submitted or approved only after a successful funding by the client, submission by the freelancer and approval by the client, in this order |
| ContractLaws.ActivationNeedsPending | services/contract/internal/service/service.go:199-236 | exactly a contract that waits for its funding is activated |
| ContractLaws.PartiesDispute | services/contract/internal/service/service.go:336-384 | exactly a party can dispute, from any status |
| ContractService.Service.CreateFromProposal | services/contract/internal/service/service.go:81-148 | a contract is stored with all its milestones and its first log entry, or not at all |
| ContractService.Service.InsertMilestones | services/contract/internal/service/service.go:126-131 | all milestones are inserted exactly if amounts are positive and numbers distinct; otherwise a shorter part of them is, for the caller to roll back |
| ContractService.Service.InsertMilestone | services/contract/internal/store/store.go:117-123 | a milestone is refused for a non-positive amount or a number already taken |
| ContractService.Service.ActivateContract | services/contract/internal/service/service.go:199-236 | exactly the guarded transition, its log entry and its announcement |
| ContractService.Service.MoveMilestone | services/contract/internal/store/store.go:159-211 | a milestone moves only from the required status |
| ContractService.Service.FundMilestone | services/contract/internal/service/service.go:240-262 | exactly the atomic move; a caller who is not the client leaves everything unchanged although the write comes first |
| ContractService.Service.SubmitMilestone | services/contract/internal/service/service.go:266-294 | the same for the freelancer's submission |
| ContractService.Service.ApproveMilestone | services/contract/internal/service/service.go:298-332 | the same for the client's approval, with its announcement |
| ContractService.Service.RaiseDispute | services/contract/internal/service/service.go:336-384 | a party forces a dispute from any status, with the status before it in the log |
| Screenshots.Store.RequestUploadSlot | services/screenshot/internal/store/store.go:30-73 | the slice's row and that row's key are returned, created only if the slice has none |
| Screenshots.Store.ConfirmUpload | services/screenshot/internal/service/service.go:122-168 | a row is stored and announced exactly if it is pending and the signature covers the confirmed digest, nonce and the row's own time and contract |
| Screenshots.ConfirmsAreSigned | services/screenshot/internal/service/service.go:122-168 | a confirm is accepted if and only if the row is pending and the signature covers this digest and nonce with the row's own time and contract |
| Screenshots.SlicesHaveOneRow | services/screenshot/internal/store/store.go:30-73 | a further request for a slice gets its row, only the first makes one |
| Screenshots.StepKeepsInv | desktop-tracker/src-tauri/src/sync.rs:89-200 | every step of tracker, network and server keeps rows, objects, calls in flight and queue consistent with the captures |
| Screenshots.NoDoubleIngest | services/screenshot/internal/store/store.go:30-109 | there is at most one row per slice, and one ingested event exactly for each stored row |
| Screenshots.StoredEvidenceDecrypts | services/screenshot/internal/service/service.go:122-168 | a stored row's object opens under its unwrapped key, its nonce and its own context to the image captured for the slice |
| Screenshots.NothingIsLost | desktop-tracker/src-tauri/src/sync.rs:191-199 | what was queued and has left the queue or the disk is stored on the server |
| UploadQueue.StuckForever | services/screenshot/internal/store/store.go:89-99 | a stored row whose acceptance did not arrive stays in the queue in every continuation |
| UploadQueue.ForgottenForever | desktop-tracker/src-tauri/src/db.rs:131-170 | a row marked confirmed whose deletion the tracker did not reach stays in the queue in every continuation, for no attempt picks it |
| UploadQueue.RowLeavesExactly | desktop-tracker/src-tauri/src/sync.rs:89-200 | from every reachable state a queued row can still leave if and only if its evidence is not stored, or the acceptance is at hand, or it is marked confirmed and about to be deleted |
| UploadQueue.BlobLeavesExactly | desktop-tracker/src-tauri/src/sync.rs:191-199 | the blob of a queued capture can still be removed if and only if its row can leave, or has just left in the attempt under way |
| UploadQueue.LostAcceptanceRemains | services/screenshot/internal/store/store.go:89-99 | for any capture, a run that loses the acceptance, after which row and blob can never leave |
| UploadQueue.CrashForgets | desktop-tracker/src-tauri/src/sync.rs:191-199 | for any capture, a run that stops between marking and deleting the row, after which row and blob can never leave |
| Tracker.LocalStore.ProcessScreenshot | desktop-tracker/src-tauri/src/sync.rs:89-200 | one attempt on the mutable stores: row and blob go only after the server holds decryptable evidence, otherwise both remain |
| Tracker.LocalStore.Upload | desktop-tracker/src-tauri/src/sync.rs:105-189 | acceptance means the evidence is complete on the server; a first attempt without failures is accepted |
| Envelope.WrappingsUnwrap | services/pkg/crypto/envelope.go:117-150 | what unwraps to a key is exactly what wraps that key under some nonce |
| Envelope.KeyLayouts | services/pkg/crypto/envelope.go:117-126 | a wrapped key is nonce and body bound to the key id, 60 bytes in all |
| Envelope.SignedLayout | services/screenshot/internal/service/service.go:226-236 | where in the signed message digest, nonce, time and contract lie |
| Envelope.EnvelopesOpenExactly | services/pkg/crypto/envelope.go:38-75 | what opens to a text in a context, under a data key of the right length, is exactly what encrypts that text in that context |
| Envelope.ClientKeySurvives | desktop-tracker/src-tauri/src/crypto.rs:208-221 | a client key sealed on disk, sent, wrapped by the server and unwrapped for a viewer is the key the image was encrypted with |
| Envelope.ConfirmSignedMessage | services/screenshot/internal/service/service.go:226-236 | the message the server rebuilds is the one a device signed exactly if digest, nonce, time and contract are the signed ones |
| Envelope.SignedMessageBindsAll | desktop-tracker/src-tauri/src/crypto.rs:112-129 | with the tracker's fixed lengths the signed message determines digest, nonce, time and contract |
| Envelope.Zero | services/pkg/crypto/envelope.go:85-89 | the buffer is overwritten entirely |

## Left out

- Delivery: no event is ever lost is not claimed. `Run` can commit a later offset past a failed message, so end-to-end counting is stated for acknowledged messages.
- Ingestion: events posted directly to the analytics HTTP endpoint, and deliveries without an event id (the relay always sets one); `AnalyticsService.Store.IngestEvent` covers both.
- Ingestion.CountedOnce: the day of an event is the day it is consumed, as in the source; it is not derived from the event.
- SearchIndex: the order of messages across keys, and partitions shared by several keys: each topic and key is a lane of its own.
- Consumer.Consumer.Process: the effects of the handler are a parameter; `Ingestion` and `SearchIndex` model the two handlers.
- EscrowModel: memo texts, timestamps and the payload details of events; transaction groups are counted per service.
- JointLedger: conversion between currencies, which the services do not have.
- PaymentModel: the signature check of webhooks, and the Stripe client: the intent a creation gets is a parameter.
- AuthModel: passwords, lockout, access tokens, IP addresses and user agents; a token is its row, its hash is not modelled.
- ContractModel: weekly hour limits, deliverables, and interleaved statements of several calls: each call locks its contract or milestone row with its first statement. Milestone titles and due dates.
- Screenshots: the server-minted key of the online path, expiry of presigned URLs (a call that is not served), device enrolment, retention and fraud flags. A capture whose process stops between writing the blob and queueing the row was never queued.
- Screenshots.StoredEvidenceDecrypts: about calls made by the tracker; the server does not check that the object was uploaded before it accepts a confirm.
- Activity: the logarithm inside the intensity. The square root in the uniformity signal is compared by its square.
- Activity.Compute: floating-point rounding; it also requires a positive sample length, without which the source divides by zero.
- RateLimiter: parsing of forwarded addresses, and the precision with which the script stores numbers; capacities below zero in the window bound.
- Envelope: that an envelope opens in no other context than its own; it follows from the cipher's authenticity, which is a matter of probability. `Screenshots` has it for the symbolic cipher.
- Envelope.SignedMessageBindsAll: requires the lengths that the tracker's types fix; the server does not check the lengths of digest and nonce.
- The HTTP and gRPC layers, configuration, logging, metrics, the web front end and the CRUD services (user, project, proposal, messaging, notification, admin, review, fraud) would add only members with little branching.
