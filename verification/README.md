# Corner Store: verified model of the off-chain services

This project models the off-chain algorithms of Corner Store and proves what they promise. The
core is the RFQ quote coordinator: callers race to turn an idempotency key into one signed
quote, while a durable store leases inventory, allocates nonces and follows each quote through
settlement, reorganisation, expiry and revocation. Around it stand the demo market's
trade-impact pricing, the compliance-data algorithms (canonical JSON, the audit hash chain, lot
lineage, the rolling calendar-month ledger, the KYC evidence store) and two schedulers (the
paced JSON-RPC provider and the host's rate limiter).

`dafny verify dfyconfig.toml` checks everything.

## How it is built

Code that updates state is a class whose methods work step by step, as the source does, and are
proved to compute a transaction function; the theorems are about those functions over whole runs.

- `RfqTypes`, `QuoteTransactions`: the store's data and its transactions. Each is one atomic
  step that returns the state to write back, or an error that leaves the persisted state alone.
- `QuoteLifecycle`, `QuoteConservation`, `QuoteStoreInvariants`, `QuoteStoreOutcomes`,
  `QuoteStoreTheorems`: the lifecycle graph, lease sums, the store invariant, an independent
  table of what each transaction does, and what holds after any run.
- `QuoteStore`: the class `LocalFileQuoteCoordinatorStore`.
- `SettledVolume`: what the availability does not bound.
- `CoordinatorProtocol`, `CoordinatorTheorems`, `CoordinatorProgress`, `RevocationTheorems`: quote
  calls as small programs whose steps interleave arbitrarily with other calls, crashes and
  settlement events. Every clock reading, price, risk decision and signature is an arbitrary choice,
  so nothing depends on timing.
- `Arithmetic`, `Ratios`, `DemoMarketPricing`, `PricingTheorems`, `SuggestedTradeTheorems`,
  `RoundTripTheorems`, `TripLengthTheorems`: exact rational pricing.
- `JsonText`, `CanonicalJson`, `CanonicalTheorems`: the canonical printer.
- `JsonReader`, `ReaderTheorems`, `ReaderExtension`: a reader of JSON texts, written independently of
  the printer, and what it makes of canonical texts.
- `AuditLog`, `AuditFile`, `AuditRestart`: the hash chain, its file, and what a restart reads back.
- `Pacing`, `RateLimiter`: the schedulers.
- `Acquisition`, `AcquisitionTheorems`, `Calendar`, `Ledger`, `KycEvidence`, `KycTheorems`: the
  remaining compliance-data algorithms.
- `Checks`, `Results`, `SampleTerms`: shared shape checks, result types and the terms of the
  concrete runs.

## What the proofs brought out

- A quote that a caller published can be revoked by another quote call: exactly by a strict one
  that took its copy while the record was RESERVED and whose policy was not content with the
  record's evidence (`RevocationTheorems.RevokesPublishedExactlyWhen` and
  `RevokesOnlyUnadmittedCopies`). `RevocationRun` is such a run. The quote stays on record.
- A replay returns the stored quote whatever has become of its record
  (`RevocationTheorems.ReplaysExactlyWhen`, and `ReplayRun` for a revoked one). An explicit expiry
  of a RESERVED record has no time guard (`QuoteStoreOutcomes.OutcomeIsDestination`).
- A fill gives its lease back without lowering `available`. Solvency bounds the quotes that can
  still be settled; the volume ever settled has no bound
  (`SettledVolume.SettledVolumeIsUnbounded`).
- A larger input to the demo market can pay less (`PricingTheorems.AmountOutIsNotMonotone`).
  `PayoutsFollowWeighedMids` compares any two inputs, and `BuysAreMonotoneExactlyWhen` and
  `SellsAreMonotoneExactlyWhen` say when no input loses.
- Suggested trades need not reach the minimum when the buffer is below the maximal impact
  (`SuggestedTradeTheorems.SmallBufferFallsShort`); `QualifiesAtEveryPriceExactlyWhen` gives the
  exact condition on the configuration. The shipped scenario has a buffer of 50 basis points under
  a maximal impact of 75 and does qualify at every price (`ShippedScenarioQualifies`).
- Closing a position in any number of parts after opening it in one trade always loses
  (`RoundTripTheorems.BuyThenSellInPartsLoses`, `SellThenBuyInPartsLoses`). Opened by several
  trades and closed by one, it always loses exactly up to two buys or one sell; three buys or two
  sells can win (`TripLengthTheorems.TripsAlwaysLoseExactlyWhen`, `ThreeBuysThenSellCanWin`,
  `TwoSellsThenBuyCanWin`).
- KYC evidence submitted to the store in other letter case than a coordinator uses makes later
  refreshes on the same assessment fail (`KycTheorems.OtherLetterCaseConflicts`,
  `CapitalsConflict`).
- An audit log whose file lost its last line feed still opens, but after one more append it no longer
  does: the new entry lands on the old line (`AuditRestart.ReopensExactlyWhen`, `CutOffLogIsLost`).
- The comment in services/testnet-rfq-demo/src/rpc.ts:18-19 claims a cap of 1.5 times the rate
  in any second. It holds for the reserved slots, for every clock.

## Model

| member | source | states |
|---|---|---|
| CoordinatorTheorems.Agreement | services/rfq/src/coordinator.ts:268-455 | In every interleaving of concurrent, crashed and resumed calls, all calls that succeeded for one scope and idempotency key hold the identical signed quote, signature included, and asked for the identical request. |
| CoordinatorTheorems.SuccessIsBackedByLease | services/rfq/src/coordinator.ts:405-444 | A successful call holds the persisted quote of a record whose lease reserved exactly the quoted amount in the bucket of its maker, token and venue; it expires the request's time to live after the record was booked, as the lease does; its nonce is the record's, every other term is the caller's own, and a strict caller's record carries evidence, which its own policy found fresh at a remembered clock reading if the call signed the quote itself instead of replaying it. |
| CoordinatorProgress.UndisturbedCallSucceeds | services/rfq/src/coordinator.ts:268-444 | Progress, at any time: the first call under its key that nothing disturbs, with a positive price, room for it beside the held leases, a signer, clock readings before the time it began plus its time to live and, if strict, evidence its policy is content with, succeeds with a quote that expires at that instant. |
| CoordinatorProgress.AnswersExactlyWhen | services/rfq/src/coordinator.ts:362-385 | From a copy of the record behind its key a call replays the stored quote, goes on to sign, sets out to expire or to revoke, or fails, each exactly in the cases listed over the copy, the request, the policy and the clock reading. |
| CoordinatorProgress.SignsExactlyWhen | services/rfq/src/coordinator.ts:396-454 | On a live reservation a call expires it if it has run out by then, offers the signature for publication if the signer gives one, and goes on to commit the failure when signer, clock or store refuse. |
| CoordinatorProgress.ReservesExactlyWhen | services/rfq/src/coordinator.ts:275-300 | A priced call goes on to reserve exactly when the price is positive and a strict policy is content with the evidence at the call's time; it then asks for that amount until that time plus its time to live. |
| CoordinatorProgress.AdmitsWithinWindow | services/rfq/src/coordinator.ts:807-828 | A strict policy is content exactly from when the later snapshot is due, less the skew, until before the earlier one runs out, at its own time or else the clock reading. |
| CoordinatorProgress.HashesTellApart | services/rfq/src/coordinator.ts:270-272 | Different idempotency keys, and different requests, have different hashes. |
| CoordinatorProgress.FailureIsCommitted | services/rfq/src/coordinator.ts:445-454 | A call whose signing failed ends a record that is still RESERVED as SIGN_FAILED at its clock reading, with the lease given back, and leaves any other record as it was. |
| CoordinatorProgress.RetreatIsCommitted | services/rfq/src/coordinator.ts:372-385 | A call that set out to expire or revoke ends a record that is still RESERVED as EXPIRED or REVOKED at its clock reading, with the lease given back. |
| CoordinatorProgress.SignableSucceeds | services/rfq/src/coordinator.ts:396-444 | A call on a live reservation that gets a signature in time publishes it and succeeds with the quote of that reservation. |
| CoordinatorProgress.ReservingSucceeds | services/rfq/src/coordinator.ts:290-310 | Reserving where there is room leads to a reservation on the call's own terms that lasts until its time plus its time to live. |
| CoordinatorTheorems.LiveQuotesAreCovered | services/rfq/src/coordinator.ts:290-301 | Solvency: in every reachable state the signed quotes in PUBLISHED, FILL_OBSERVED or CANCEL_OBSERVED of a bucket add up to at most its configured availability. |
| CoordinatorTheorems.PublishedIsNeverReplaced | services/rfq/src/coordinator.ts:553-576 | Once a record carries a signed quote, no later step of any call, crash or settlement event replaces or erases the stored quote, whatever becomes of the record's state. |
| CoordinatorTheorems.SigningFailureRetractsNothing | services/rfq/src/coordinator.ts:445-454 | A caller whose signing or publishing fails leaves every record that carries a published quote exactly as it was, its own included. |
| CoordinatorTheorems.PublicationOutcome | services/rfq/src/coordinator.ts:428-444 | Offering a signature succeeds if and only if the reservation still stands at the clock reading or another caller published first; in the first case the offered quote is published, in the second the other caller's is returned. |
| CoordinatorTheorems.CallTouchesOnlyItsRecord | services/rfq/src/coordinator.ts:268-455 | A call's step leaves every record but its own key's untouched, except that a reservation expires the leases that ran out by its clock reading. |
| RevocationTheorems.RevokesPublishedExactlyWhen | services/rfq/src/coordinator.ts:372-379 | In every good state, a step of a quote call revokes a published quote if and only if the call set out to revoke the record behind that quote's key; it is then a strict one whose policy was not content with the record's evidence at the clock reading it decided on. |
| RevocationTheorems.RevokesOnlyUnadmittedCopies | services/rfq/src/coordinator.ts:370-379 | A call sets out to revoke if and only if it answers from a copy of its own request that is still RESERVED and unsigned, and its strict policy is not content with the copy's evidence: missing, from the future, or run out. |
| RevocationTheorems.RevocationRun | services/rfq/src/coordinator.ts:268-455 | The race is real: a run from a fresh store in which a relaxed call publishes and succeeds and the next step of a strict call revokes its quote. |
| RevocationTheorems.StaleRevocationOvertakesPublication | services/rfq/src/coordinator.ts:372-379 | Whenever a call set on revoking meets a published record, the record ends REVOKED with its quote kept. |
| RevocationTheorems.ReplaysExactlyWhen | services/rfq/src/coordinator.ts:362-369 | A caller whose key has a signed quote on record gets that quote, whatever the state of the record, if and only if it repeats the request and, when strict, the record has evidence. |
| RevocationTheorems.ReplayRun | services/rfq/src/coordinator.ts:362-369 | After the run in which a quote was revoked, a third call still succeeds with it. |
| CoordinatorTheorems.Reachable | services/rfq/src/coordinator.ts:268-455 | Every state reachable from a fresh store satisfies the system invariant: the store invariant, records booked for their own request, and every call in a phase that fits the record behind its key. |
| CoordinatorTheorems.PlayKeeps | services/rfq/src/coordinator.ts:268-455 | The system invariant survives any sequence of steps, and the store only evolves. |
| CoordinatorTheorems.NextKeeps | services/rfq/src/coordinator.ts:268-455 | The system invariant survives each single step: a call beginning, advancing or crashing, or an outside event. |
| CoordinatorProgress.OtherStepsExactly | services/rfq/src/coordinator.ts:312-340 | What the remaining steps do: a call begins at the clock's reading, an unfinished one may crash and leaves the store alone, and observing, reconciling, expiring and revoking take place whenever they come. |
| CoordinatorTheorems.CallStepOk | services/rfq/src/coordinator.ts:268-455 | A call's own step leads it from a phase that fits its record to another that does, whatever clock, pricing and signer answer. |
| CoordinatorProtocol.CallStaysOk | services/rfq/src/coordinator.ts:268-455 | What other parties commit never disturbs a call in flight. |
| CoordinatorProtocol.CommitStaysFaithful | services/rfq/src/coordinator.ts:405-416 | Every transaction as coordinators call it keeps each record booked for its own request and carrying no quote but the one its lease stands for. |
| CoordinatorTheorems.ReserveReturnsCurrent | services/rfq/src/coordinator.ts:505-551 | A reservation, new or found, hands back the record now behind the caller's key. |
| CoordinatorTheorems.MarkSignedReturnsCurrent | services/rfq/src/coordinator.ts:553-576 | Accepting a signature hands back the record now behind the key, evolved from the one before. |
| QuoteStoreOutcomes.OutcomeIsDestination | services/rfq/src/coordinator.ts:505-668 | A transaction on a record is accepted if and only if the record admits it, stated as a table over states and operations. It then leads the record to the table's destination, field by field: untouched if that is its state, and else with only the fields of the new state changed. No other record differs, save those whose lease a reconciliation found run out. A refusal gives the error of a second table. |
| QuoteStoreOutcomes.BookedOnTheTerms | services/rfq/src/coordinator.ts:518-549 | A fresh reservation books exactly the caller's terms under the scope's next nonce, with an unreleased lease for the amount and a history of RECEIVED and RESERVED; other scopes keep their nonces, and of the earlier records only those waiting on a lease that has run out expire. |
| QuoteStoreOutcomes.UnconfiguredIsRefused | services/rfq/src/coordinator.ts:518-522 | A new key is refused for want of configured inventory if and only if its bucket is not configured. |
| QuoteStoreOutcomes.SameObservationExactly | services/rfq/src/coordinator.ts:886-892 | Two observations count as the same if and only if they agree in kind and block number and, in any letter case, in both hashes. |
| QuoteLifecycle.TerminalHasNoEdge | services/rfq/src/coordinator.ts:898-900 | The terminal states are exactly those without a way out. |
| QuoteStoreOutcomes.UnaddressedIsNotFound | services/rfq/src/coordinator.ts:845-862 | A transaction that addresses no record fails as not found, unless it books one. |
| QuoteStoreOutcomes.AddressedAtMostOnce | services/rfq/src/coordinator.ts:845-862 | Key and nonce lookups identify at most one record of a good store, so taking the first match loses nothing. |
| QuoteStoreTheorems.LifecycleSafety | services/rfq/src/coordinator.ts:505-668 | After any run from a fresh store every history is a path of the lifecycle graph ending in the record's state, of length at most six plus two per reorganisation; the lease is released if and only if the state is terminal, with the matching reason and time. |
| QuoteStoreTheorems.TerminalIsAbsorbing | services/rfq/src/coordinator.ts:898-900 | Whatever follows, a terminal record stays as it is, a published quote stays, and histories are only appended to. |
| QuoteStoreTheorems.FinalityNeedsConfirmations | services/rfq/src/coordinator.ts:616-634 | FILLED and CANCELLED are entered only by a reconciliation that found the observed block canonical and buried at the configured depth; which of the two is decided by what was observed. |
| QuoteStoreTheorems.CountersAreExact | services/rfq/src/coordinator.ts:864-884 | After any run each reserved counter equals the sum of the unreleased leases of its bucket and lies between zero and the availability. |
| QuoteConservation.AmountsExactly | services/rfq/src/coordinator.ts:864-884 | What a record adds to the sums of these results: its lease until it is given back, at a time only if observed or unexpired, for good once filled; its signed quote from publication until the end. |
| SettledVolume.SettledVolumeIsUnbounded | services/rfq/src/coordinator.ts:622-633 | A fill releases its lease without lowering the availability: for every availability and every n there is a run whose FILLED leases add up to n times the availability. |
| SampleTerms.TheTermsAreWellFormed | services/rfq/src/coordinator.ts:347-360 | The scope, request, observation and signature of the concrete runs pass the coordinator's shape checks. |
| SettledVolume.CycleFills | services/rfq/src/coordinator.ts:505-635 | Reserving the whole availability, publishing, observing and settling the fill leaves the bucket free for the next such cycle. |
| QuoteStoreTheorems.CorruptionIsUnreachable | services/rfq/src/coordinator.ts:875-884 | On a reachable store no transaction reports a missing bucket, an underflow or a missing observation. |
| QuoteStoreTheorems.RefusedIffNoRoom | services/rfq/src/coordinator.ts:512-522 | A new key on a configured bucket is refused for inventory if and only if the availability is less than the amount plus the leases that are observed or unexpired at the request's time; otherwise it is booked. |
| QuoteStoreTheorems.NonceAllocation | services/rfq/src/coordinator.ts:845-862 | In every reachable state the nonces of a scope are exactly 1 to the last one in creation order, and no two records of a scope share a nonce or an idempotency key. |
| QuoteStoreTheorems.RunKeeps | services/rfq/src/coordinator.ts:727-731 | Any run of transactions, failed ones included, keeps the store invariant and only evolves the store. |
| QuoteStoreTheorems.CommitKeeps | services/rfq/src/coordinator.ts:727-731 | So does each single one. |
| QuoteStoreTheorems.FreshInv | services/rfq/src/coordinator.ts:674-694 | A freshly configured store satisfies the invariant. |
| QuoteStoreInvariants.TransactionSound | services/rfq/src/coordinator.ts:505-668 | Every transaction keeps the invariant, reports no corruption, and changes each record only as its guard allows (key or nonce, request hash, time, matching quote, confirmations). |
| QuoteStoreInvariants.ReserveSound | services/rfq/src/coordinator.ts:505-551 | The same for a reservation. |
| QuoteStoreInvariants.MarkSignedSound | services/rfq/src/coordinator.ts:553-576 | The same for accepting a signature. |
| QuoteStoreInvariants.MarkSignFailedSound | services/rfq/src/coordinator.ts:578-590 | The same for a signing failure. |
| QuoteStoreInvariants.MarkObservedSound | services/rfq/src/coordinator.ts:592-609 | The same for an observed settlement. |
| QuoteStoreInvariants.ReconcileSound | services/rfq/src/coordinator.ts:611-635 | The same for a reconciliation. |
| QuoteStoreInvariants.ExpireSound | services/rfq/src/coordinator.ts:637-652 | The same for an expiry. |
| QuoteStoreInvariants.RevokeSound | services/rfq/src/coordinator.ts:654-668 | The same for a revocation. |
| QuoteStoreInvariants.TerminateKeeps | services/rfq/src/coordinator.ts:875-884 | Ending a record on an edge of the graph cannot fail: the counter has what the lease holds, and the invariant is kept. |
| QuoteStoreInvariants.SweepKeeps | services/rfq/src/coordinator.ts:864-873 | The expiry sweep never fails and expires exactly the unfinished, unobserved records whose lease ran out. |
| QuoteStoreInvariants.SweepLeavesHeld | services/rfq/src/coordinator.ts:864-873 | After a sweep a bucket's counter is the sum of the leases observed or unexpired before it. |
| QuoteStoreInvariants.BookKeeps | services/rfq/src/coordinator.ts:522-548 | Booking a fresh key where there is room keeps counters exact, nonces dense and keys unique. |
| QuoteStoreInvariants.NoncesIncrease | services/rfq/src/coordinator.ts:525-526 | Of two records of a scope the later carries the larger nonce. |
| QuoteLifecycle.HistoryBounded | services/rfq/src/coordinator.ts:47-58 | A path of the lifecycle graph has at most six entries plus two per reorganisation. |
| QuoteStore.ReleaseLease | services/rfq/src/coordinator.ts:875-884 | Gives a lease back to its bucket once, or fails on a missing bucket or an underflow. |
| QuoteStore.Close | services/rfq/src/coordinator.ts:637-652 | Ends a record and releases its lease with the matching reason, as the specification says. |
| QuoteStore.ReleaseExpiredLeases | services/rfq/src/coordinator.ts:864-873 | The loop over the records computes the specified sweep. |
| QuoteStore.SweepFailureSticks | services/rfq/src/coordinator.ts:864-873 | Leaving the loop at the first failure reports what the whole sweep would. |
| QuoteStore.LocalFileQuoteCoordinatorStore.constructor | services/rfq/src/coordinator.ts:674-686 | A new store has no records and nothing reserved, and satisfies the invariant. |
| QuoteStore.Reopen | services/rfq/src/coordinator.ts:689-707 | An existing file is accepted if and only if every configured bucket is there with the configured availability; its records are taken over unchanged. |
| QuoteStore.RestartIsAccepted | services/rfq/src/coordinator.ts:689-707 | After any run a restart with the same configuration is accepted and takes over a store that satisfies the invariant. |
| QuoteStore.LocalFileQuoteCoordinatorStore.Load | services/rfq/src/coordinator.ts:747-756 | A loaded store holds exactly what was persisted. |
| QuoteStore.LocalFileQuoteCoordinatorStore.ReserveOrReturnExisting | services/rfq/src/coordinator.ts:505-551 | Commits exactly the reservation transaction, or leaves the state as it was and reports its error; keeps the invariant. |
| QuoteStore.LocalFileQuoteCoordinatorStore.MarkSigned | services/rfq/src/coordinator.ts:553-576 | Commits exactly the publication transaction and returns its record or error; keeps the invariant. |
| QuoteStore.LocalFileQuoteCoordinatorStore.MarkSignFailed | services/rfq/src/coordinator.ts:578-590 | Commits exactly the signing-failure transaction; keeps the invariant. |
| QuoteStore.LocalFileQuoteCoordinatorStore.MarkObserved | services/rfq/src/coordinator.ts:592-609 | Commits exactly the observation transaction; keeps the invariant. |
| QuoteStore.LocalFileQuoteCoordinatorStore.Reconcile | services/rfq/src/coordinator.ts:611-635 | Commits exactly the reconciliation transaction at the store's confirmation depth; keeps the invariant. |
| QuoteStore.LocalFileQuoteCoordinatorStore.Expire | services/rfq/src/coordinator.ts:637-652 | Commits exactly the expiry transaction; keeps the invariant. |
| QuoteStore.LocalFileQuoteCoordinatorStore.Revoke | services/rfq/src/coordinator.ts:654-668 | Commits exactly the revocation transaction; keeps the invariant. |
| QuoteStore.LocalFileQuoteCoordinatorStore.GetByIdempotencyKeyHash | services/rfq/src/coordinator.ts:670-672 | Returns a record with the scope and key if there is one, and nothing only if there is none. |
| PricingTheorems.BuyThenSellLoses | services/rfq-demo-backend/src/service.ts:138-192 | From any price, buying with x, recording that fill and selling back everything received returns strictly less than x. |
| PricingTheorems.SellThenBuyLoses | services/rfq-demo-backend/src/service.ts:138-192 | The mirrored trip, selling and buying back with the proceeds, returns strictly less of the asset. |
| PricingTheorems.PricePath | services/rfq-demo-backend/src/service.ts:188-192 | After any run of fills the price is exactly the initial ratio times the product of the impact factors over 10000; it is positive, and in lowest terms after each fill. |
| SuggestedTradeTheorems.QualifiesAtEveryPriceExactlyWhen | services/rfq-demo-backend/src/service.ts:151-165 | The suggested buy yields the minimum at every price if and only if the buffered minimum, and the first amount of each impact step beyond it, cover the minimum with their impact on top: no more checks on the configuration than the maximal impact has basis points. |
| SuggestedTradeTheorems.SuggestionsQualify | services/rfq-demo-backend/src/service.ts:151-165 | With a buffer of at least the maximal impact, at every price the suggested buy yields at least the minimum and the suggested sell is at least the minimum. |
| SuggestedTradeTheorems.SuggestionsQualifyWithNeededBuffer | services/rfq-demo-backend/src/service.ts:151-165 | The same at every price with a smaller buffer, if it covers the impact of the minimum with the maximal impact on top. |
| SuggestedTradeTheorems.ShippedScenarioQualifies | services/rfq-demo-backend/config/demo-scenario.json:20-40 | The shipped scenario, whose buffer is below its maximal impact, meets that condition, so its suggestions qualify at every price. |
| SuggestedTradeTheorems.SuggestionsQualifyWithinBuffer | services/rfq-demo-backend/src/service.ts:151-165 | At any price at which the impact of the suggested buy stays within the buffer, both suggestions qualify. |
| SuggestedTradeTheorems.SuggestedSellQualifies | services/rfq-demo-backend/src/service.ts:161 | The suggested sell is at least the minimum at every price. |
| SuggestedTradeTheorems.SmallBufferFallsShort | services/rfq-demo-backend/src/config.ts:398-404 | A configuration that passes the validator, the check of the profile that enforces the minimum included, whose suggested buy falls short of it at the initial price. |
| SuggestedTradeTheorems.RequiredBuyIsLeast | services/rfq-demo-backend/src/service.ts:155-158 | The required buy is the least input whose mid-price output reaches the buffered minimum. |
| SuggestedTradeTheorems.SuggestionsExactly | services/rfq-demo-backend/src/service.ts:153-165 | The suggested buy is the least that is no smaller than the default one and whose mid output reaches the minimum with the buffer on top; the suggested sell is the least such amount itself. |
| SuggestedTradeTheorems.DefaultsAcceptedExactly | services/rfq-demo-backend/src/config.ts:341-404 | The validator accepts the default trades if and only if each is worth at least one unit at the initial price and, where the minimum is enforced, the buy is worth the minimum and the sell is at least that. |
| PricingTheorems.ImpactInRange | services/rfq-demo-backend/src/service.ts:253-261 | The impact lies between one basis point and the configured maximum. |
| PricingTheorems.ImpactMonotone | services/rfq-demo-backend/src/service.ts:253-261 | A larger amount never has a smaller impact. |
| PricingTheorems.ImpactIsLeast | services/rfq-demo-backend/src/service.ts:253-261 | The impact is the least whole number of basis points, within its clamp, that covers the amount's proportional share. |
| PricingTheorems.RoundingUpIsLeast | services/rfq-demo-backend/src/service.ts:275-277 | Rounding up yields the least quotient whose multiple reaches the dividend. |
| PricingTheorems.PayoutIsFloor | services/rfq-demo-backend/src/service.ts:144-146 | The payout is the largest amount whose impact-adjusted value the mid amount covers. |
| PricingTheorems.TradePaysExactly | services/rfq-demo-backend/src/service.ts:138-151 | A trade pays the largest positive amount that the mid amount covers with the impact of the asset amount, the received one for a buy and the paid one for a sell; it fails if there is none. |
| PricingTheorems.MidIsFloor | services/rfq-demo-backend/src/service.ts:139-141 | The mid amount is the largest that the paid weight covers. |
| PricingTheorems.ImpactShrinks | services/rfq-demo-backend/src/service.ts:144-146 | An impact strictly shrinks a positive amount. |
| PricingTheorems.AmountOutIsNotMonotone | services/rfq-demo-backend/src/service.ts:138-149 | More in can mean less out: one unit more crosses an impact step and pays 99 units less. |
| PricingTheorems.PayoutsFollowWeighedMids | services/rfq-demo-backend/src/service.ts:138-149 | Of any two inputs the one with the larger mid amount, weighed with the impacts, is paid at least as much, and conversely: buys compare mid times the other's surcharge, sells mid less its own impact. This says which impact steps lose. |
| PricingTheorems.BuysAreMonotoneExactlyWhen | services/rfq-demo-backend/src/service.ts:138-149 | Buying is monotone at every price if and only if no step of the impact makes a buy lose: fewer checks on the configuration than the maximal impact has basis points. |
| PricingTheorems.SellsAreMonotoneExactlyWhen | services/rfq-demo-backend/src/service.ts:138-149 | Selling is monotone at a price if and only if no step of the impact makes a sell lose there. |
| PricingTheorems.ImpactChangesAtSteps | services/rfq-demo-backend/src/service.ts:253-261 | The impact changes from one amount to the next only at the largest amount each number of basis points covers. |
| PricingTheorems.AmountOutMonotoneWithinAStep | services/rfq-demo-backend/src/service.ts:138-149 | In particular more in never means less out while the impact stays on one step. |
| RoundTripTheorems.BuyThenSellInPartsLoses | services/rfq-demo-backend/src/service.ts:138-192 | One buy, then selling what it received in any number of parts with every fill moving the price, returns strictly less than was paid. |
| RoundTripTheorems.SellThenBuyInPartsLoses | services/rfq-demo-backend/src/service.ts:138-192 | One sell, then buying back with its proceeds in any number of parts, returns strictly less asset. |
| TripLengthTheorems.TripsAlwaysLoseExactlyWhen | services/rfq-demo-backend/src/service.ts:138-192 | Trips opened by n trades on one side and closed by one trade lose in every configuration, at every price and for all amounts, if and only if n is at most two for buys and at most one for sells; the same holds when only accepted configurations that enforce the minimum amount are counted, from their initial price and with trades that reach it. |
| TripLengthTheorems.TwoBuysThenSellLoses | services/rfq-demo-backend/src/service.ts:138-192 | Two buys of any sizes at any price, closed by one sell of everything, return strictly less than they cost. |
| TripLengthTheorems.ThreeBuysThenSellCanWin | services/rfq-demo-backend/src/service.ts:138-192 | Three buys of at least the minimum amount and one sell, in an accepted configuration that enforces it, bring back 1069368 for 1022602. |
| TripLengthTheorems.TwoSellsThenBuyCanWin | services/rfq-demo-backend/src/service.ts:138-192 | Two sells and one buy with the proceeds bring back 1012029 for 1010000 of the asset. |
| TripLengthTheorems.LongTripCanWin | services/rfq-demo-backend/src/service.ts:138-192 | For every larger number of opening trades there is a winning trip. |
| RoundTripTheorems.PartsPayLess | services/rfq-demo-backend/src/service.ts:138-192 | Trading in parts pays less than the parts are worth at any rate at least as good as the first one. |
| DemoMarketPricing.FillMovesPrice | services/rfq-demo-backend/src/service.ts:188-192 | A fill multiplies the price by exactly its factor, one plus the impact for a buy and one minus it for a sell, keeps it positive and leaves it in lowest terms. |
| DemoMarketPricing.DemoMarket.constructor | services/rfq-demo-backend/src/service.ts:115-124 | A market starts at the configured price with no fills. |
| DemoMarketPricing.DemoMarket.RecordFill | services/rfq-demo-backend/src/service.ts:167-202 | Moves the price by exactly the fill's factor, records impact, direction and history points, and fails without effect when both amounts are zero; the price stays that of the fills since the last reset. |
| DemoMarketPricing.DemoMarket.Reset | services/rfq-demo-backend/src/service.ts:204-224 | Returns to the configured price with no fills. |
| DemoMarketPricing.DemoMarket.Normalize | services/rfq-demo-backend/src/service.ts:287-290 | Reduces a ratio with the divisor the loop finds. |
| Ratios.GreatestCommonDivisor | services/rfq-demo-backend/src/service.ts:268-273 | The loop ends and computes the recursive greatest common divisor. |
| Ratios.GcdDivides | services/rfq-demo-backend/src/service.ts:268-273 | The result is positive and divides both numbers. |
| Ratios.GcdGreatest | services/rfq-demo-backend/src/service.ts:268-273 | Every common divisor divides the result. |
| Ratios.QuotientsCoprime | services/rfq-demo-backend/src/service.ts:287-290 | Dividing both numbers by it leaves none but 1 in common. |
| Ratios.NormalizeKeepsRatio | services/rfq-demo-backend/src/service.ts:287-290 | Normalisation keeps the ratio and reaches lowest terms. |
| CanonicalTheorems.PrintsAlikeIffEquivalent | services/compliance-data/src/canonical.ts:4-10 | Two values print the same string if and only if they are equal up to key order, dropped undefined fields, and undefined printed as null elsewhere. |
| ReaderTheorems.PrintParses | services/compliance-data/src/canonical.ts:4-10 | The canonical text of a value is JSON text: a reader of RFC 8259, written over literal code units and without the printer, reads it as a value equal up to key order, dropped undefined fields and undefined as null, which prints to the same text. |
| ReaderTheorems.ValueReads | services/compliance-data/src/canonical.ts:4-10 | The same with any text behind it that cannot continue a number: what follows is left as it is. |
| ReaderTheorems.ContentsRead | services/compliance-data/src/canonical.ts:6 | An escaped string reads back as the string, up to its closing quote. |
| ReaderExtension.ValueExtends | services/compliance-data/src/audit.ts:10-13 | What a text is read as does not depend on what follows it, unless it ends in a number. |
| JsonText.EscapesExactly | services/compliance-data/src/canonical.ts:6 | The escapes are those of section 25.5.2.3 of ECMA-262: the short ones, four lower-case hexadecimal digits for other control characters and lone surrogates, and none else. |
| JsonText.EscapeUnfolds | services/compliance-data/src/canonical.ts:6 | A string is escaped unit by unit, surrogate pairs kept as they are. |
| JsonText.LessExactlyWhen | services/compliance-data/src/canonical.ts:9 | Keys are ordered as texts: by their first differing code unit, or as prefix before the longer one. |
| CanonicalTheorems.PrintReadable | services/compliance-data/src/canonical.ts:4-10 | A printed value can be read off any continuation: equal texts mean equivalent values and equal remainders. |
| CanonicalTheorems.EquivPrints | services/compliance-data/src/canonical.ts:4-10 | Equivalent values print alike. |
| CanonicalTheorems.ItemsReadable | services/compliance-data/src/canonical.ts:7 | The same for the items of an array: equal in number and pairwise equivalent. |
| CanonicalTheorems.FieldsReadable | services/compliance-data/src/canonical.ts:9 | The same for the fields of an object: equal keys in equal order with equivalent values. |
| CanonicalJson.SortedKeysAreHeld | services/compliance-data/src/canonical.ts:9 | The printed keys are exactly those whose value is not undefined. |
| JsonText.StringReadable | services/compliance-data/src/canonical.ts:6 | A string printed as section 7 of RFC 8259 asks, lone surrogates escaped, determines the string and where it ends. |
| JsonText.IntReadable | services/compliance-data/src/canonical.ts:6 | A printed integer determines the integer and where it ends. |
| JsonText.SortKeysSorts | services/compliance-data/src/canonical.ts:9 | Sorting distinct keys puts them in strictly increasing order of UTF-16 code units. |
| JsonText.IncreasingUnique | services/compliance-data/src/canonical.ts:9 | Only one strictly increasing sequence has a given set of keys. |
| AuditLog.TamperEvidence | services/compliance-data/src/audit.ts:17-46 | Two valid logs that end in the same record hash, with no digest collision among their own texts, have the same length and canonically equal records throughout. |
| AuditLog.RunsAreTamperEvident | services/compliance-data/src/audit.ts:17-46 | Two runs of appends that end in the same record hash, with no collision among their texts, appended equally many records, canonically equal one by one. |
| AuditLog.AppendsAreValid | services/compliance-data/src/audit.ts:17-26 | Every run of appends leaves a valid log of exactly its records, in order. |
| AuditLog.RereadStaysValid | services/compliance-data/src/audit.ts:10-15 | A valid chain stays valid when its records come back canonically equal, as from their stored lines. |
| AuditLog.AppendedLogReopens | services/compliance-data/src/audit.ts:10-15 | The log of any run of appends, reread with canonically equal records, is accepted again. |
| AuditLog.SealReadable | services/compliance-data/src/audit.ts:20 | Equal sealed texts mean equal position, equal link and equivalent record. |
| AuditLog.HashChainAuditLog.Append | services/compliance-data/src/audit.ts:17-26 | Appends exactly one entry that links to the log, so a valid log stays valid, and that entry's line to the file if there is one; a refused record changes nothing. |
| AuditLog.HashChainAuditLog.AssertValid | services/compliance-data/src/audit.ts:35-46 | Accepts if and only if the chain is valid; otherwise names the first entry at which it stops being so. |
| AuditLog.Open | services/compliance-data/src/audit.ts:10-15 | A log is opened if and only if its file reads as entries and their chain is valid, with exactly those entries; otherwise the error says which of the two failed and, for the chain, where. |
| AuditRestart.LogSurvivesRestart | services/compliance-data/src/audit.ts:10-26 | The file of any run of appends, read back line by line, is accepted as a valid chain of as many records, equal up to key order, dropped undefined fields and undefined as null, ending in the same hash. |
| AuditRestart.ReopensExactlyWhen | services/compliance-data/src/audit.ts:10-26 | A log opened from a file is accepted again after one more append if and only if the file was empty or ended its last line. |
| AuditRestart.CutOffLogIsLost | services/compliance-data/src/audit.ts:10-26 | A file that does not: the line of one entry without its line feed opens as a valid log, and no longer opens after one more append. |
| AuditRestart.AppendReadsExactlyWhen | services/compliance-data/src/audit.ts:11-13 | A file that reads as entries still does after an append if and only if it was empty or ended its last line. |
| AuditRestart.FileReads | services/compliance-data/src/audit.ts:10-23 | The file of any entries reads back as those entries, around equivalent records. |
| AuditRestart.SealReads | services/compliance-data/src/audit.ts:20 | The text hashed for an entry is JSON text of an object with its position, link and record under those names. |
| AuditRestart.ZeroHashExactly | services/compliance-data/src/audit.ts:5 | The first entry links to 0x and sixty-four zeros. |
| AuditLog.ExtendChain | services/compliance-data/src/audit.ts:17-26 | A valid chain stays valid when an entry that links to it is added. |
| AuditLog.ChainStep | services/compliance-data/src/audit.ts:37-45 | A chain is valid one entry further if and only if that entry checks out. |
| Pacing.RateIsBounded | services/testnet-rfq-demo/src/rpc.ts:18-20 | For all clock readings and back-offs, with batches of at most the batch size, the items whose reserved slots start in any half-open 1000 ms window number fewer than the rate plus one batch, and at most 1.5 times the rate. |
| Pacing.WindowBound | services/testnet-rfq-demo/src/rpc.ts:46-58 | The window bound for spaced batches of any maximal size. |
| Pacing.ItemsFitInTime | services/testnet-rfq-demo/src/rpc.ts:46-58 | Items that start from an instant on fit, at the rate, between it and the next free instant. |
| Pacing.ScheduleIsSpaced | services/testnet-rfq-demo/src/rpc.ts:42-56 | Every schedule spaces its batches: each waits for the slots of the one before it. |
| Pacing.OneAnswerEach | services/testnet-rfq-demo/src/rpc.ts:27-44 | If each call answers every pending id once, exactly one response per original item is returned, however often items were rate limited. |
| Pacing.ResendsOnlyLimited | services/testnet-rfq-demo/src/rpc.ts:27-44 | At most one call more than the allowed retries is made, no batch is larger than the original, and an item is in the next batch if and only if it was in the one before and some answer to it carried the error code -32011. |
| Pacing.StopsExactlyWhen | services/testnet-rfq-demo/src/rpc.ts:35-39 | Another batch follows if and only if retries are left and some item of the batch was answered with that code. |
| Pacing.ReturnsExactly | services/testnet-rfq-demo/src/rpc.ts:37-40 | What is returned: every answer to the last batch, and of the earlier ones exactly those to items that were not answered with that code. |
| Pacing.LimitedOnlyAtTheEnd | services/testnet-rfq-demo/src/rpc.ts:37-39 | If each call answers every pending id once, an answer with that code is returned only from the last allowed attempt. |
| Pacing.SlotIsLeast | services/testnet-rfq-demo/src/rpc.ts:56 | A batch occupies the least whole number of milliseconds in which its items fit at the rate. |
| Pacing.BatchSizeIsHalfRate | services/testnet-rfq-demo/src/rpc.ts:20 | The batch size is the largest that is at most half the rate, or one. |
| Pacing.BackOffDelays | services/testnet-rfq-demo/src/rpc.ts:42 | After a back-off no batch starts before its delay is over, whatever else is reserved. |
| Pacing.PacedJsonRpcProvider.ReserveSlots | services/testnet-rfq-demo/src/rpc.ts:46-58 | Claims the next slots exactly when the wait is within the budget; otherwise the schedule is left as it was. |
| Pacing.PacedJsonRpcProvider.Send | services/testnet-rfq-demo/src/rpc.ts:27-44 | The loop returns the specified answers after sending the specified batches; when it times out it has sent a proper prefix of them, and when the transport throws, the batch it threw on is the last one sent. The schedule gains exactly the batches sent: a reservation at each even clock reading, a back-off at the odd one after it. |
| Pacing.SendStaysAtMost | services/testnet-rfq-demo/src/rpc.ts:18-58 | A send whose payload is within the batch size keeps the schedule to batches of that size, which the rate bound asks for. |
| Pacing.PacedJsonRpcProvider.DelayNext | services/testnet-rfq-demo/src/rpc.ts:42 | Pauses the schedule after rate limiting and claims no slots. |
| RateLimiter.AtMostTwicePerWindow | services/rfq-host/src/server.ts:219-239 | With a clock that never runs backwards, a key is admitted at most twice the limit in any half-open interval of one window's length. |
| RateLimiter.AtMostLimitPerBucket | services/rfq-host/src/server.ts:219-239 | A key's latest bucket admits at most the limit. |
| RateLimiter.RefusedOnlyAtLimitOrCapacity | services/rfq-host/src/server.ts:219-239 | A request is refused for its limit if and only if its live bucket already admitted the full limit, and for capacity if and only if it has no live bucket and the live ones fill the cap. |
| RateLimiter.RetryAfterIsLeast | services/rfq-host/src/server.ts:231-236 | The wait advised on a refusal for the limit is the least whole number of seconds, at least one, after which the key's window is over. |
| RateLimiter.CapacityAdviceIsLeast | services/rfq-host/src/server.ts:225-227 | The wait advised on a capacity refusal is the least whole number of seconds, at least one, that covers a whole window. |
| RateLimiter.BucketsAreCapped | services/rfq-host/src/server.ts:219-249 | Whatever the clock does, the live buckets never exceed the cap. |
| RateLimiter.RunIsCounted | services/rfq-host/src/server.ts:219-249 | The counting invariant of a key over any run: what its latest bucket admitted, what earlier ones did, and how they overlap. |
| RateLimiter.InMemoryRateLimiter.Check | services/rfq-host/src/server.ts:219-239 | Sweeps, counts and decides exactly as specified. |
| RateLimiter.InMemoryRateLimiter.Sweep | services/rfq-host/src/server.ts:245-249 | Deleting key by key leaves exactly the buckets that have not expired. |
| AcquisitionTheorems.ValidIffEveryWalkEnds | services/compliance-data/src/acquisition.ts:32-41 | A snapshot of accepted lots is VALID if and only if every lot's lineage walk reaches a primary or secondary lot, and LINEAGE_BROKEN otherwise. |
| AcquisitionTheorems.ClockIsLatestRoot | services/compliance-data/src/acquisition.ts:39-41 | The clock of a VALID snapshot is the latest own clock among exactly the root lots, and not later than the observation. |
| AcquisitionTheorems.ClockCoversPayment | services/compliance-data/src/acquisition.ts:96 | The clock of a VALID snapshot is no earlier than the acquisition and the payment of every root lot, and is one of the two of some root lot. |
| AcquisitionTheorems.RootsExactly | services/compliance-data/src/acquisition.ts:94-97 | A root is a primary or secondary lot that names no other; the other six sources inherit their clock. |
| AcquisitionTheorems.LotPassesExactlyWhen | services/compliance-data/src/acquisition.ts:64-81 | A lot passes its checks if and only if its identifier is not blank, it is of the queried holder and asset in any letter case, its quantity is positive, its times are timestamps up to the observation, and it names a parent only where its source type has one. |
| AcquisitionTheorems.LotFaultExactly | services/compliance-data/src/acquisition.ts:64-81 | Otherwise it is reported under the first of these that fails, in the order of the checks. |
| AcquisitionTheorems.CompilationReports | services/compliance-data/src/acquisition.ts:18-62 | A compilation succeeds if and only if request and lots pass their checks and the expiry is in range, and reports the terms asked for, an expiry one time to live later, MISSING exactly without lots, and no clock unless VALID; otherwise the error names the first check that fails. |
| AcquisitionTheorems.OrderDoesNotMatter | services/compliance-data/src/acquisition.ts:18-42 | Rearranging the lots changes neither acceptance nor status, clock or expiry. |
| Acquisition.ResolvesIffReachesRoot | services/compliance-data/src/acquisition.ts:89-103 | If a lineage walk reaches a root, resolution ends and yields that root's own clock. |
| Acquisition.ResolvedReachesRoot | services/compliance-data/src/acquisition.ts:89-103 | If resolution yields a clock, some walk reaches a root that has it. |
| Acquisition.CyclesReachNoRoot | services/compliance-data/src/acquisition.ts:94 | A walk that comes back to its start reaches no root, so cutting cycles off loses nothing. |
| Acquisition.LineageWalk.Resolve | services/compliance-data/src/acquisition.ts:89-103 | The recursion that adds a lot to the visited set and removes it afterwards ends, computes the specified clock and leaves the set as it found it. |
| Acquisition.Compile | services/compliance-data/src/acquisition.ts:18-42 | The loops compute the specified snapshot or report the fault of the first lot that has one. |
| Acquisition.FaultlessUnordered | services/compliance-data/src/acquisition.ts:25-30 | No fault is found in order if and only if every lot passes its checks and identifiers are distinct. |
| Calendar.WindowIsThreeMonths | services/compliance-data/src/state.ts:60-68 | For every instant of the date range the window starts at the same time of day, on the clamped day of the third previous month, 89 to 92 whole days earlier. |
| Calendar.StepsReachWindowStart | services/compliance-data/src/state.ts:61-67 | Stepping to the first of the month, three months back and to the clamped day lands on that start. |
| Calendar.ThreeCalendarMonthsBefore | services/compliance-data/src/state.ts:60-68 | The method that steps a local date computes the window's start. |
| Calendar.DateRoundTrip | services/compliance-data/src/state.ts:61-66 | Day numbers survive conversion to a date and back, as section 21.4.1 of ECMA-262 defines them. |
| Calendar.MakeDayRoundTrip | services/compliance-data/src/state.ts:61-66 | Valid dates survive conversion to a day number and back. |
| Calendar.YearLength | services/compliance-data/src/state.ts:61-66 | Leap years of the Gregorian calendar have 366 days, the others 365. |
| Calendar.MonthsExactly | services/compliance-data/src/state.ts:61-66 | Month lengths are those of the Gregorian calendar. |
| Calendar.EpochExactly | services/compliance-data/src/state.ts:61 | Day 0 is the first of January 1970. |
| Calendar.RangeExactly | services/compliance-data/src/state.ts:61 | The last representable second is that of day 100,000,000, as section 21.4.1 of ECMA-262 has it. |
| Calendar.ThreeMonthsAreDays | services/compliance-data/src/state.ts:62-66 | Three calendar months with a clamped day are 89 to 92 days. |
| Ledger.RollingVolumeOfRun | services/compliance-data/src/state.ts:30-36 | Over any run with replays and rejected conflicts, rolling volume sums, exactly once, the first well-formed call of each execution that names the group within the three calendar months, at the number its amount is the decimal notation of. |
| Ledger.CommitsAreFirst | services/compliance-data/src/state.ts:15-28 | What is held under an execution identifier is its first well-formed call; replays and conflicts leave no trace. |
| Ledger.AppliedIffFirst | services/compliance-data/src/state.ts:15-28 | A call is applied if and only if it is well formed and the first such of its execution. |
| Ledger.CommitPassesExactlyWhen | services/compliance-data/src/state.ts:48-58 | A call is well formed if and only if its execution identifier is a 32-byte value, its seller group is not blank, its time is a timestamp, its amount is the decimal notation of a positive integer, and its updates name distinct groups that are not blank. |
| Ledger.CommitFaultExactly | services/compliance-data/src/state.ts:48-58 | Otherwise it is refused for the first of these that fails. |
| Ledger.ReceiptTells | services/compliance-data/src/state.ts:15-28 | A well-formed call is applied if it is the first of its execution, recognised as a replay if it repeats that one, and rejected as conflicting if it differs from it. |
| Ledger.VolumesAreAccepted | services/compliance-data/src/state.ts:24-25 | The recorded volumes are exactly those of the first well-formed calls, in order. |
| Ledger.AcceptedAreDistinct | services/compliance-data/src/state.ts:18-22 | Accepted executions carry distinct identifiers and are calls of the run. |
| Ledger.UpdatesReplaceTheirGroups | services/compliance-data/src/state.ts:26 | A commit's holder updates replace exactly the entries of the groups they name. |
| Checks.DecimalDenotes | services/compliance-data/src/canonical.ts:20-25 | The value of the decimal notation of a positive integer, by quotient and remainder, is that integer, and the notation passes the check. |
| Checks.DecimalsAreWritten | services/compliance-data/src/canonical.ts:20-25 | Every text that passes the check is the decimal notation of a positive integer, its value. |
| Checks.HexShapes | services/compliance-data/src/canonical.ts:27-33 | An address is 0x and forty hexadecimal digits of either case, a 32-byte value sixty-four. |
| Checks.TimestampsExactly | services/compliance-data/src/canonical.ts:16-18 | Timestamps are the positive integers below 2 to the 53rd. |
| Checks.LowerIgnoresCase | services/compliance-data/src/acquisition.ts:67 | Lower case tells two texts apart exactly when they differ, somewhere, in more than the case of an ASCII letter. |
| Ledger.PersonGroupLedger.Commit | services/compliance-data/src/state.ts:15-28 | Moves the ledger exactly as specified: applied, recognised as a replay, or rejected without effect; the ledger stays that of the calls made. |
| Ledger.PersonGroupLedger.RollingThreeCalendarMonthVolume | services/compliance-data/src/state.ts:30-36 | Filters and sums the points in a loop; the result is the sum, over all calls made so far, of the first well-formed one of each execution that names the group in the window. A time that is not a timestamp is rejected. |
| KycTheorems.AppliedIffPrecedes | services/compliance-data/src/kyc.ts:280-295 | Evidence is applied if and only if it is valid, its assessment was not seen with other contents, and its slot is empty or holds evidence strictly below it: observed earlier, or at the same instant with a less grave status. |
| KycTheorems.ReplacedExactly | services/compliance-data/src/kyc.ts:280-295 | A submission is refused as invalid, conflicting or stale, confirmed by the evidence stored, or put into its slot and remembered for its assessment, each in exactly the case stated over slots and precedence. |
| KycTheorems.VerdictExactly | services/compliance-data/src/kyc.ts:175-273 | The whole verdict of a refresh: eligible if it takes every hurdle, and else the first one it missed, in the order malformed, provider, incompatible, binding, freshness, clock, audit, store, facts; what the store then holds; and every audit, store call and incident in order. |
| KycTheorems.IneligibleExactlyWhen | services/compliance-data/src/kyc.ts:444-451 | Each reason against eligibility, if and only if, over the status and facts of the assessment. |
| KycTheorems.SameHashExactly | services/compliance-data/src/kyc.ts:304-308 | Two assessments share their evidence hash if and only if they agree in every field, hexadecimal ones in any letter case. |
| KycTheorems.ValidEvidenceExactly | services/compliance-data/src/kyc.ts:344-353 | Evidence is valid if and only if its assessment is proper, its time a timestamp, its verdict that of the facts and its hash that of the assessment with hexadecimal fields in lower case. |
| KycTheorems.IdentifierShapes | services/compliance-data/src/kyc-spi.ts:5-6 | The shapes of provider identifiers and schema versions, and of jurisdictions (kyc.ts:103), position by position. |
| KycTheorems.SubmissionAdvances | services/compliance-data/src/kyc.ts:453-463 | A submission leaves each slot as it was or puts strictly higher evidence there. |
| KycTheorems.RunAdvances | services/compliance-data/src/kyc.ts:280-295 | So does any run of submissions. |
| KycTheorems.CurrentIsMaximum | services/compliance-data/src/kyc.ts:280-295 | Without conflicting assessments, each slot ends up with a submission that none of its valid submissions outranks. |
| KycTheorems.ArrivalOrderIrrelevant | services/compliance-data/src/kyc.ts:280-295 | Hence the arrival order decides neither which slots are filled nor how high their evidence ranks. |
| KycTheorems.RevocationHolds | services/compliance-data/src/kyc.ts:214-251 | Once revoked evidence observed at t is stored, then whatever is submitted later, no refresh of that slot reports eligibility from evidence observed at or before t. |
| KycTheorems.EligibleExactlyWhen | services/compliance-data/src/kyc.ts:175-252 | On every store that submissions can produce, a refresh reports eligibility if and only if nothing over request, assessment, binding and freshness makes it unfit, no fact speaks against the subject, a strict audit succeeds, and the slot holds the same assessment to the letter or is outranked. |
| KycTheorems.OtherLetterCaseConflicts | services/compliance-data/src/kyc.ts:355-370 | While a slot holds the same assessment in other letter case, a refresh that everything else speaks for ends in a store conflict and changes nothing. |
| KycTheorems.CapitalsConflict | services/compliance-data/src/kyc.ts:355-370 | Such a store and refresh, with the subject submitted in capitals. |
| KycTheorems.FailuresRaiseOneIncident | services/compliance-data/src/kyc.ts:254-273 | With an incident hook every reported failure ends in exactly one incident naming its reason, and an eligible report raises none. |
| KycTheorems.SubmissionsKeepStoreOk | services/compliance-data/src/kyc.ts:280-295 | The invariant these results assume holds after any submissions to an empty store. |
| KycTheorems.RefreshKeepsStoreOk | services/compliance-data/src/kyc.ts:175-252 | It survives every refresh. |
| KycTheorems.EligibleReport | services/compliance-data/src/kyc.ts:241-251 | An eligible report is fresh, rests on active, clear and verified facts, is what the slot now holds, and outranks what the slot held if that was something else. |
| KycTheorems.AuditPrecedesPublication | services/compliance-data/src/kyc.ts:223-243 | Under strict auditing an eligible report was audited successfully before the store was touched, and nothing else happened. |
| KycTheorems.RefreshIsSubmission | services/compliance-data/src/kyc.ts:175-252 | A refresh changes the store by its own snapshot's submission or not at all. |
| KycEvidence.InMemoryKycEvidenceStore.ReplaceCurrent | services/compliance-data/src/kyc.ts:280-295 | Replaces, confirms or refuses exactly as specified; a refusal changes nothing. |
| KycEvidence.KycEvidenceCoordinator.Refresh | services/compliance-data/src/kyc.ts:175-252 | The sequence of checks, audits and store calls has exactly the specified outcome, store and effects. |
| KycEvidence.KycEvidenceCoordinator.Fail | services/compliance-data/src/kyc.ts:254-273 | Reports the failure after one best-effort audit and one best-effort incident. |

## Left out

Stated weaker than the source, or under an assumption:

- CoordinatorTheorems.Agreement: digests of requests, keys and quotes are free constructors, so no two different inputs share a digest; signature verification is part of the signer's arbitrary answer.
- SettledVolume.SettledVolumeIsUnbounded: a run of store transactions; past 256 cycles its idempotency keys are longer than a coordinator takes.
- CoordinatorTheorems.Reachable: interleavings are of atomic store transactions; lock directories, stale-lock breaking and torn file writes are not modelled.
- CoordinatorTheorems.SuccessIsBackedByLease: a strict caller's evidence is reduced to the two freshness windows; snapshot identifiers, versions and the availability flag count as part of a failed price.
- QuoteStore.Reopen: the file's contents are a parameter; parsing it and its schema version are not modelled.
- AuditLog.RunsAreTamperEvident: the same assumption as for AuditLog.TamperEvidence.
- AuditLog.TamperEvidence: the digest is an arbitrary function, assumed to have no collision among the texts of the two logs compared.
- AuditLog.HashChainAuditLog.Append: the shape checks on a record are an arbitrary predicate, and every line reaches the file whole.
- AuditLog.Open: numbers in the file are read without fraction and exponent, and a line that is JSON text but not of an entry is told from a broken chain, where the original reports it as one.
- CanonicalTheorems.PrintsAlikeIffEquivalent: numbers are integers printed in decimal; fractions, exponents, negative zero and non-finite numbers are not modelled. Objects name no key twice, as in the original's runtime.
- Pacing.RateIsBounded: about reserved slots; when a timer fires and when a request reaches the wire are not modelled. The rate is an integer.
- Pacing.OneAnswerEach: assumes that the remote end answers each pending id once.
- Pacing.PacedJsonRpcProvider.Send: one call at a time; concurrent calls are covered by the results over arbitrary event sequences of the schedule.
- RateLimiter.InMemoryRateLimiter.Check: the route and principal are one key.
- Acquisition.Compile: lots come from outside, their source types are from the known set, their digest is a parameter, and identifiers are blank only by ASCII white space.
- Ledger.PersonGroupLedger.Commit: a commit's hash is a free constructor; identifiers are blank only by ASCII white space.
- KycEvidence.KycEvidenceCoordinator.Refresh: provider time-outs and errors are one arbitrary answer, and audits and incidents carry only verdict and reason.
- DemoMarketPricing.DemoMarket.RecordFill: recorded amounts are naturals.
- DemoMarketPricing.DemoMarket.Reset: the replayed chart series is a parameter.

Not modelled:

- Clock values past the safe-integer range in the coordinator: times are unbounded integers.
- Optional fields of a persisted quote record that every reservation fills in (nonce, lease), and metadata no decision reads (pricing snapshot identifier, module versions).
- Typed-data hashing, signature recovery and SHA-256 themselves.
- HTTP servers, request parsing, authentication, metrics, incident reporting and error classification.
- On-chain calls, settlement scripts, deployment tooling and user interfaces.
- Chart interpolation over floating point, and matching token pairs to a side in `price`.
- Holder counts of the ledger, personal-data key filtering of KYC payloads, and the surveillance wrapper of the audit log: one filter or one branch each.
- Reason-code tables, explanations and configuration validators beyond the ranges the proofs use.
