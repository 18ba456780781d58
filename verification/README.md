# Duckton: scheduling, money, admission and configuration, proved

Duckton is a peer-to-peer grid for DuckDB queries. A requester discovers workers, sends one
query to several of them, compares the hashes of their results, pays the winner out of an
escrow, and re-dispatches when an attempt does not deliver. This project models the parts of
that system whose correctness spans several functions or a whole state machine, and proves
what they promise for every input and every run.

| files | what they model |
|---|---|
| `Admission.dfy` | the worker's lock-free admission controller and the capacity governor, as an interleaving transition system over atomic steps |
| `Quorum.dfy`, `Verdicts.dfy` | the tally of committed result hashes; fault classes |
| `Attempt.dfy`, `AttemptSafety.dfy`, `Decisions.dfy`, `Dispatch.dfy` | one dispatch attempt: grouping replies, drift, quorum or fast mode, winner, receipts, penalties, settlement; what it guarantees, and how it ends read off the replies |
| `Redispatch.dfy`, `RunSafety.dfy`, `Routing.dfy` | the re-dispatch loop over attempts: preflight, exclusion, capacity floor, retry limits, how a run ends and what it pays |
| `Money.dfy`, `Metering.dfy` | escrow sizing and splitting in saturating 128-bit words; metered billing with a 64-bit median that aborts on overflow |
| `RateLimit.dfy` | the sliding-window limiter with first-in first-out eviction |
| `KeyedList.dfy`, `DenyList.dfy`, `Bindings.dfy` | tables kept as lists: the cached deny-list, the wallet registry and wallet-wide reputation |
| `ConfigTree.dfy`, `ConfigEdit.dfy`, `ConfigStore.dfy` | layered configuration trees, writes by path, and the persisted runtime layer |
| `Scope.dfy`, `SecretSql.dfy`, `QuotedPieces.dfy`, `SignedUrls.dfy` | credential scopes, generated `CREATE SECRET` text, and the presigned-URL rewrite |
| `Text.dfy`, `Numbers.dfy`, `Sequences.dfy`, `Identity.dfy`, `Wrappers.dfy` | shared vocabulary |

Objects that the source updates in place are classes (`TrustStore`, `RateLimiter`,
`BlocklistStore`, `Blocklist`, `BindingStore`, `ConfigStore`), loops are loops, and each is
proved equal to a function on values about which the properties are then stated.

Where the code does not have a property one would expect, the model keeps the code, a lemma
names an input, and another gives the exact condition under which the property holds:

- Fast mode takes the fastest hash as the answer and computes `verified` separately, so it can
  return a lone fast liar's hash as verified and charge an honest worker
  (`FastModeBlamesHonestWorkers`). A verified answer is the agreed hash exactly when the fastest
  commit carries it (`FastVerifiedAnswerIsExact`); the blame is exact in `FastModeBlameIsExact`.
- With fault attribution off, an attempt in which some commit drifted, or enough workers committed
  without agreeing, writes a provider-fault receipt to every committer, honest or not
  (`HonestCommitterIsBlamed`, exact per attempt in `HonestWorkersAreSafe` and over whole runs in
  `WholeRunIsFair`).
- A winner that commits and then stalls its transfer is not routed around, so the run ends at the
  no-progress guard (`StalledWinnerEndsTheRun`, exact in `NoProgressIsExact`).
- Input drift excludes nobody: a drift round is followed by another exactly while the retry limit,
  the wall clock and the token bucket allow it (`DriftContinuesExactly`, `DriftIsUnbounded`). It is
  the only kind of round that progress does not bound (`NonDriftRoundsAreBounded`).
- The median adds two 64-bit latencies the workers reported. Every build profile checks for overflow,
  so huge ones abort a metered attempt after its receipts are booked and before it settles
  (`HugeLatenciesAbort`, exact in `FastestWinnerPaysItsOwnTime` and `PaidAttemptStaysWithinCeiling`).
- The payouts of a settlement are added up in a checked 128-bit word, while the escrow they must fit
  saturates. So a settlement never pays out more than its escrow, but adding it up can abort, which
  it does exactly when the payouts do not fit the word (`SettlementNeverRejected`). With up to 9989
  agreeing verifiers no latencies, rates and sizes the code can meet bring that about
  (`ComputedBillsAddUp`); with 9990 the largest ones do (`HugeSettlementAborts`).
- The rate limiter forgets evicted callers (`EvictionOverrunsTheLimit`), so it keeps its limit for a
  population of callers exactly when they all fit its capacity, or when it refuses everyone
  (`FaithfulExactly`).
- The deny-list looks up an unblocked id untrimmed but deletes it trimmed
  (`UntrimmedFallsOutOfSync`), so cache and store stay together exactly when no stored id carries
  surrounding whitespace (`InSyncForEverExactly`).
- Merging trees is override by path, and is associative, only where leaves and tables do not clash
  (`TableOverLeafLosesIt`, `MiddleLeafDoesNotAssociate`; exact in `MergeIsOverrideExactly` and
  `MergeAssociatesExactly`). Writes are local exactly when they replace no runtime leaf that hid
  something of the base off their paths (`WriteUncovers`; exact in `WriteIsLocalExactly` and, for a
  list, `SetIsLocalExactly`).
- A lone id's score can change when a fresh id joins its wallet (`LoneScoreChanges`, exact in
  `FreshIdInherits`).
- The presigned rewrite also touches text between two literals, and the inside of another literal
  between doubled quotes, contrary to its comment (`TextBetweenLiteralsIsTouched`,
  `InsideOfALiteralIsTouched`, exact for any list of objects in `RewriteIsSimultaneousExactly`).

Conventions. Floating point is `real`. Hashes, ids and wallets matter only up to equality. The
clock, number parsing, upper-casing, validation of a merged configuration, attestation and trust
scores, and everything the network answers are parameters. The commit latency is the number the
worker's commit carries, which is what the code bills although its comment calls it
requester-observed. The escrow handle's `max_bid` is taken to be the amount opened. Loads of shared
atomics return arbitrary values, which covers every stale read. Selected worker ids are assumed
distinct only where a lemma says so.

## Model

| member | source | states |
|---|---|---|
| Admission.RollbackIsExact | crates/node/src/admission.rs:90-150 | whichever acquisition is refused, the source's rollback gives back exactly the resources acquired before it, each once |
| Admission.DropIsExact | crates/node/src/admission.rs:186-196 | dropping a lease gives back exactly what admitting it took, governor share included |
| Admission.StepBalances | crates/node/src/admission.rs:86-156 | one atomic operation of one caller moves each shared word by exactly the change in what that caller holds, within its cap and without wrapping |
| Admission.StepKeepsAccounted | crates/node/src/admission.rs:86-156 | any step of any caller (call, load, failed or successful exchange, rollback, drop) keeps every word equal to the sum of holdings and every limit respected |
| Admission.NoOversubscription | crates/node/src/admission.rs:86-156 | at every moment of every interleaving memory, threads, slots and governor words equal what in-flight callers and live leases hold, never over budget |
| Admission.WordsAreRequests | crates/node/src/admission.rs:86-156 | at every moment of every interleaving the memory words are the summed memory, the thread words the summed threads and the taken permits the number of the requests that hold them, each within its own configured limit and word width |
| Admission.ReleasesNeverUnderflow | crates/node/src/admission.rs:104-196 | no subtraction in a rollback or a drop ever underflows and no permit count exceeds its semaphore, in any interleaving |
| Admission.NetEffectIsHolding | crates/node/src/admission.rs:86-156 | over a whole run a call's net effect on each word is what it still holds; a refused or dropped call has had none |
| Admission.QuiescenceRestores | crates/node/src/admission.rs:86-196 | once every call has finished, all words are back where they started |
| Admission.SnapshotIsExact | crates/node/src/admission.rs:70-78 | each number `free()` reports is the budget minus what was held at the moment its load saw, though the three loads may see three moments |
| Admission.RolesShareTheMachine | crates/node/src/governor.rs:153-271 | own and served leases together fit the machine in memory, threads and slots; served leases never enter the memory kept for own work and fit the worker's budget |
| Admission.IdleWordsAreLeases | crates/node/src/admission.rs:86-196 | whenever no call is under way the worker's words are exactly the served leases and the governor's the leases of both roles, in memory, threads and slots |
| Admission.AdmitsIffFits | crates/node/src/admission.rs:86-156 | without contention a request is admitted if and only if it fits every limit |
| Admission.WorkerAdmitsExactly | crates/node/src/admission.rs:86-156 | without a governor and contention a job is admitted if and only if a slot is free and its memory and threads fit what the worker has left; they are then taken from those words and nothing else |
| Admission.GovernedAdmitsExactly | crates/node/src/admission.rs:86-156 | with a governor, if and only if it fits the worker, the machine and the memory served jobs may use; all seven words then move accordingly |
| Admission.OwnAdmitsExactly | crates/node/src/governor.rs:153-271 | a query of the node itself, if and only if it fits the machine, whatever served jobs may use |
| Quorum.OutcomeIsDetermined | crates/trust/src/canonical.rs:115-162 | verifiers that saw the same multiset of hashes report the same outcome, whatever the order |
| Quorum.Tally | crates/trust/src/canonical.rs:123-130 | the tally counts each hash exactly |
| Quorum.Scan | crates/trust/src/canonical.rs:130-162 | an arbitrary-order walk finds exactly the hashes at quorum and a most frequent one |
| Quorum.EvaluateQuorum | crates/trust/src/canonical.rs:123-162 | a hash is agreed exactly when it alone reaches quorum; two at quorum are a split without winner; the agreement is the highest count |
| Quorum.EvaluateQuorumOnCommits | crates/trust/src/canonical.rs:205-224 | the tally covers exactly the commits that did not read another snapshot, and drift counts the others |
| Quorum.NoDriftMeansAll | crates/trust/src/canonical.rs:205-224 | drift is zero exactly when every commit takes part in the tally |
| Verdicts.Classify | crates/trust/src/antiabuse.rs:30-71 | a reported message alone never amounts to a provider fault; resource patterns win over infeasibility patterns, anything else is inconclusive |
| Attempt.PartitionIsExact | crates/node/src/coordinator.rs:1969-1985 | committed, failed and silent hold every dispatched worker as often as it was dispatched |
| Attempt.Collect | crates/node/src/coordinator.rs:1969-1985 | the collecting loop yields the three groups in reply order and loses nobody |
| Attempt.FastestUpTo | crates/node/src/coordinator.rs:2186-2204 | the chosen index carries the asked hash at the lowest latency among the commits seen, the earliest of equals, and is absent only if nobody carries it |
| Attempt.SwapRemoveKeepsTheRest | crates/node/src/coordinator.rs:2238-2242 | taking the winner out leaves exactly the other committers |
| AttemptSafety.DistinctSelectionPartitions | crates/node/src/coordinator.rs:1969-1985 | with distinct selected ids the three groups are disjoint and cover the selection |
| AttemptSafety.CommittersStayEligible | crates/node/src/coordinator.rs:2052-2068 | a retry routes around exactly the dispatched workers that did not commit, never around a committer |
| AttemptSafety.OneReceiptPerWorker | crates/node/src/coordinator.rs:2349-2468 | a verified finished attempt writes exactly one receipt per dispatched worker |
| AttemptSafety.NoFaultNoBlame | crates/node/src/coordinator.rs:2349-2468 | a committer none of whose commits earns a fault verdict is not blamed, penalised or charged |
| AttemptSafety.FaultIsBlamed | crates/node/src/coordinator.rs:2349-2409 | a faulty commit on a comparable job is blamed and penalised |
| AttemptSafety.BlanketBlame | crates/node/src/coordinator.rs:2900-2931 | the receipts of a failed attempt blame its committers exactly when fault attribution is off |
| AttemptSafety.OnlyTheHonestHashProceeds | crates/node/src/coordinator.rs:2000-2110 | with fewer than `quorum` dishonest commits the only hash an attempt can proceed on is the honest one |
| AttemptSafety.HonestQuorumProceeds | crates/node/src/coordinator.rs:2089-2110 | `quorum` honest commits on the pinned snapshot carry the attempt |
| AttemptSafety.HonestWorkersAreSafe | crates/node/src/coordinator.rs:2000-2409 | quorum mode, fewer than `quorum` dishonest commits: a finished attempt returns the honest hash on at least `quorum` commits, no honest committer is penalised or charged, and one is blamed exactly when attribution is off and a commit drifted or enough committed without agreement |
| AttemptSafety.HonestCommitterIsBlamed | crates/node/src/coordinator.rs:2900-2931 | a concrete two-worker attempt that gives the honest committer a malformed-result receipt |
| AttemptSafety.StrangersAreNotMentioned | crates/node/src/coordinator.rs:2349-2468 | nobody but the dispatched workers gets a receipt or a penalty |
| AttemptSafety.FastModeBlameIsExact | crates/node/src/coordinator.rs:2163-2174 | in fast mode a committer is blamed exactly when it differs from the fastest commit on provably the same inputs, and charged exactly when besides a quorum existed and the result arrived |
| AttemptSafety.FastVerifiedAnswerIsExact | crates/node/src/coordinator.rs:2163-2174 | in fast mode a delivered answer is marked verified exactly when a quorum agreed, and is then the agreed hash exactly when the fastest commit carries it |
| AttemptSafety.FastModeBlamesHonestWorkers | crates/node/src/coordinator.rs:2163-2174 | a concrete attempt in which one fast liar wins as verified and an honest worker is charged |
| AttemptSafety.SettlementIsSound | crates/node/src/coordinator.rs:2187-2256 | settlement receives a committed winner that is the fastest on the agreed hash, and fewer verifiers than dispatched workers |
| Decisions.QuorumModeIsExact | crates/node/src/coordinator.rs:2070-2160 | the replies alone decide how a comparable attempt in quorum mode ends: drift with the number of stray commits; a split; the one hash that reached quorum; else infeasible, too big, disagreement or retry as enough failures are of one class and enough workers committed |
| Decisions.NoQuorumIsExact | crates/node/src/coordinator.rs:2106-2160 | without a quorum the classes of the failures are counted over all dispatched workers: infeasible first, then too big with the workers that ran out of memory, then disagreement if a quorum committed, else a retry |
| Decisions.ConsensusIsExact | crates/trust/src/antiabuse.rs:79-85 | failures are the job's fault exactly when at least two of at least two workers, and at least the clamped fraction of them, failed alike |
| Decisions.OomedAreExact | crates/node/src/coordinator.rs:2063-2072 | the reported workers are exactly those whose failure was classed as out of memory |
| Decisions.EverybodyOutOfMemory | crates/node/src/coordinator.rs:2127-2146 | if every one of at least two workers runs out of memory the attempt is too big and names them all |
| Decisions.OtherModesAreExact | crates/node/src/coordinator.rs:2074-2174 | a canary delivers exactly when its known answer was committed and arrived; a non-verifiable or fast attempt without drift delivers the fastest commit exactly when there is one and it arrived |
| Decisions.AnswerIsExact | crates/node/src/coordinator.rs:2534-2557 | an answer in quorum mode reports how many commits carry it, the quorum, and all committers |
| Decisions.SettlementIsExact | crates/node/src/coordinator.rs:2349-2409 | the winner is the fastest commit on the answer; the verifiers of a comparable job are all other commits on it, each with its latency, and nobody else |
| Decisions.PenalisedExactly | crates/node/src/coordinator.rs:2349-2468 | an attempt penalises exactly those whose commit contradicts the answer on the same inputs and, once it is verified, the silent; it charges the same ones when a verified result arrived, and nobody without an answer |
| Decisions.CommitterReceipt | crates/node/src/coordinator.rs:2349-2409 | every commit gets a receipt with its own hash, fingerprint and latency, correct exactly on the answer, incorrect exactly when it contradicts it, else inconclusive |
| Decisions.MissedReceiptsAreExact | crates/node/src/coordinator.rs:2410-2468 | once an answer is verified the silent are booked as timed out and the failed under the class of their failure |
| Decisions.FailureReceiptsAreExact | crates/node/src/coordinator.rs:2900-2940 | an attempt that gives up writes one inconclusive receipt per committer, malformed without fault attribution; a retry without a winner writes none; neither penalises or settles |
| AttemptSafety.PaidAttemptStaysWithinCeiling | crates/node/src/coordinator.rs:2497-2533 | whoever wins a paid attempt whose bids passed the preflight, it aborts exactly when the winner is metered and the middle latencies overflow; otherwise the escrow opened is within the configured ceiling, settling is never refused, adds up to at most the escrow, and bills a metered winner its own time |
| Dispatch.TrustStore.Penalize | crates/node/src/coordinator.rs:2403-2408 | a positive penalty is added to that worker alone; zero is not booked |
| Dispatch.Book | crates/node/src/coordinator.rs:2382-2408 | one receipt is appended; a provider fault is penalised and, on a verified job, counts as a broken commitment |
| Dispatch.BookAll | crates/node/src/coordinator.rs:2428-2468 | a loop of bookings leaves receipts, penalties and failers of the whole list, in order |
| Dispatch.RecordAll | crates/node/src/coordinator.rs:2470-2472 | the trust store gains exactly the given receipts, in order |
| Dispatch.PenaltiesAddUp | crates/node/src/coordinator.rs:2403-2408 | penalties accumulate: a worker's penalty grows by the amount times the number of times it is penalised, and not at all for an amount that is not positive |
| Dispatch.Judge | crates/node/src/coordinator.rs:2349-2468 | the accounting passes over winner, losers, silent and failed book exactly the receipts, penalties and broken commitments of the specification |
| Dispatch.DispatchAttempt | crates/node/src/coordinator.rs:1969-2557 | from the joined replies the code returns the specified result, or none when billing aborts, and leaves the trust store with exactly the specified receipts and penalties |
| Redispatch.RunRound | crates/node/src/coordinator.rs:1181-1202 | one round checks, dispatches and books: its result and the trust store afterwards are the specified ones |
| Redispatch.RunResilient | crates/node/src/coordinator.rs:1146-1424 | the loop with its variables and the trust store updated in place ends as, in as many attempts as, and with the receipts and penalties that the step-by-step transition function says |
| RunSafety.RunIsAChain | crates/node/src/coordinator.rs:1181-1421 | every run is a chain of continuing rounds, closed by one finishing round if it ended |
| RunSafety.StepShape | crates/node/src/coordinator.rs:1245-1419 | a continuing round adds one retry within the limit, excludes exactly whom it routed around, and raises the floor only when it was too big |
| RunSafety.RetryLimitHolds | crates/node/src/coordinator.rs:1278-1312 | with `max_retries` = m no run continues more than m times, drift included |
| RunSafety.AttemptsAreBounded | crates/node/src/coordinator.rs:1181-1421 | the loop then reports at most m + 1 attempts |
| RunSafety.RoundMakesProgress | crates/node/src/coordinator.rs:1245-1376 | every continuing round other than drift strictly shrinks what is left of a finite population and its capacities; drift leaves it |
| RunSafety.NonDriftRoundsAreBounded | crates/node/src/coordinator.rs:1181-1421 | even with unlimited retries the non-drift rounds number at most the workers plus the distinct advertised capacities |
| RunSafety.FloorRises | crates/node/src/coordinator.rs:1314-1346 | the floor never falls and stays at or above every earlier out-of-memory report |
| RunSafety.FloorIsMaximum | crates/node/src/coordinator.rs:1328-1333 | the floor is exactly the largest capacity reported so far, zero without a report |
| RunSafety.LaterWorkersAreBigger | crates/node/src/coordinator.rs:1699-1703 | whoever is selected later advertised nothing, or strictly more than each worker that ran out of memory |
| RunSafety.ShortageAfterTooBig | crates/node/src/coordinator.rs:1212-1244 | after a too-big round, running out of candidates or workers always ends as exceeding capacity |
| RunSafety.ReliableWorkersStayIn | crates/node/src/coordinator.rs:2052-2068 | a worker that commits whenever dispatched to is never excluded, in any run |
| RunSafety.ExcludedStayOut | crates/node/src/coordinator.rs:1632-1642 | when candidates are dialled by id an excluded worker is never selected again |
| RunSafety.NoProgressIsExact | crates/node/src/coordinator.rs:1267-1277 | with known ids a retry round hits the no-progress guard exactly when every dispatched worker committed |
| RunSafety.StalledWinnerEndsTheRun | crates/node/src/coordinator.rs:2482-2492 | a run in which the winner's transfer stalls ends as exhausted although another bidder stood by |
| RunSafety.DriftContinuesExactly | crates/node/src/coordinator.rs:1378-1419 | a drift round is followed by another exactly while the retry limit, the wall clock and the token bucket allow it, and changes only the retry count |
| RunSafety.DriftIsUnbounded | crates/node/src/coordinator.rs:1378-1419 | while time and tokens last and no retry limit is set, for every n there is a run of n continuing drift rounds that excludes nobody |
| RunSafety.RunReturnsTheHonestHash | crates/node/src/coordinator.rs:1198-1203 | a run that ends with an answer in quorum mode, with fewer than `quorum` dishonest commits in its last round, returns the honest hash, verified |
| RunSafety.WholeRunIsFair | crates/node/src/coordinator.rs:1181-1421 | over every run an honest worker that commits whenever sent the job is never penalised, and gets a provider-fault receipt exactly when attribution is off and some round it committed in failed with drift or without agreement |
| RunSafety.StandingIsKept | crates/node/src/coordinator.rs:1181-1421 | the penalty the trust store held against such a worker before a run is the one it holds after it |
| RunSafety.RunPenaltiesAddUp | crates/node/src/coordinator.rs:1181-1421 | the same over every run |
| RunSafety.NoRunPaysTwice | crates/node/src/coordinator.rs:1181-1421 | every run hands exactly one of its attempts to settlement if it ends with an answer, and none otherwise |
| RunSafety.PaidRunStaysWithinCeiling | crates/node/src/coordinator.rs:1787-1815 | whatever a paid run went through, nothing is settled before the attempt it answers with, whose selected bids passed the preflight: its escrow is within the ceiling, settling is never refused, adds up to at most the escrow, and bills a metered winner its own time |
| RunSafety.PaidRunPaysThePrice | crates/node/src/coordinator.rs:2497-2533 | a metered winner with a wallet is paid its rate for its own seconds up to its cap plus the byte price, rounded down to a nanoton, in its bid's own numbers; fee and commissions are their shares of that price |
| Routing.SelectionIsExact | crates/node/src/coordinator.rs:1632-1780 | selected are exactly the first `replicas` candidates, in score order, that are not known to be excluded and whose bid clears the floors |
| Routing.RoundIsExact | crates/node/src/coordinator.rs:1465-1815 | what ends a round before dispatch, first reason first: unavailable inputs, nobody left, fewer qualifying workers than the quorum, a preflight refusal; otherwise the attempt decides |
| Routing.EscrowCoversExactly | crates/node/src/coordinator.rs:1787-1815 | a round passes the preflight exactly when the job is free, has no ceiling, or the ceiling covers the win of every selected worker |
| Routing.LastBidCounts | crates/node/src/coordinator.rs:1725-1729 | a worker's bid is the last one it made |
| Routing.RetryContinuesExactly | crates/node/src/coordinator.rs:1245-1312 | an inconclusive attempt is followed by another exactly when somebody not yet excluded missed it and retry limit, clock and tokens allow; exactly those that missed it are then excluded; otherwise the run ends as exhausted, or for want of tokens |
| Routing.KnownRetryContinuesExactly | crates/node/src/coordinator.rs:1245-1312 | with known ids, exactly when some dispatched worker did not commit and the limits allow |
| Routing.TooBigContinuesExactly | crates/node/src/coordinator.rs:1313-1376 | a too-big attempt is followed by another exactly when a new worker ran out of memory or the floor rises, and the limits allow; those workers are then excluded and the floor is the largest memory they advertised; otherwise the run ends as exceeding capacity, or for want of tokens |
| Routing.KnownTooBigContinuesExactly | crates/node/src/coordinator.rs:1313-1376 | with known ids, exactly when the limits allow |
| Routing.DriftEndsExactly | crates/node/src/coordinator.rs:1378-1419 | drift changes only the retry count and ends a run only by its limits |
| Routing.EndsAreExact | crates/node/src/coordinator.rs:1198-1244 | each end of a run tells what its last round came to, and after a too-big round a shortage is always reported as exceeding capacity |
| Money.ToBps | crates/node/src/coordinator.rs:3245-3251 | basis points always fit 16 bits |
| Money.RequiredTotalMonotone | crates/settlement/src/types.rs:229-239 | a dearer base or one more runner never needs a smaller escrow, saturation included |
| Money.BaseWithinCap | crates/node/src/coordinator.rs:417-436 | the metered cost never exceeds the cap the escrow was sized to |
| Money.MeteredPriceIsExact | crates/node/src/coordinator.rs:417-436 | a bill at or past the cap costs the cap; below saturation any bill costs rate times seconds plus the byte price, rounded down |
| Money.FixedSplitIsTight | crates/node/src/coordinator.rs:3116-3126 | for every escrow, count and rate base, fee and all commissions fit the escrow, and the unspent part of what survives the saturating multiplication stays below the stated bound |
| Money.FixedPayoutsAreExact | crates/node/src/coordinator.rs:3116-3146 | at a fixed price fee and commissions are exact shares of what the winner gets, and with every wallet present next to nothing of the bid is left |
| Money.MeteredPayoutsAreExact | crates/node/src/coordinator.rs:3099-3146 | out of an unsaturated escrow a winner with a wallet gets the price of its bill, the platform and each verifier with a wallet exactly their shares of it |
| Money.EscrowBidIsSmall | crates/node/src/coordinator.rs:3231-3235 | every configurable fixed bid is far from saturation |
| Money.SettlementNeverRejected | crates/node/src/coordinator.rs:3099-3175 | the coverage guard never rejects an escrow this code opened, metered or fixed; the payouts add up exactly when they fit the word, are then exactly what winner, fee and paid verifiers are due and at most the escrow, and always do at a fixed price or when the escrow did not saturate |
| Money.SafeSettlementAddsUp | crates/settlement/src/types.rs:205-209 | for 64-bit rates and sizes, a short enough bill with few enough verifiers adds up to at most the escrow, saturated or not |
| Money.WalletlessOnlyLowers | crates/node/src/coordinator.rs:3127-3146 | dropping wallets from verifiers or winner keeps base and fee and never raises the winner's payment or the total |
| Money.EscrowWithinCeiling | crates/node/src/coordinator.rs:1794-1815 | whatever selected bid wins, the escrow opened after quorum is at most the ceiling passed before dispatch |
| Money.PreflightIsExact | crates/node/src/coordinator.rs:1794-1815 | a job with a ceiling goes ahead exactly when the ceiling covers the win of every selected bid with everybody else agreeing |
| Metering.SortUpSorts | crates/node/src/coordinator.rs:526-538 | sorting keeps the latencies and puts them in ascending order |
| Metering.MedianIsExact | crates/node/src/coordinator.rs:526-538 | the median is the mean of the two middle latencies, each characterised by how many latencies stay within a limit; there is none exactly when their sum does not fit the word |
| Metering.BillIsExact | crates/node/src/coordinator.rs:545-557 | a winner is billed at most t seconds exactly when it, or the median scaled by a tolerance of at least one, took at most t seconds |
| Metering.FastestWinnerPaysItsOwnTime | crates/node/src/coordinator.rs:526-557 | for the fastest agreeing worker a bill exists exactly when the two middle latencies fit one word, and is then its own time rounded up to seconds, whatever the tolerance |
| Metering.HugeLatenciesAbort | crates/node/src/coordinator.rs:526-538 | two latencies around 2^63 ms for which there is no bill |
| Metering.ComputedBillsAddUp | crates/settlement/src/types.rs:205-209 | whatever the latencies, rates and sizes, the settlement of the bill computed for the fastest of at most 9990 agreeing workers adds up, to at most the escrow |
| Metering.HugeSettlementAborts | crates/settlement/src/types.rs:205-209 | with 9991 agreeing workers and the largest latencies, rate and cap there is a bill, the guard accepts it, and adding up its payouts aborts |
| Metering.MajorityHoldsMedian | crates/node/src/coordinator.rs:526-538 | a majority within a limit keeps any median within it, and below 2^63 ms guarantees there is one |
| Metering.BillIsCapped | crates/node/src/coordinator.rs:545-557 | any bill is at most the winner's own seconds and, unless the median is zero, at most the scaled limit a majority met; such a majority below 2^63 ms guarantees a bill |
| RateLimit.RateLimiter.constructor | crates/node/src/antiabuse.rs:174-184 | a zero window or capacity becomes one, and nobody is tracked |
| RateLimit.RateLimiter.CheckAndRecord | crates/node/src/antiabuse.rs:190-218 | the eviction and expiry loops leave the specified queues and arrival order and give the specified answer |
| RateLimit.StepEffect | crates/node/src/antiabuse.rs:190-218 | a call rewrites its caller's queue, drops only the oldest identity and only when full, and touches nobody else |
| RateLimit.ExpireIsExact | crates/node/src/antiabuse.rs:203-210 | whatever the clock did, a call forgets exactly the leading hits that lie `window` seconds back or more |
| RateLimit.AlwaysBounded | crates/node/src/antiabuse.rs:192-202 | after any history at most `capacity` identities are tracked, each listed once |
| RateLimit.QueueMirrorsLog | crates/node/src/antiabuse.rs:203-217 | under a non-decreasing clock a tracked queue is the accepted log minus entries that have expired |
| RateLimit.AnswersByCurrentLog | crates/node/src/antiabuse.rs:186-218 | each answer is the naive count over everything accepted since the caller was put under track |
| RateLimit.IdleCallerIsAllowed | crates/node/src/antiabuse.rs:186-218 | whoever has had no attempt accepted in the last `window` seconds is allowed, evicted meanwhile or not |
| RateLimit.AgreesWithNaive | crates/node/src/antiabuse.rs:186-218 | for an identity never evicted, log and answers equal those of a limiter that keeps every accepted attempt and allows one while fewer than the maximum satisfy `now < t + window` |
| RateLimit.NaiveWindowNeverOverfull | crates/node/src/antiabuse.rs:186-189 | the reference limiter never lets a window of the configured length hold more than the maximum |
| RateLimit.WindowNeverOverfull | crates/node/src/antiabuse.rs:186-218 | nor does the limiter for an identity never evicted |
| RateLimit.FewCallersNeverEvicted | crates/node/src/antiabuse.rs:192-202 | a population that fits the capacity never loses anybody |
| RateLimit.EvictionOverrunsTheLimit | crates/node/src/antiabuse.rs:192-202 | with more callers than capacity some same-second history gets one attempt too many |
| RateLimit.FaithfulExactly | crates/node/src/antiabuse.rs:159-219 | every history of a population is answered as the reference answers it exactly when the population fits, or the maximum is zero |
| Text.TrimSettles | crates/config/src/blocklist.rs:181-184 | trimming leaves nothing to trim and fixes exactly the trimmed strings |
| Text.TrimIsExact | crates/config/src/blocklist.rs:181-184 | trimming cuts off whitespace at the two ends and nothing else |
| KeyedList.PutKeys | crates/config/src/blocklist.rs:186-193 | retain and push keep keys unique and add the written one |
| KeyedList.WithoutKeys | crates/config/src/blocklist.rs:202-203 | retain drops exactly that key and keeps keys unique |
| KeyedList.FindPut | crates/config/src/binding.rs:161-167 | after a write, lookup gives the new value at that key and the old one elsewhere |
| KeyedList.RowsAreFound | crates/config/src/binding.rs:136-143 | with unique keys listing and looking up agree |
| DenyList.BlocklistStore.Block | crates/config/src/blocklist.rs:173-195 | an empty id is an error and changes nothing, otherwise the trimmed id has one, newest, entry |
| DenyList.BlocklistStore.Unblock | crates/config/src/blocklist.rs:198-208 | the trimmed id is gone, and the answer says whether it was there |
| DenyList.Blocklist.WithStore | crates/node/src/antiabuse.rs:82-93 | the cache is seeded with exactly the stored ids |
| DenyList.Blocklist.Block | crates/node/src/antiabuse.rs:101-113 | cache and store gain the trimmed id together, once |
| DenyList.Blocklist.Unblock | crates/node/src/antiabuse.rs:116-124 | the id leaves the cache, and the store loses its trimmed form if the cache held it |
| DenyList.Blocklist.ApplySignedSignal | crates/node/src/antiabuse.rs:139-156 | acts exactly on honoured, verified signals, blocking subject and wallet |
| DenyList.RunInSync | crates/node/src/antiabuse.rs:82-156 | from a store of trimmed ids, cache and store hold the same ids, without duplicates, after every sequence of calls and restarts |
| DenyList.UntrimmedFallsOutOfSync | crates/node/src/antiabuse.rs:116-124 | an id stored with surrounding whitespace is unblocked in memory only and comes back on restart |
| DenyList.InSyncForEverExactly | crates/node/src/antiabuse.rs:82-124 | cache and store agree for ever exactly when every stored id is trimmed |
| DenyList.DeniedByLatestCall | crates/node/src/antiabuse.rs:82-156 | an id is denied, in memory and on disk, exactly when the latest call that concerned it blocked it |
| Bindings.BindingStore.Bind | crates/config/src/binding.rs:146-169 | an empty id or wallet is an error without effect; otherwise the trimmed id has one binding, the new one |
| Bindings.BindingStore.Unbind | crates/config/src/binding.rs:172-182 | the trimmed id has no binding, and the answer says whether it had one |
| Bindings.BindingStore.Get | crates/config/src/binding.rs:141-143 | returns the first matching entry, or none exactly when there is none |
| Bindings.ListIsATable | crates/config/src/binding.rs:136-182 | after any sequence of calls the list has one entry per id and is the finite map the same calls build |
| Bindings.WalletReputation | crates/node/src/coordinator.rs:723-757 | the accumulating loop returns the lone id's score or the observation-weighted mean of the wallet |
| Bindings.SharedWalletSharedScore | crates/node/src/coordinator.rs:702-757 | all ids on a shared wallet get the same pair |
| Bindings.PooledBetweenExtremes | crates/node/src/coordinator.rs:738-757 | when anybody counts, the pooled reputation lies between the siblings' extremes |
| Bindings.PoolingIsExact | crates/node/src/coordinator.rs:738-757 | the pool of one counted id is its own reputation and count; two lists pooled together have the summed observations and the summed reputation times observations |
| Bindings.FreshIdInherits | crates/node/src/coordinator.rs:702-757 | a fresh unobserved id gets the wallet's pooled score; the others keep theirs exactly when not alone or already scored as a pool of one |
| Bindings.LoneScoreChanges | crates/node/src/coordinator.rs:723-757 | a lone id with observations but no reputation loses its count when a fresh id joins |
| Bindings.HistoryIsUnchanged | crates/node/src/coordinator.rs:702-757 | on a wallet with observed history nobody's pair changes and the newcomer gets it |
| ConfigTree.Walk | crates/config/src/store.rs:692-723 | lists every leaf with its path exactly once, in whatever key order |
| ConfigTree.DeepMerge | crates/config/src/store.rs:664-679 | the in-place loop over the overlay's keys computes the merge, in whatever key order |
| ConfigTree.MergeIsOverrideExactly | crates/config/src/store.rs:664-679 | reading the merge equals override by path at every path exactly when the trees do not clash on leaf versus table |
| ConfigTree.TableOverLeafLosesIt | crates/config/src/store.rs:664-679 | a table laid over a leaf loses it where override by path would not |
| ConfigTree.SettingsOfMerge | crates/config/src/store.rs:682-723 | the listing of a merge is the base's listing overridden by the overlay's |
| ConfigTree.AbsorbedExactly | crates/config/src/store.rs:664-679 | an overlay hides a tree completely exactly when it has something at each of its keys, level by level |
| ConfigTree.MergeIdempotent | crates/config/src/store.rs:664-679 | merging the same overlay twice is merging it once, for all trees |
| ConfigTree.MergeAssociatesExactly | crates/config/src/store.rs:664-679 | three layers merge in either order exactly when no middle leaf separates a table from one that does not hide it |
| ConfigTree.MiddleLeafDoesNotAssociate | crates/config/src/store.rs:664-679 | a leaf between two tables for which merging does not associate |
| ConfigTree.NoLeafOverTableLayers | crates/config/src/store.rs:664-679 | merging associates when the middle layer never puts a leaf over a table |
| ConfigEdit.SegmentsOfDotted | crates/config/src/store.rs:639-645 | splitting a dotted path undoes joining it, for non-empty dot-free segments |
| ConfigEdit.SetPathReadsBack | crates/config/src/store.rs:639-662 | a written path reads back its value, whatever was in the way |
| ConfigEdit.SetPathFrame | crates/config/src/store.rs:647-662 | every path neither above nor below the written one is untouched within the layer |
| ConfigEdit.OverlayLeafShows | crates/config/src/store.rs:664-679 | a leaf of the overlay always shows through the merge |
| ConfigEdit.LeafComesFromALayer | crates/config/src/store.rs:664-679 | a leaf seen through the merge is one of the two layers' leaves |
| ConfigEdit.WriteShows | crates/config/src/store.rs:622-662 | off its own path a write shows the base where a runtime leaf on the way used to hide it, and what was shown before everywhere else |
| ConfigEdit.WriteIsLocalExactly | crates/config/src/store.rs:622-662 | the effective tree changes nowhere off the written path exactly when no runtime leaf on the way hid something of the base there |
| ConfigEdit.WriteUncovers | crates/config/src/store.rs:647-662 | a write through a runtime leaf that brings another base setting back |
| ConfigEdit.CleanLayerHidesNothing | crates/config/src/store.rs:622-662 | a layer with no leaf over a base table hides nothing of the base |
| ConfigStore.ConfigStore.Current | crates/config/src/store.rs:129-135 | the effective configuration, if it is accepted |
| ConfigStore.ConfigStore.Set | crates/config/src/store.rs:150-167 | succeeds exactly when the written layer merges to an accepted, unblocked configuration, and then persists it; otherwise the layer is unchanged and the error says why |
| ConfigStore.ConfigStore.SetKv | crates/config/src/store.rs:171-173 | the same for one auto-typed scalar, with the same errors |
| ConfigStore.ConfigStore.ApplyGroup | crates/config/src/store.rs:208-219 | an unusable group fails with its error and no effect, an empty one reports the effective configuration if it is accepted, any other is a set |
| ConfigStore.ConfigStore.Reset | crates/config/src/store.rs:176-185 | clears the layer |
| ConfigStore.ResetRestores | crates/config/src/store.rs:176-185 | after a reset the effective configuration is the base, whatever was written before |
| ConfigStore.LayerStaysGood | crates/config/src/store.rs:150-219 | after every sequence of calls on a good base the layer merges to an accepted configuration that is never mainnet without confirmation |
| ConfigStore.SetReadsBack | crates/config/src/store.rs:150-167 | of a list of writes every scalar that no later write replaced reads back from the effective configuration, the last one always |
| ConfigStore.SetKvReadsBack | crates/config/src/store.rs:605-617 | after an accepted call the effective configuration has, at the key, the truth value for its two words in any case, else the number the text parses as, else the text as it came |
| ConfigStore.SetIsLocalExactly | crates/config/src/store.rs:150-167 | after a list of writes every path off all of them reads as before exactly when none passed through a runtime leaf hiding something of the base there |
| ConfigStore.CleanLayerStaysLocal | crates/config/src/store.rs:150-167 | in particular when no runtime leaf sits over a base table |
| ConfigStore.NoSilentMainnet | crates/config/src/store.rs:150-167 | mainnet is never active until some call writes the confirmation |
| ConfigStore.NetworkChangeTakesEffect | crates/config/src/store.rs:538-562 | a written network change is effective, confirmed for mainnet only, and mainnet needs the confirm flag |
| ConfigStore.SwitchingBackReconfirms | crates/config/src/store.rs:538-562 | after a switch to testnet no sequence of calls returns to mainnet without confirming again |
| Scope.CredentialPrefix | crates/node/src/coordinator.rs:3207-3226 | no objects give the empty prefix; otherwise the common prefix of all URIs, cut after its last slash |
| Scope.LongestCommonIsLongest | crates/node/src/coordinator.rs:3207-3221 | a string is a prefix of every URI exactly when it is a prefix of the computed one |
| Scope.OrderDoesNotMatter | crates/node/src/coordinator.rs:3207-3221 | the prefix depends on which URIs there are, not on their order |
| Scope.ScopeCoversExactly | crates/node/src/datasource.rs:334-345 | the scope is a prefix of every object exactly when the URIs share a `://` and start with no whitespace; it ends in a slash and is then the longest such prefix |
| Scope.SharedSchemeCovers | crates/node/src/datasource.rs:334-345 | URIs sharing `scheme://`, untouched by trimming, are covered |
| Scope.ScopeUrlIsExact | crates/node/src/datasource.rs:334-345 | a plain bucket and path become a URL of the scheme ending in a slash; a prefix that already is a URL keeps its own scheme |
| SecretSql.QuotedReadsBack | crates/node/src/datasource.rs:266-269 | any string comes back from its quoted form, whatever follows but a quote |
| SecretSql.StatementReadsBack | crates/node/src/datasource.rs:373-423 | a quote-doubling reader gets the whole option list back in order and leaves nothing unread |
| SecretSql.PushExtras | crates/node/src/datasource.rs:415-417 | the loop over extras prints each option, or stops with the error of the first bad key |
| SecretSql.S3Secret | crates/node/src/datasource.rs:373-423 | the text reads as exactly the intended list with original values and the scope last, or there is the specified error and no text |
| SecretSql.AzureSecret | crates/node/src/datasource.rs:453-478 | the same for Azure |
| SecretSql.GcsSecret | crates/node/src/datasource.rs:508-543 | the same for GCS |
| SecretSql.OptionsAreExact | crates/node/src/datasource.rs:373-543 | there are options exactly when the credential has the provider's required fields; each is given once, carrying its own credential field, or where that is absent the provider's configured one, or not at all |
| SecretSql.ExtrasAcceptedExactly | crates/node/src/datasource.rs:316-329 | extra options are accepted exactly when every key is an identifier, each then with its value under its upper-cased key; otherwise the error names the first bad one |
| SignedUrls.RewriteSignedUrls | crates/node/src/datasource.rs:295-308 | the passes, longest URI first, give the simultaneous substitution of whole literals exactly when every URI is placed |
| SignedUrls.ByLengthSorts | crates/node/src/datasource.rs:296-297 | sorting only reorders, longest URI first |
| SignedUrls.TokensWriteBack | crates/node/src/datasource.rs:266-269 | reading a text into literals, doubled quotes included, loses nothing |
| QuotedPieces.ReplaceOnPieces | crates/node/src/datasource.rs:303-305 | one textual replacement of a quoted literal replaces, between quotes, the leftmost pieces equal to it that share no quote |
| SignedUrls.PassesOnPieces | crates/node/src/datasource.rs:295-308 | all passes together replace exactly the hits of every object, whatever their order |
| SignedUrls.ReferenceOnPieces | crates/node/src/datasource.rs:289-294 | substituting whole literals replaces exactly the pieces that are literals by themselves |
| SignedUrls.RewriteIsSimultaneousExactly | crates/node/src/datasource.rs:289-308 | for distinct quote-free URIs and quote-free URLs none of which is a URI, the rewrite is the simultaneous substitution exactly when each piece that is a URI is a literal by itself or stands right behind one, whatever the order of the list |
| SignedUrls.TextBetweenLiteralsIsTouched | crates/node/src/datasource.rs:289-308 | a text outside quotes that the rewrite changes |
| SignedUrls.InsideOfALiteralIsTouched | crates/node/src/datasource.rs:289-308 | a literal with doubled quotes whose inside the rewrite changes |

## Left out

- QUIC streams, offers, dispatch frames, timeouts, idle deadlines and presigning: only what they yield, a committed, failed or silent worker and an arrived or missing result, enters the model.
- Discovery, composite trust and selection scores, attestation levels: a round supplies the candidates in score order and says which bids clear the floors.
- Retry back-off, token bucket and wall-clock cap: each round says whether time and tokens are left.
- The scoring and persistence of the trust store: the model keeps its receipts and penalties.
- Signed canonical hashing of results, canary scheduling, result compression, engines and signers: hashes are opaque and a canary is its known answer.
- TOML and JSON, files, permissions, secret files, environment variables: reads and writes succeed, with a single writer.
- Range checks in configuration validation and typed deserialisation: one abstract predicate on the merged tree; the network and its confirmation are read as a string and a boolean.
- The other grouped setters of `apply_group`: their pairs are arbitrary; only the network change is spelled out.
- ConfigTree.Walk: lists segment paths with raw scalars; redaction, inert-knob notes and the dotted rendering of paths are not modelled, because they are formatting.
- Sealed credentials and the JSON form of credentials: decoding yields a credential or an error.
- The `retries` counter is unbounded rather than 32 bits wide.
- ConfigEdit.SetPathFrame: `set_path` is modelled on values, so update in place of nested tables is not captured.
- Redispatch.RunRound: a settlement that fails, or aborts while it is added up, does not reach the result of the round; only billing aborts do. A job with a ceiling, and any job with at most 9989 verifiers, never aborts there.
- SQL comments, quoted identifiers and dollar-quoted strings: the literal reader of the presigned rewrite knows single quotes and their doubling only.
