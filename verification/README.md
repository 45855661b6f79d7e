# Inference exchange: a Dafny model

A Dafny model of the coordinator of an inference exchange, and of the byte formats and the session
channel around it, with proofs of what those parts promise. Consumers submit requests; a matching
engine picks providers by score; a bounded queue holds what cannot be served yet; completions are
charged to a ledger in integer micro-USD; provider nodes are owned by users under caps; rate limiters
admit callers; an end-to-end channel carries prompts; a GGUF reader identifies models.

Check everything with `dafny verify dfyconfig.toml`.

## Layout

| files | what they model |
|---|---|
| `SerialAllocation`, `Sorting`, `Reals`, `Tables`, `Bytes`, `Decimals`, `Options` | shared theory: taking turns over capacities, stable sorting, order facts about reals, tables as sequences, byte strings, decimal ids |
| `MatchingModels`, `ScoreBounds`, `GreedyStrategy`, `BatchAuction`, `BatchOptimality`, `BatchGuarantees` | orders, offers, the score and its bounds, the two matching strategies, and what the batch strategy achieves |
| `Routing`, `WaitLine`, `Selection`, `BillingEvents`, `Listeners`, `ProviderHub` | selecting a provider and explaining a refusal, the wait queue, who wins a selection, billing callbacks and response queues, and the hub object that holds them |
| `Charging`, `Ledger`, `Store`, `MemoryLedger`, `Earnings` | the arithmetic of a charge, the money tables, the in-memory ledger, and an owner's earnings report |
| `Consolidation`, `ConsolidationTool` | the one-off rewrite of legacy provider accounts: its meaning, and the program |
| `Ownership`, `OwnershipStore`, `Credentials` | users, nodes and credentials, and what each operation grants |
| `RateLimiter`, `SlidingWindow`, `Limiters` | the token bucket and the three sliding-window limiters |
| `Transcripts`, `AssociatedData`, `E2ESession`, `Gguf`, `GgufReader` | handshake transcripts, the session channel, and the metadata reader |
| `Reputation`, `Throughput` | moving averages of outcomes and of speed |

Code that changes state step by step is a class or a method with loops, proved against a
specification function; what the source promises is then proved about those functions, over all
inputs or all runs. Prices, scores, tokens of a bucket and clock readings are exact reals. A clock
reading is a parameter. Random ids are parameters that are required to be new.

## What differs from the documentation

The model follows the code. These places do not do what their comments or docstrings say.

- The batch strategy does not solve the optimal assignment (`strategy.py:211-224`): it is a maximal
  greedy matching that serves at least half as many orders as any assignment. Over all batches made
  of given kinds of orders it serves as many orders as possible exactly when the kinds' wishes are
  laminar: of any two, one contains the other or they share no slot (`ServesMostIffLaminar`). The
  total score is then the greatest possible too, exactly under the same condition, if the orders
  value slots alike, as orders with one preference do (`ScoresMostIffLaminar`). For arbitrary scores
  it is assured only for orders that can use no slot at all (`ScoresMostIffNothingWanted`).
- Its over-assignment guard (`strategy.py:283-287`) is redundant exactly when no provider reports a
  negative load; heartbeats are not range-checked, so a negative one makes it drop a match.
- The greedy strategy never reports `no_capacity`: an order that finds every eligible provider full
  is reported as `no_provider` (`FailsOnlyWhenFull`).
- Billing does not outlive the response queue, although `provider_hub.py:410-412` says that it must:
  removing the queue also drops the callback (`RemovalEndsBilling`). A completion that arrives while
  its handler is still sending is not charged either (`EarlyCompletionIsFree`).
- The speed anomaly (`tps_tracker.py:202-210`) is raised below 17/37 of the previous average, not below
  one half, because the average compared with already contains the latest speed.
- The reputation averages are documented as fractions. If latencies are only known to be at least
  some bound, every reachable average is a fraction exactly when that bound is not negative
  (`FractionsIffNotNegative`); latencies are differences of wall-clock readings, which a clock set
  back makes negative.
- Weights that add up to one, a factor for reputation and a bonus of a fifth suggest scores below 1.2.
  Heartbeats and clocks are not range-checked, so scores can be higher (`NegativeLoadPasses`). `BoundedIff` gives the exact loads and
  reputations, `TrackedBoundedIff` the exact loads and latencies; on a clock that never goes back the
  load may be negative by at most an eighth of the slots (`TimelyBoundedIff`).
- A completion may report any integers as counts, and billing does not check them. With a negative
  output or cached count rounding can add to the price (`NeverAboveIff`), and with more cached tokens
  than input, or fewer than none, a cache hit can cost more (`CacheNeverCostsMoreIff`). A negative
  output count can make the store charge one micro-USD more than the in-memory ledger, and a negative
  input count more than that (`StoreVersusMemoryIff`).
- Money is conserved, and accounts agree with their transactions, exactly over the runs in which each
  charge finds its consumer's account (`BooksBalanceOverRuns`).
- The limit of ten authentication attempts per five minutes is kept exactly if the wall clock is never
  set back, by however little (`WindowBoundIff`).
- Associated data identifies a message within its session, but not always across sessions, since a
  session id may contain the separator. `CollideIff` says exactly which pairs of ids can collide;
  ids without a bar, such as a session hello generates, and ids of equal length cannot.
- The two handshake transcripts order their fields differently, so the same handshake has different
  bytes in them (`TranscriptsAgreeIff`).

## Model

| member | source | states |
|---|---|---|
| MatchingModels.ComputeScore | inference_exchange/coordinator/matching/strategy.py:65-116 | the score is positive exactly when all four hard constraints hold and is otherwise -1; with a fractional reputation it is below 1.2 unless the reported load is below minus an eighth of the slots |
| MatchingModels.DominanceIsRespected | inference_exchange/coordinator/matching/strategy.py:97-116 | whatever the preference, an offer no worse in price, speed, trust, load and reputation never scores lower, unless the other holds the session |
| MatchingModels.EveryDimensionCounts | inference_exchange/coordinator/matching/strategy.py:97-116 | and scores strictly higher as soon as one of the five is strictly better |
| MatchingModels.BonusAndReputation | inference_exchange/coordinator/matching/strategy.py:109-114 | session affinity is worth exactly a fifth more; no reputation is worth exactly half of full reputation |
| ScoreBounds.BoundedIff | inference_exchange/coordinator/matching/strategy.py:86-116 | over all orders and offers with given slots and reputation, every score is below 1.2 exactly when no slot is free or the best base score at that load times the reputation factor is at most one |
| ScoreBounds.BoundedIffModest | inference_exchange/coordinator/matching/strategy.py:86-116 | with full reputation: exactly when the load is not below minus an eighth of the slots |
| ScoreBounds.NegativeLoadPasses | inference_exchange/coordinator/matching/strategy.py:97-114 | a one-slot provider that reports a load of -1 scores 1.23 |
| ScoreBounds.ScoreBelowTop | inference_exchange/coordinator/reputation.py:54-98 | if no latency lies below a bound, every reachable reputation is below 0.7 plus 0.3 times the latency score of the bound |
| ScoreBounds.TrackedBoundedIff | inference_exchange/coordinator/matching/strategy.py:86-116 | over all tracked reputations whose latencies are at least a bound, every score is below 1.2 exactly when no slot is free or the best base score at that load times the factor of that top reputation is at most one |
| ScoreBounds.TimelyBoundedIff | inference_exchange/coordinator/matching/strategy.py:86-116 | with no negative latency: exactly when the load is not below minus an eighth of the slots, though no tracked reputation ever reaches one |
| ScoreBounds.TrackedScoreSign | inference_exchange/coordinator/matching/strategy.py:65-116 | with a tracked reputation and any load, the score is positive exactly when the offer is eligible, and otherwise -1 |
| SerialAllocation.AllocateIsFeasible | inference_exchange/coordinator/matching/strategy.py:148-199 | taking turns never gives out a column beyond its capacity, nor to a row that does not score it positively |
| SerialAllocation.AllocateIsServed | inference_exchange/coordinator/matching/strategy.py:155-180 | every row gets the best column its predecessors left open, the first of equals, and nothing only if nothing it wants is open |
| SerialAllocation.ServedIsUnique | inference_exchange/coordinator/matching/strategy.py:155-180 | no other allocation has that property |
| SerialAllocation.NoEnvyOfLaterRows | inference_exchange/coordinator/matching/strategy.py:142-199 | no row strictly prefers what a later row got, and an empty row cannot use it |
| SerialAllocation.AtLeastHalf | inference_exchange/coordinator/matching/strategy.py:333-354 | any feasible assignment serves at most twice as many rows |
| SerialAllocation.NestedOrApartIsBest | inference_exchange/coordinator/matching/strategy.py:333-354 | when every later row wants all or nothing of what an earlier one wants, and rows rank columns by a common value, no feasible assignment is worth more |
| SerialAllocation.NestedOrApartIsMaximum | inference_exchange/coordinator/matching/strategy.py:333-354 | and none fills more rows, whatever the preferences |
| Sorting.SortBySorted | inference_exchange/coordinator/matching/strategy.py:142-143 | sorting by submission time puts earlier orders first |
| Sorting.SortByStable | inference_exchange/coordinator/matching/strategy.py:142-143 | and keeps simultaneous orders in the order given |
| GreedyStrategy.BestOffer | inference_exchange/coordinator/matching/strategy.py:155-176 | the scan over the offers finds the first best one with an open slot, or none, and counts none eligible exactly when it finds none |
| GreedyStrategy.Match | inference_exchange/coordinator/matching/strategy.py:134-199 | the loop over orders reports exactly the outcomes of taking turns by submission time |
| GreedyStrategy.OutcomeIsExact | inference_exchange/coordinator/matching/strategy.py:150-197 | a match names an offer that the order may use, with its score and price; a failure is a timeout exactly for an expired order |
| GreedyStrategy.EveryOrderReportedOnce | inference_exchange/coordinator/matching/strategy.py:134-199 | matches and failures together name every submitted order once |
| GreedyStrategy.CapacityRespected | inference_exchange/coordinator/matching/strategy.py:145-180 | no provider is matched beyond its free slots |
| GreedyStrategy.StableUnderFifo | inference_exchange/coordinator/matching/strategy.py:142-199 | no order scores a provider given to a later-submitted order above its own match, and an unmatched unexpired order cannot use that provider |
| GreedyStrategy.FailsOnlyWhenFull | inference_exchange/coordinator/matching/strategy.py:190-197 | an unexpired order fails only if every provider it could use was filled by earlier matches, and is then always reported as no_provider |
| BatchAuction.EligibilityOrder | inference_exchange/coordinator/matching/strategy.py:324-331 | orders are served by (number of eligible slots, position) |
| BatchAuction.SolveAssignment | inference_exchange/coordinator/matching/strategy.py:309-354 | the assignment loops compute serial allocation over single slots in that order |
| BatchAuction.Settle | inference_exchange/coordinator/matching/strategy.py:275-296 | pairs become matches as long as the provider's total slots are not exceeded |
| BatchAuction.Match | inference_exchange/coordinator/matching/strategy.py:229-307 | the whole call reports exactly the specified matches and failures, including the two early exits |
| BatchOptimality.AssignmentIsMatching | inference_exchange/coordinator/matching/strategy.py:309-354 | orders and slots are each used at most once and every pair is eligible |
| BatchOptimality.AssignmentIsMaximal | inference_exchange/coordinator/matching/strategy.py:337-352 | no unmatched order could use an unused slot |
| BatchOptimality.AtLeastHalfOfAnyAssignment | inference_exchange/coordinator/matching/strategy.py:309-354 | no valid assignment serves more than twice as many orders |
| BatchOptimality.ServesMostIffLaminar | inference_exchange/coordinator/matching/strategy.py:315-354 | over all batches of given kinds of orders, with any preferences, as many orders as possible are always served exactly when the kinds' wishes are laminar |
| BatchOptimality.ScoresMostIffLaminar | inference_exchange/coordinator/matching/strategy.py:314-320 | over all such batches whose orders value slots alike, the total score is always the greatest possible exactly when the wishes are laminar |
| BatchOptimality.ScoresMostIffNothingWanted | inference_exchange/coordinator/matching/strategy.py:314-320 | with arbitrary scores the total is always the greatest possible only for orders that can use no slot |
| BatchOptimality.MaximumWhenLaminar | inference_exchange/coordinator/matching/strategy.py:315-320 | one batch with laminar wishes is served as fully as possible |
| BatchOptimality.BestTotalWhenLaminar | inference_exchange/coordinator/matching/strategy.py:314-320 | and, with a shared valuation of slots, at the greatest total score |
| BatchOptimality.MaximumForCompatible | inference_exchange/coordinator/matching/strategy.py:244-273 | a batch is served as fully as possible if of any two orders one asks no more than the other, or no slot serves both |
| BatchOptimality.CompatibleByModel | inference_exchange/coordinator/matching/strategy.py:74-84 | that holds for orders for one model at one trust level, and for models that no provider has both of |
| BatchOptimality.BestForOnePreference | inference_exchange/coordinator/matching/strategy.py:211-224 | compatible orders with one preference and one affinity get the greatest total score, as the docstring promises |
| BatchOptimality.NotAlwaysOptimal | inference_exchange/coordinator/matching/strategy.py:211-224 | a concrete batch of three orders, all of them servable, of which two are served |
| BatchGuarantees.CapacityRespected | inference_exchange/coordinator/matching/strategy.py:244-296 | each provider gets at most its available slots |
| BatchGuarantees.SlotsOnProvider | inference_exchange/coordinator/matching/strategy.py:244-249 | each provider is expanded into exactly as many slots as it has free |
| BatchGuarantees.MatchIsExact | inference_exchange/coordinator/matching/strategy.py:275-296 | every match names a submitted order and an offer that it may use, with its score and price |
| BatchGuarantees.FailureIsExact | inference_exchange/coordinator/matching/strategy.py:229-307 | the failures are exactly the orders without a match: no provider without offers, no capacity without free slots, and otherwise a timeout exactly for an expired order |
| BatchGuarantees.GuardNeverFires | inference_exchange/coordinator/matching/strategy.py:283-287 | no pair is dropped as long as no load is negative |
| BatchGuarantees.GuardRedundantIff | inference_exchange/coordinator/matching/strategy.py:283-287 | over all batches of distinct orders, the guard is redundant for a fleet exactly when none of its loads is negative |
| BatchGuarantees.EveryOrderReportedOnce | inference_exchange/coordinator/matching/strategy.py:298-307 | each order ends up as one match or one failure, also when the guard dropped its pair |
| Routing.SelectionIsComplete | inference_exchange/coordinator/provider_hub.py:227-278 | selection succeeds exactly when a connected, routable provider with a free slot meets the model, trust and price constraints, and returns such a provider |
| Routing.SelectionIsBest | inference_exchange/coordinator/provider_hub.py:227-278 | no routable provider outscores the one selected |
| Selection.PickIff | inference_exchange/coordinator/provider_hub.py:227-278 | the selected provider is exactly the one that can serve and has the most merit, the earliest connected of equals, where merit is told from the raw fields of request, providers and session table |
| Selection.PriceAgainstSpeed | inference_exchange/coordinator/matching/strategy.py:88-107 | all else equal, a price score greater by p beats a speed score greater by s if 4p > s for cheapest, p > 6s for fastest, p > s for most secure and 7p > 5s for balanced requests |
| Selection.TrustAgainstSpeed | inference_exchange/coordinator/matching/strategy.py:88-107 | the same for trust: 2t > 3s, t > 6s, 6t > s and 4t > 5s |
| Selection.LoadAgainstPrice | inference_exchange/coordinator/matching/strategy.py:88-107 | the same for the share of free slots against the price score: l > 4p, 2l > p, 2l > p and 4l > 7p |
| Selection.SessionDecides | inference_exchange/coordinator/provider_hub.py:238-244 | of two equally good providers the one tied to the session is selected |
| Selection.ReputationDecides | inference_exchange/coordinator/matching/strategy.py:109-110 | of two equally good providers without the session the one of better reputation is selected |
| Selection.SessionIsRemembered | inference_exchange/coordinator/provider_hub.py:272-276 | after a selection every later request of the session finds it tied to the winner, and to it alone |
| Selection.NothingToRemember | inference_exchange/coordinator/provider_hub.py:270-278 | a request without a session, or one that found no provider, leaves the session table as it was |
| Routing.ExplainedIffIncompatible | inference_exchange/coordinator/provider_hub.py:280-324 | a reason is given exactly when no connected provider is compatible, regardless of load |
| Routing.ReasonIsExact | inference_exchange/coordinator/provider_hub.py:289-324 | each reason holds of the connected providers, and quotes exactly the models served, the highest trust level among those serving the model, or the lowest price among those trusted enough |
| Routing.UnexplainedIffIdleSelects | inference_exchange/coordinator/provider_hub.py:280-324 | no reason is given exactly when selection would succeed with every provider idle, given the one slot or more that registration demands |
| Routing.ExplainedFailsAtEveryLoad | inference_exchange/coordinator/provider_hub.py:280-324 | once a reason is given, selection fails at every load, for every session and reputation |
| Routing.QuotedPriceIsEnough | inference_exchange/coordinator/provider_hub.py:314-323 | asking again at the quoted lowest price removes the objection, and at any lower price does not |
| Routing.QuotedTrustIsEnough | inference_exchange/coordinator/provider_hub.py:304-312 | asking again at the quoted trust level removes the trust objection, and at any higher level does not |
| WaitLine.RememberIsBounded | inference_exchange/coordinator/provider_hub.py:273-276 | at most 1000 sessions are remembered, and the one just used is among them |
| WaitLine.RememberIsExact | inference_exchange/coordinator/provider_hub.py:272-276 | a known session keeps its place in the table, a new one joins at the end, and of 1001 the oldest is forgotten |
| WaitLine.PickIffCanServe | inference_exchange/coordinator/provider_hub.py:227-278 | whether a request can be routed does not depend on its session or on reputation |
| WaitLine.SettledIsFinal | inference_exchange/coordinator/provider_hub.py:352-402 | requests are never reordered or dropped; only a dispatch assigns, only a clear clears, and neither is ever undone |
| WaitLine.DepthBounded | inference_exchange/coordinator/provider_hub.py:352-402 | over every run the number of waiting requests stays within a positive bound |
| WaitLine.NoOvertaking | inference_exchange/coordinator/provider_hub.py:380-402 | over every run and whatever the fleet becomes, a waiting request is never overtaken by a later queued one that asks for at least as much |
| WaitLine.DispatchServesIfPossible | inference_exchange/coordinator/provider_hub.py:380-402 | a dispatch serves someone exactly when some waiting request has a compatible provider with a free slot |
| Selection.DispatchIsExact | inference_exchange/coordinator/provider_hub.py:380-402 | a dispatch assigns the first waiting request that some provider can serve to the provider that wins it, and changes nothing else |
| Hub.ProviderIdInjective | inference_exchange/coordinator/provider_hub.py:159-161 | the counter never yields the same provider id twice |
| Hub.ProviderHub.RegisterProvider | inference_exchange/coordinator/provider_hub.py:159-176 | a new provider joins under an id no connected provider has, idle and unadmitted |
| Hub.ProviderHub.SelectProvider | inference_exchange/coordinator/provider_hub.py:227-278 | building offers and running the greedy strategy on one order returns the provider that wins on the raw fields, and ties the session to it |
| Hub.ProviderHub.EnqueueRequest | inference_exchange/coordinator/provider_hub.py:352-359 | a request joins the end of the line, or is refused exactly when the queue is full |
| Hub.ProviderHub.ClearQueue | inference_exchange/coordinator/provider_hub.py:365-378 | every waiting request and no other becomes cleared and awake, and the count is right |
| Hub.ProviderHub.OfferInTurn | inference_exchange/coordinator/provider_hub.py:391-402 | the first item that selection can serve is assigned, the others return in order, and every put-back finds room |
| Hub.ProviderHub.TryDispatchQueued | inference_exchange/coordinator/provider_hub.py:380-402 | draining and refilling the queue assigns exactly the first waiting request that the fleet can serve and keeps the queue equal to the waiting ones in order |
| Hub.ProviderHub.SendToProvider | inference_exchange/coordinator/provider_hub.py:340-344 | an unadmitted confidential provider gets nothing; otherwise its load rises by one and the request is recorded as its own |
| Hub.ProviderHub.SendFailed | inference_exchange/coordinator/provider_hub.py:347-350 | a failed transmission takes both back, never below zero |
| Hub.ProviderHub.HandleProviderMessage | inference_exchange/coordinator/provider_hub.py:404-444 | what completion, token and error do to queues, callbacks and loads, and when they schedule a dispatch |
| Hub.ProviderHub.RemoveResponseQueue | inference_exchange/coordinator/provider_hub.py:331-334 | queue, owner and callback of the request all go |
| Hub.ProviderHub.DisconnectProvider | inference_exchange/coordinator/provider_hub.py:186-201 | every request in flight at the provider gets one failure message, and the provider leaves routing |
| BillingEvents.ChargedIffEarned | inference_exchange/coordinator/provider_hub.py:404-444 | over every interleaving a request is charged at most once, and exactly when a completion arrives after registration and before any error or removal |
| BillingEvents.CallbacksHaveQueues | inference_exchange/coordinator/routes_inference.py:484-490 | every registered callback has a live response queue |
| BillingEvents.RemovalEndsBilling | inference_exchange/coordinator/provider_hub.py:331-334 | once the handler has removed its queue, no later event charges the request |
| BillingEvents.EarlyCompletionIsFree | inference_exchange/coordinator/routes_inference.py:628-635 | a completion that precedes the registration is never charged, while the same events in the usual order charge once |
| BillingEvents.ChargedIsDelivered | inference_exchange/coordinator/provider_hub.py:413-430 | the completion that charges a request also reaches its response queue, and uses the callback up |
| BillingEvents.DisconnectFailsOnce | inference_exchange/coordinator/provider_hub.py:186-201 | a disconnect adds one failure to each live queue of the provider's requests and touches no callback; repeating it changes nothing |
| Listeners.HeardExactly | inference_exchange/coordinator/provider_hub.py:404-444 | after every run each open queue holds exactly what the events since its opening said to the request, in order: a token per chunk, an end per completion, its reason per error, one failure when its provider is lost; no other request has a queue |
| Listeners.NobodyListens | inference_exchange/coordinator/provider_hub.py:404-444 | without a queue chunks and errors are ignored and a completion is still charged if a callback is registered; without a request id everything is ignored |
| Hub.LoadRestoredIff | inference_exchange/coordinator/provider_hub.py:340-350 | a send and its completion or failure cancel out in the load counter exactly as long as no negative load was reported |
| Hub.LoadIsExact | inference_exchange/coordinator/provider_hub.py:340-350 | after any run of sends and ends the load is what it was and what began since less what ended, except that no end takes it below zero |
| Charging.BillIsExact | inference_exchange/coordinator/store.py:529-537 | uncached input costs the input price, cached tokens the cache price if there is one and else the input price, each tier rounded towards zero by itself; the fee is a tenth rounded down |
| Charging.BillNearPrices | inference_exchange/coordinator/store.py:529-534 | above the minimum, a bill whose cached tokens are part of the input is within 3 micro-USD of the sum of these products |
| Charging.RoundingLoss | inference_exchange/coordinator/store.py:529-534 | above the minimum the cost is less than 3 micro-USD from the exact price, whatever counts and prices are reported |
| Charging.NeverAboveIff | inference_exchange/coordinator/store.py:530-533 | if output and cached counts are only known to be at least two bounds, rounding never adds to the exact price exactly when neither bound is negative |
| Charging.CacheNeverCostsMore | inference_exchange/coordinator/store.py:529-534 | with cached tokens a part of the input and a cache rate within the input rate, cache hits never raise the cost, whatever the output count |
| Charging.CacheNeverCostsMoreIff | inference_exchange/coordinator/store.py:529-534 | for given input and cached counts that holds at all registered prices exactly when the cached tokens are part of the input |
| Charging.StoreVersusMemory | inference_exchange/coordinator/billing_memory.py:86-117 | without cached tokens the two ledgers differ by at most one micro-USD, and the store is not above if the output count is not negative |
| Charging.StoreVersusMemoryIff | inference_exchange/coordinator/billing_memory.py:86-117 | if input and output counts are only known to be at least two bounds, the store always charges what the in-memory ledger does or one micro-USD less exactly when neither bound is negative |
| Charging.MemoryCostIsExact | inference_exchange/coordinator/billing_memory.py:86-117 | the in-memory ledger rounds the sum of its two tiers towards zero, and charges at least 100 |
| Charging.FeeShare | inference_exchange/coordinator/store.py:536-537 | over n charges 100 times the fees lie between 10 times the cost less 90n and 10 times the cost |
| Charging.StoreBill | inference_exchange/coordinator/store.py:529-537 | fee and earning split the cost, the fee is no more than the earning, and the minimum is met |
| Store.LedgerStore.EnsureAccount | inference_exchange/coordinator/store.py:378-384 | an account is opened with the opening credit only if absent, and sound books stay sound |
| Store.LedgerStore.ChargeRequest | inference_exchange/coordinator/store.py:541-582 | the three writes of a charge, in their order, yield the specified books, and keep them sound if the consumer exists |
| Store.ChargedIsSound | inference_exchange/coordinator/store.py:541-574 | a charge to an existing consumer conserves money, reconciles every account and keeps ids ascending |
| Store.ConservedIffConsumerExists | inference_exchange/coordinator/store.py:542-553 | the money supply is conserved by a charge exactly when its consumer has an account |
| Store.BooksBalanceOverRuns | inference_exchange/coordinator/store.py:378-582 | after a run, balances plus fees are the opening credits, each account's money, request and token totals are those of its transactions and ids ascend, exactly when each charge of the run finds its consumer |
| Store.IdsOverRuns | inference_exchange/coordinator/store.py:555-574 | over every run at all, transaction ids ascend |
| Store.OneRowPerCharge | inference_exchange/coordinator/store.py:555-574 | every run appends one row for each of its charges, in order and numbered without gaps, with the parties, counts, amounts and tiers of that charge |
| Store.SupplyOverRuns | inference_exchange/coordinator/store.py:378-582 | over every run at all, the money supply grows by exactly what the charges of missing consumers cost |
| Store.ConservedOverRunsIff | inference_exchange/coordinator/store.py:541-553 | a run conserves money exactly when each of its charges finds its consumer |
| Store.EarningsOverRuns | inference_exchange/coordinator/store.py:548-574 | over every run at all, every provider has an account whose earned total is that of its transactions |
| MemoryLedger.BillingLedger.ChargeRequest | inference_exchange/coordinator/billing_memory.py:94-153 | charges only between known accounts, possibly the same one; every balance and usage count stays explained by the history |
| MemoryLedger.BillingLedger.TotalVolume | inference_exchange/coordinator/billing_memory.py:160-163 | the volume is what providers earned plus what the platform kept, at least the minimum per bill |
| Consolidation.CanonicalIsNotLegacy | scripts/consolidate_legacy_provider_accounts.py:116-145 | no account name is both canonical and legacy |
| Consolidation.NamesAre | scripts/consolidate_legacy_provider_accounts.py:116-145 | legacy names are "provider-" and decimal digits, canonical ones "provider-acct-" and lower-case hexadecimal digits |
| Consolidation.PlannableIff | scripts/consolidate_legacy_provider_accounts.py:113-209 | a database is accepted exactly if it has one live credential, of the canonical principal, and nothing archived, legacy accounts that were used for nothing but earning and hold just that, and transactions that divide their costs |
| Consolidation.LegacyEarningsAgree | scripts/consolidate_legacy_provider_accounts.py:164-184 | in an accepted ledger the legacy accounts' recorded earnings are those of the legacy transactions |
| Consolidation.TransactionsKept | scripts/consolidate_legacy_provider_accounts.py:285-300 | ids and every column but the provider survive, and so do the cost, earning and fee totals |
| Consolidation.RewriteIsExact | scripts/consolidate_legacy_provider_accounts.py:225-284 | no legacy account is left and every other stays; the archives hold exactly one row per retired account and moved transaction, with old name, new name and time |
| Consolidation.UnrelatedAccountsUnchanged | scripts/consolidate_legacy_provider_accounts.py:301-306 | every other account keeps its row and its attributed earnings |
| Consolidation.CanonicalReconciles | scripts/consolidate_legacy_provider_accounts.py:307-311 | the canonical account's new balance is explained by its enlarged set of transactions |
| Consolidation.BalancesFallByOpeningCredits | scripts/consolidate_legacy_provider_accounts.py:266-284 | the total of balances falls by exactly one opening credit per retired account |
| Consolidation.SecondRunRefused | scripts/consolidate_legacy_provider_accounts.py:123-147 | a consolidated database is refused, whichever principal is proposed |
| Consolidation.TotalsCheckRedundant | scripts/consolidate_legacy_provider_accounts.py:198-200 | the plan's last check follows from its check of each transaction |
| Consolidation.ArchivesRestoreLedger | scripts/consolidate_legacy_provider_accounts.py:232-251 | the two archives suffice to rebuild the original transactions and account rows |
| ConsolidationTool.AcceptedIffPlannable | scripts/consolidate_legacy_provider_accounts.py:113-209 | passing the checks one after the other is the same as having no objection at all |
| ConsolidationTool.EarningsPerAccount | scripts/consolidate_legacy_provider_accounts.py:164-175 | one pass computes the earnings of every legacy account and finds any broken row |
| ConsolidationTool.LaterChecksPass | scripts/consolidate_legacy_provider_accounts.py:260-320 | every check made after an accepted plan passes |
| ConsolidationTool.IntegrityKept | scripts/consolidate_legacy_provider_accounts.py:82-86 | the rewrite leaves no dangling foreign key |
| ConsolidationTool.LedgerDatabase.MakePlan | scripts/consolidate_legacy_provider_accounts.py:113-209 | a plan is returned exactly when the database is plannable, and a refusal names a reason that holds |
| ConsolidationTool.LedgerDatabase.Consolidate | scripts/consolidate_legacy_provider_accounts.py:212-334 | an accepted plan is always carried out in full with the right report, and a refused one changes no table |
| Earnings.GetOwnedProviderEarnings | inference_exchange/coordinator/store.py:1016-1115 | the error cases, the loop over nodes and the fetch of one row to spare yield exactly the specified report |
| Earnings.MatchingDescends | inference_exchange/coordinator/store.py:1097-1107 | rows come newest first, each once |
| Earnings.CursorContinues | inference_exchange/coordinator/store.py:1094-1115 | asking for rows older than a given row gives exactly the rows after it |
| Earnings.CrawlIsComplete | inference_exchange/coordinator/store.py:1087-1115 | following the cursor terminates, and the pages are exactly the history as first seen, whatever is appended between pages |
| Earnings.CrawlOverRuns | inference_exchange/coordinator/store.py:1087-1115 | so it is after every run, with any further accounts and charges between the pages |
| Earnings.SummaryIsHistoryTotal | inference_exchange/coordinator/store.py:1047-1085 | reported earnings, fees, costs and request counts are those of the rows on all pages of the history |
| Earnings.NodeIsHistoryTotal | inference_exchange/coordinator/store.py:1047-1075 | and those of one node are those of its own rows |
| Earnings.ReportRefusals | inference_exchange/coordinator/store.py:1027-1034 | a report is refused exactly for a node that is not the owner's, or else for a page of fewer than 1 or more than 100 rows |
| Earnings.ReportIsExact | inference_exchange/coordinator/store.py:1016-1115 | totals of the owner's history, in which earnings and fees make up the costs, and the newest rows before the cursor, with a cursor for more exactly if there are more |
| Earnings.AlwaysReconciled | inference_exchange/coordinator/store.py:1062-1085 | after every run, also one that charged missing consumers, every node and the summary are reconciled |
| Ownership.EnrollKeepsCaps | inference_exchange/coordinator/store.py:1146-1161 | one more credential leaves an owner with at most one active and at most three issued in any 86,400 seconds, even if clock readings arrive out of order |
| Ownership.EnrollKeepsInv | inference_exchange/coordinator/store.py:1120-1195 | enrollment keeps nodes, credentials, principals and owners matched |
| Ownership.ClaimKeepsInv | inference_exchange/coordinator/store.py:909-974 | so does a claim of an operator credential |
| Ownership.RevokeOwnedKeepsInv | inference_exchange/coordinator/store.py:1212-1243 | so does an owner's revocation |
| Ownership.RevokeAllKeepsInv | inference_exchange/coordinator/store.py:1309-1317 | so does an operator's revocation |
| Ownership.IssueKeepsInv | inference_exchange/coordinator/store.py:1267-1283 | so does issuing an operator credential |
| OwnershipStore.OwnershipTables.EnrollProviderNode | inference_exchange/coordinator/store.py:1120-1195 | succeeds exactly when all conditions hold, and then writes all four rows or else nothing; a refusal reports a condition that holds |
| OwnershipStore.OwnershipTables.ClaimLegacyProvider | inference_exchange/coordinator/store.py:909-974 | succeeds exactly for an unclaimed, unrevoked principal and an eligible owner, once; otherwise changes nothing |
| OwnershipStore.OwnershipTables.RevokeOwnedCredential | inference_exchange/coordinator/store.py:1212-1243 | revokes exactly an unrevoked self-service credential of that owner; anything else is refused alike |
| OwnershipStore.OwnershipTables.RevokeProviderToken | inference_exchange/coordinator/store.py:1309-1317 | stamps every unrevoked credential with that id, and reports whether there was one |
| OwnershipStore.OwnershipTables.DeleteUserAccount | inference_exchange/coordinator/store.py:1451-1461 | deletion is refused exactly while the user owns a node |
| OwnershipStore.InvOverRuns | inference_exchange/coordinator/store.py:909-1461 | the ownership invariants hold after every run of all operations |
| OwnershipStore.NodesArePermanent | inference_exchange/coordinator/store.py:1451-1461 | a node is never lost, never changes owner or principal, and its owner always exists |
| Credentials.EnrollGrants | inference_exchange/coordinator/store.py:1155-1186 | an enrollment leaves its owner with exactly one active credential, for one new node and principal, logged once, and touches nobody else's |
| Credentials.EnrolledOnlyOnce | inference_exchange/coordinator/store.py:1146-1152 | until it is revoked no further enrollment of that owner is possible, at any time |
| Credentials.EnrollmentIsOpenTo | inference_exchange/coordinator/store.py:1120-1161 | exactly a linked user who is not suspended may enroll, under a valid name and the one profile, with no active credential and fewer than three issued in the last day |
| Credentials.SuspensionDecides | inference_exchange/coordinator/store.py:1143-1145 | a suspension that has not ended forbids enrolling and being assigned a node; one that has ended, or none, forbids neither |
| Credentials.CapsAndLinkDecide | inference_exchange/coordinator/store.py:1141-1161 | neither is open without a linked GitHub identity, nor enrolling beyond one active credential or three issued in a day |
| Credentials.NamesAre | inference_exchange/coordinator/store.py:1127-1130 | a name is a letter or digit and at most 63 letters, digits, spaces, underscores, dots and hyphens |
| Credentials.ClaimGrants | inference_exchange/coordinator/store.py:948-970 | a claim ties the credential to one new node of the owner, once, and keeps everything else |
| Credentials.IssueGrants | inference_exchange/coordinator/store.py:1267-1283 | an operator credential is unrevoked and unclaimed, and any eligible user can be assigned it |
| Credentials.UsersAreApart | inference_exchange/coordinator/store.py:1451-1461 | deleting or setting a user touches no other user, node, credential or log entry |
| Credentials.RevocationKills | inference_exchange/coordinator/store.py:1212-1243 | an owner's revocation stamps that credential alone, leaves the owner none active, is logged, and cannot be repeated |
| Credentials.OwnsIffActive | inference_exchange/coordinator/store.py:1217-1226 | an owner may revoke exactly its active credentials, each by its id |
| Credentials.RevocationSweeps | inference_exchange/coordinator/store.py:1309-1317 | an operator's revocation leaves no credential with the id alive, keeps earlier stamps and touches no other |
| Credentials.CredentialsArePermanent | inference_exchange/coordinator/store.py:909-1461 | over every run no credential is lost or altered, no node is taken from it, and none comes back to life |
| Credentials.RevokedForever | inference_exchange/coordinator/store.py:1229-1232 | a credential revoked at any point of a run carries the stamp of that moment ever after |
| RateLimiter.LevelIs | inference_exchange/coordinator/rate_limiter.py:26-44 | the bucket holds x tokens exactly when every earlier call, with the admissions since, leaves room for them |
| RateLimiter.AdmitsIff | inference_exchange/coordinator/rate_limiter.py:26-37 | a call is refused exactly when admitting it would overdraw a window that ends with it |
| RateLimiter.WindowBound | inference_exchange/coordinator/rate_limiter.py:26-37 | of any calls in a row, at most burst plus rate times the time between two moments is admitted at readings between them, whatever the clock does |
| RateLimiter.ConsumersIndependent | inference_exchange/coordinator/rate_limiter.py:59-76 | a consumer's bucket depends on its own calls since its last reset, and on nobody else's |
| RateLimiter.RunBound | inference_exchange/coordinator/rate_limiter.py:26-76 | in any part of a run of all consumers' calls and resets without a reset of this one, that bound holds for its calls |
| RateLimiter.RemainingIsExact | inference_exchange/coordinator/rate_limiter.py:68-72 | the quoted remainder is at least one exactly when a call at that instant would be admitted |
| RateLimiter.RateLimiter.Allow | inference_exchange/coordinator/rate_limiter.py:59-66 | finding or making the bucket and consuming one token yields the specified levels and verdict |
| RateLimiter.RateLimiter.Remaining | inference_exchange/coordinator/rate_limiter.py:68-72 | reports the tokens available, the full burst for an unknown consumer |
| SlidingWindow.WindowBound | inference_exchange/coordinator/routes_auth.py:26-37 | a history whose every admission was allowed stays within the limit over every window, wherever it ends |
| SlidingWindow.CountIs | inference_exchange/coordinator/routes_auth.py:29-33 | the admissions in a window are the positions of the history whose time lies in it |
| SlidingWindow.WindowBoundIff | inference_exchange/coordinator/routes_auth.py:26-37 | if readings never fall by more than a given amount, every run stays within the limit over every window exactly when that amount is not positive |
| SlidingWindow.PoppingFilters | inference_exchange/coordinator/provider_registration.py:184-185 | in a chronological list, popping aged entries off the front is the same as filtering |
| SlidingWindow.KeptDecides | inference_exchange/coordinator/routes_provider.py:127-131 | whatever has been dropped, what is kept decides as the whole history does, now and later |
| Limiters.NeverExceeded | inference_exchange/coordinator/provider_registration.py:178-189 | at any time the history of any key is within its limit over every window |
| Limiters.RegistrationGuard.Allow | inference_exchange/coordinator/provider_registration.py:178-189 | decides by the credential's admissions of the last minute since its bucket was opened; at most 1024 buckets, the oldest evicted for a new credential |
| Limiters.RegistrationGuard.Begin | inference_exchange/coordinator/provider_registration.py:168-172 | at most 32 registrations are pending |
| Limiters.EnrollmentRate.Allow | inference_exchange/coordinator/routes_provider.py:124-134 | admits exactly when both the owner and the peer are within their limits, and counts for both or for neither |
| Limiters.AuthRate.Check | inference_exchange/coordinator/routes_auth.py:26-37 | decides by the recent admissions it keeps, one step of the run that WindowBoundIff speaks of; unless the clock goes back they are those of the address's last five minutes; a refusal leaves the table as it was |
| Transcripts.ParseJoin | inference_exchange/shared/e2e.py:47-49 | parsing undoes the length-prefixed encoding, for any number of fields of any content |
| Transcripts.JoinParse | inference_exchange/shared/e2e.py:47-49 | and encoding undoes the parsing |
| Transcripts.FieldsAre | inference_exchange/shared/e2e.py:47-49 | each field stands behind its length in four bytes, the most significant first |
| Transcripts.TranscriptsAre | inference_exchange/shared/handshake.py:82-93 | exactly which ids, keys and freshness have transcripts, and which fields these hold in which order |
| Transcripts.SessionTranscriptInjective | inference_exchange/shared/e2e.py:34-49 | equal session transcripts agree in every field |
| Transcripts.OfferTranscriptInjective | inference_exchange/shared/handshake.py:82-93 | equal offer transcripts agree in every field |
| Transcripts.TranscriptsAgreeIff | inference_exchange/shared/handshake.py:82-93 | one handshake has the same bytes in both only if its three keys and its admission id coincide |
| AssociatedData.AadInjective | inference_exchange/shared/e2e.py:162-165 | with ids of one length, so within one session, equal associated data means equal id, direction, sequence number and caller data |
| AssociatedData.CollideIff | inference_exchange/shared/e2e.py:162-165 | two different ids can collide exactly when the longer one is the shorter one, a bar, a direction, a bar and eight bytes, and then ends or goes on with a bar |
| AssociatedData.BarFreeIdsAreSafe | inference_exchange/shared/handshake.py:125 | ids without a bar, like the generated ones, never collide |
| AssociatedData.ShortIdsCollide | inference_exchange/shared/e2e.py:95-101 | every id of up to 226 ASCII characters has a longer acceptable one with which its first message can collide |
| E2ESession.AcceptedInOrder | inference_exchange/shared/e2e.py:134-160 | under any network, the accepted plaintexts are an in-order subsequence of those sent, each at most once and with the same caller data |
| E2ESession.NoncesNeverRepeat | inference_exchange/shared/e2e.py:137-139 | no nonce is used twice under a key |
| E2ESession.GenuineAcceptedIff | inference_exchange/shared/e2e.py:144-160 | a message delivered as sent is accepted exactly when its number exceeds the last accepted one, and yields its plaintext |
| E2ESession.SentThenDelivered | inference_exchange/shared/e2e.py:134-160 | whatever the network has done before, a plaintext that is sealed and then delivered is accepted, and nothing else changes |
| E2ESession.RefusalsLeaveNoTrace | inference_exchange/shared/e2e.py:144-160 | a refused delivery anywhere in a run changes nothing that happens afterwards |
| E2ESession.SealedIff | inference_exchange/shared/e2e.py:134-142 | a plaintext is sealed exactly if it has at most 16 MiB and its number fits; a larger one uses no number |
| E2ESession.RefusalIsExact | inference_exchange/shared/e2e.py:144-160 | a message is refused for the first of eight faults in their order, which changes nothing, or else accepted with the plaintext sealed in it, which moves the last accepted number to its own |
| E2ESession.E2ESession.Encrypt | inference_exchange/shared/e2e.py:134-142 | refuses an oversized plaintext without using a number; otherwise uses one, even when it no longer fits in eight bytes |
| E2ESession.E2ESession.Decrypt | inference_exchange/shared/e2e.py:144-160 | the checks in their order, and the last received number advances only on success |
| E2ESession.OpenSession | inference_exchange/shared/e2e.py:112-120 | a session needs an id, and its two ends use opposite directions |
| Gguf.ValueAt | inference_exchange/provider/model_identity.py:92-147 | reading any well-formed stored value, nested arrays included, yields it and stops exactly at its end |
| Gguf.ItemsAt | inference_exchange/provider/model_identity.py:131-145 | the same for the elements of an array |
| Gguf.StringAt | inference_exchange/provider/model_identity.py:84-89 | a string of at most 10,000 bytes reads back |
| Gguf.StringCutShort | inference_exchange/provider/model_identity.py:84-89 | a length above 10,000 fails, and a string cut off by the end of the file is silently shorter |
| Gguf.UnknownTypeIsSkipped | inference_exchange/provider/model_identity.py:66-73 | a type code beyond the known ones has no value and no bytes, and its pair is skipped |
| Gguf.HeaderReadsBack | inference_exchange/provider/model_identity.py:42-81 | key by key: after the version and tensor count, of the first 200 pairs, or those before a malformed one, each non-empty key is present with the value of its last pair, and no other key is |
| Gguf.HeaderCutShort | inference_exchange/provider/model_identity.py:51-65 | a file that does not begin with "GGUF" and a version yields nothing, and one that ends before its counts only the version |
| GgufReader.Reader.ReadString | inference_exchange/provider/model_identity.py:84-89 | the cursor ends after the string; a length over 10,000 is an error, a string cut off by the end of the file is not |
| GgufReader.Reader.ReadValue | inference_exchange/provider/model_identity.py:92-147 | the recursive reads with the two array loops compute the parse and leave the cursor at its end |
| GgufReader.Reader.ReadMetadata | inference_exchange/provider/model_identity.py:42-81 | the whole header; what was read before a malformed part is kept |
| Reputation.AlwaysFractions | inference_exchange/coordinator/reputation.py:54-98 | over every history each request is counted once and nothing falls below zero; both averages and the score stay in [0,1] if no latency is negative, and the success average always does |
| Reputation.CountersAreExact | inference_exchange/coordinator/reputation.py:69-98 | each counter counts its own outcomes, errors and disconnects alike |
| Reputation.LatencyScoreIs | inference_exchange/coordinator/reputation.py:82-85 | the latency score falls linearly from one at no latency to nothing at five seconds |
| Reputation.LatencyStays | inference_exchange/coordinator/reputation.py:87-98 | errors and disconnects leave the latency average alone |
| Reputation.LatencyMoves | inference_exchange/coordinator/reputation.py:78-94 | k timeouts, or k successes of one latency, in a row scale its distance to their score by 0.8 to the k |
| Reputation.ScoreIs | inference_exchange/coordinator/reputation.py:54-62 | the score is neutral before the third request, and then seven tenths success and three tenths latency |
| Reputation.FractionsIffNotNegative | inference_exchange/coordinator/reputation.py:82-85 | over all histories whose latencies are at least a bound, every average is a fraction exactly when the bound is not negative |
| Reputation.FailuresDecay | inference_exchange/coordinator/reputation.py:87-98 | k failures in a row scale the success average by 0.8 to the k |
| Reputation.SuccessesRecover | inference_exchange/coordinator/reputation.py:78-80 | k successes in a row scale its distance to one by 0.8 to the k |
| Reputation.FourDecide | inference_exchange/coordinator/reputation.py:64-67 | four failures in a row degrade any provider seen five times; four successes restore any provider |
| Reputation.ProviderReputation.RecordOutcome | inference_exchange/coordinator/reputation.py:69-98 | the fields are what the whole history makes them, and the last fifty outcomes are kept |
| Throughput.AverageInRange | inference_exchange/coordinator/tps_tracker.py:175-181 | the average stays between the least and the greatest speed observed |
| Throughput.SpeedsSnoc | inference_exchange/coordinator/tps_tracker.py:163-168 | a request adds its tokens per second, unless it took no time or made no tokens |
| Throughput.ProviderModelTps.Record | inference_exchange/coordinator/tps_tracker.py:163-185 | count, average, least, greatest and the last hundred speeds are those of the measurable history |
| Throughput.ProviderModelTps.EffectiveIs | inference_exchange/coordinator/tps_tracker.py:187-200 | the hardware estimate counts for three measurements less those made, and for nothing from the third on |
| Throughput.ProviderModelTps.EffectiveInRange | inference_exchange/coordinator/tps_tracker.py:187-200 | the speed used for routing stays within what was estimated and observed |
| Throughput.ProviderModelTps.AnomalousIff | inference_exchange/coordinator/tps_tracker.py:202-210 | an anomaly is reported exactly below 17/37 of the average before the latest speed |

## Left out

- Float rounding in prices, scores, bucket levels and averages: exact reals instead.
- Hub.ProviderHub.SendToProvider: the part of sending before the transmission; the transmission itself is not modelled, and SendFailed is the part after a failed one.
- Hub.ProviderHub.HandleProviderMessage: returns whether a dispatch is scheduled; the scheduled dispatch is a step of its own, since nothing orders it with respect to other events.
- Clock readings: a call that reads the clock several times gets one reading, except that greedy matching reads it once per order.
- The handlers' loops over their response queues, and what they do with each message; only the steps that touch the hub are events. 
- Providers are values in registration order, identified by id, so an update through a reference held after a disconnect is not captured; neither are names, keys and attestation fields.
- Waiting with a timeout: a timed-out waiter leaves its request in the queue, where the model treats it like any other; a later dispatch may still be spent on it.
- The text of refusals, match reasons, queue times and traces; the order of the orphaned requests that a disconnect returns.
- Encryption is an ideal AEAD: real ciphertexts, key derivation, signatures and base64 are not modelled. Text encoding is any function that keeps different texts apart.
- Floating-point metadata values stay as their bytes, and text decoding of metadata is a parameter. Python's recursion limit on nested arrays is not modelled.
- Database files, locks, WAL, digests and backups: a transaction is one step, and a rollback leaves the tables unchanged. The order of rows in the archives is that of the tables.
- The earnings of the current day. Rows and columns that no modelled operation reads: trust level, latency and other metadata of a transaction; session and outcome tables; API keys other than their owners.
- Transport, HTTP routing, parsing and validation of messages, logging, metrics, the event bus, authentication, attestation, price collection and the front end.
- The hardware table of initial speed estimates: the estimate is a parameter.
