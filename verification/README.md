# Proofs about the bot economy

A Dafny model of the economy that bots run among themselves, and proofs of what it keeps. The modules follow the
program:

- `Economy`, `Order`, `Gaps`, `Claims`, `Trim`, `Steps` define the coordinator without its caches: what it knows (a
  `Book`), the gap totals that knowledge implies, the life of a claim, the trim that follows changed facts, and every
  public call as one step on the book.
- `Progress`, `Safety`, `Personal`, `Credits` prove what every step, and so every run of calls in any order and with any
  clock, keeps. `Figures`, `Outcomes`, `Refreshes`, `Admission` tell what single calls come to in the terms of the facts,
  claims and requests they are about, independently of how the steps are written: what each fact adds to a gap, what settles
  a claim and what of it stays supply, what refreshed facts take away, and who is granted what. `Counterexamples` shows two
  bounds that do not hold, on whole families of runs; the exact conditions under which they do hold are proved in `Credits`
  and `Trim`.
- `Tally`, `Chains`, `ChainSync`, `Coordinator` are the program as it is written: a class with a lazily rebuilt gap cache, a
  chain registry, blocker rows and a generation, updated in place by loops. Each public method is proved to do to the book
  what the step of the same name does, with the cache coherent and the registry sound at every call boundary. Every call but
  a lease keeps the figures of all chains right and the blocker rows true; `Coordinator` states exactly when a lease does, and
  `StaleFigures` holds runs where it does not.
- `GatheringPlan` is the planner for dedicated gathering and the validator that re-checks its plans; `GatheringLeases` the
  lease table for resources.
- `Positions`, `Evidence`, `ReferencePrices`, `Market` are the position ledger, the bounded evidence, the reference price and
  the write protocol of the market makers; `Dealings` tells what their deals come to.
- `LootYields`, `Trace`, `GatheringPath`, `Compaction` are the memoised loot resolver, the trace ring, the gathering path and
  the compaction of the material book.

`AssignProduction` is modelled as the program runs it, as separate locked steps: the renewal of what the actor holds, a
snapshot, and a lease. Other calls may come between them, and every statement over runs allows for that.

Quantities of 32 bits are a bounded type and are cut or proved to fit wherever the program casts; sums the program keeps in
64 bits are natural numbers, with the overflow checks the program makes stated against the largest 64-bit value. Where the
program multiplies into 64 bits without a check (scaled loot yields) or adds explicit chances in 32, the wrap-around is
written out.

Places where the code does less than its comments or callers might suppose:

- A record of consumed inputs lowers demand without trimming claims, so promises may then exceed demand; they are within it
  again after the next refresh that changes something (`Credits.ConsumptionKeepsPromisesIffSlack`,
  `Counterexamples.ConsumptionMayOverPromise`).
- The trim bounds speculation against the purchase need it starts from. Cutting production raises that need, and the
  speculation that stays may then hold goods that are needed (`Trim.SpeculationFitsRaisedNeedIff`,
  `Counterexamples.SpeculationMayOutlastNeed`).
- A lease can start a chain between syncs, when an inactive chain has made room since the last. If nothing is open to it or
  released for it, the chain is left with figures of zero until the next sync (`Coordinator.Coordinator.Lease`,
  `StaleFigures.LeaseMayLeaveStaleFigures`).
- A refusal is recorded as a blocker row whether or not the gap needs anything (`Coordinator.Coordinator.Lease`,
  `Progress.LeavesRowIff`, `StaleFigures.RefusalMayLeaveIdleRow`).
- A restart writes a partly backed position back with the time of the restart and keeps it in memory with the time it was
  stored with (`Market.RestoredExactlyIff`, `Market.RestoredMayDiffer`).
- Restoring a partly backed position floors its cost, possibly to zero (`Positions.PartlyBackedIsValidIff`). Such a position
  fails the validity check it has just passed, and the table it is written back to refuses open positions without a cost
  (`data/sql/db_playerbot/updates/2026_08_08_02_playerbot_economy_market.sql`), so the write would fail and stop the book.

## Model

| member | source | states |
|---|---|---|
| Safety.RunKeepsPromises | src/Bot/Economy/PlayerbotEconomyCoordinator.cpp:1061-1160 | Over every run of calls that records no consumed inputs, at every gap either nothing is promised or supply and promises together stay within demand. |
| Safety.StepKeepsPromises | src/Bot/Economy/PlayerbotEconomyCoordinator.cpp:396-637 | Every single call other than a record of consumed inputs keeps that bound, from any well-formed book: refreshes, leases, renewals, progress reports, invalidation, expiry. |
| Safety.ReconciledKeepsPromises | src/Bot/Economy/PlayerbotEconomyCoordinator.cpp:1061-1160 | A trim re-establishes the bound whatever the book was like before. |
| Safety.ChangedFactsRestorePromises | src/Bot/Economy/PlayerbotEconomyCoordinator.cpp:175-324 | After any run at all, records of consumed inputs included, a refresh restores the bound if it brings an actor that is new, facts that differ or credits to drop, or facts of a market that differ. |
| Credits.ConsumptionKeepsPromisesIffSlack | src/Bot/Economy/PlayerbotEconomyCoordinator.cpp:233-297 | The one call that does not trim keeps the bound exactly when, at every gap with promises, the credit it adds fits in the demand that goods and promises have not taken up. |
| Credits.ConsumptionLowersDemand | src/Bot/Economy/PlayerbotEconomyCoordinator.cpp:233-297 | Recording consumed inputs lowers the demand of each gap by exactly what it credits there and changes no other figure beyond expiry. |
| Counterexamples.ConsumptionMayOverPromise | src/Bot/Economy/PlayerbotEconomyCoordinator.cpp:233-297 | A family of runs of three calls (demand reported, all of it leased for production, part of it consumed) that end over-promised, while every prefix keeps the bound. |
| Trim.TrimmedRestores | src/Bot/Economy/PlayerbotEconomyCoordinator.cpp:1061-1160 | For every gap the trim leaves demand, supply and auction supply as they are, cuts promises to exactly min(promised, uncovered demand), takes as much off non-auction supply, brings purchases and speculation within their capacities, and touches neither if they fit. |
| Trim.ShrinkTotals | src/Bot/Economy/PlayerbotEconomyCoordinator.cpp:1104-1158 | Shrinking claims in order takes exactly the excess off the promises of the gap and leaves its supply alone. |
| Trim.TrimmedLater | src/Bot/Economy/PlayerbotEconomyCoordinator.cpp:1061-1160 | A trim only ever moves a claim forward: terms fixed, committed work never less, quantity never more, settled claims untouched. |
| Trim.LeastCommittedFirst | src/Bot/Economy/PlayerbotEconomyCoordinator.cpp:1104-1158 | Work under way is trimmed only once every claim of the gap that gives way before it (less committed, or as much and started later, or started together and leased earlier) has nothing uncommitted left. |
| Trim.StableOrderSorted | src/Bot/Economy/PlayerbotEconomyCoordinator.cpp:1117-1127 | The order of trimming: least committed first, of those the latest started, of those the one leased first. |
| Trim.TrimmedWork | src/Bot/Economy/PlayerbotEconomyCoordinator.cpp:1061-1160 | Over the trim of all gaps: work under way is left, cut between its committed and its old quantity, or released with exactly what is committed and never with a quantity of zero; of two claims of a gap at most one is cut, and one is touched only once those that give way before it have given all they had. |
| Trim.EvictedIffNewerDoNotSuffice | src/Bot/Economy/PlayerbotEconomyCoordinator.cpp:1070-1102 | Of the purchases over capacity one is evicted exactly when the quantities of the newer ones do not make up the excess. |
| Trim.EvictionSparesWork | src/Bot/Economy/PlayerbotEconomyCoordinator.cpp:1066-1102 | Evicting purchases leaves production and resource claims as they are. |
| Trim.PersonalClaimsSurviveTrim | src/Bot/Economy/PlayerbotEconomyCoordinator.cpp:1066-1158 | No trim touches a personal claim. |
| Trim.SpeculationFitsRaisedNeedIff | src/Bot/Economy/PlayerbotEconomyCoordinator.cpp:1066-1158 | For every trim and every gap: what speculation the trim leaves, what purchase need it raises by cutting production, and that the one fits beside the other exactly if nothing is left or the auctions hold both, all told from the claims and totals before it. |
| Trim.TrimmedLeaves | src/Bot/Economy/PlayerbotEconomyCoordinator.cpp:1070-1086 | The speculation a trim leaves at a gap is the sum of the claims whose newer ones make up the excess; no later part of the trim changes it. |
| Counterexamples.SpeculationMayOutlastNeed | src/Bot/Economy/PlayerbotEconomyCoordinator.cpp:1066-1158 | A family of runs of seven calls from the empty book (goods made and not reported, speculation beside them, the bridge lapses, production is leased anew, more goods are listed) after which all goods at auction are needed and n of them are leased on speculation. |
| Safety.RunKeepsBacking | src/Bot/Economy/PlayerbotEconomyCoordinator.cpp:516-584 | In every reachable state the leased shared purchases of a market and group, consumer, producer and speculation together, never exceed the auction supply on record for it. |
| Safety.StepKeepsBacking | src/Bot/Economy/PlayerbotEconomyCoordinator.cpp:1066-1102 | Every single call keeps that bound, a market refresh that lowers the supply included. |
| Safety.RunKeepsClaims | src/Bot/Economy/PlayerbotEconomyCoordinator.cpp:1162-1224 | Over every run: quantity at least 1, bridged <= committed <= quantity, Completed means fully committed, a bridge only on released non-purchases, lease ids unique and never reused; and each claim keeps its terms and progress, never grows and never returns to Leased. |
| Safety.StepKeepsClaims | src/Bot/Economy/PlayerbotEconomyCoordinator.cpp:1162-1224 | The same for every single call. |
| Claims.SettleOk | src/Bot/Economy/PlayerbotEconomyCoordinator.cpp:1162-1224 | Reporting any outcome on a claim keeps it well formed and moves it forward, and it stays leased exactly if progress is all that is reported. |
| Outcomes.OutcomeRecounts | src/Bot/Economy/PlayerbotEconomyCoordinator.cpp:1162-1224 | What any reported outcome does to the totals of the gap: goods committed by then stay supply after every outcome but a completion or a receipt, what is not yet made stays promised only while the work goes on, and non-auction supply moves with both. |
| Outcomes.OutputRecounts | src/Bot/Economy/PlayerbotEconomyCoordinator.cpp:758-796 | Reported output moves what is made from promised to supplied until the claim is complete, which it is exactly when all that was asked is made; then the claim owes and bridges nothing. No other claim changes. |
| Outcomes.ReportsIgnored | src/Bot/Economy/PlayerbotEconomyCoordinator.cpp:758-825 | Reports about no lease, of no output, or of output where nothing is produced do what expiry does and nothing else. |
| Outcomes.InvalidationKeepsSupply | src/Bot/Economy/PlayerbotEconomyCoordinator.cpp:1030-1043 | An actor that logs out, is disabled or fails gives up exactly its leases, for the reason given and with what they committed bridged; every other claim is as it was; and the supply of every gap is as it was, so that nobody is asked to make its goods again. |
| Outcomes.SettledClaimStands | src/Bot/Economy/PlayerbotEconomyCoordinator.cpp:1004-1028 | A settled claim, and what it bridges, is on the book until 300 seconds after it was settled and no longer. |
| Outcomes.ExpiryTold | src/Bot/Economy/PlayerbotEconomyCoordinator.cpp:1004-1028 | The claims after expiry, exactly: leases with time left, overdue ones released with what they committed bridged, settled ones for 300 seconds. |
| Outcomes.ExpiryKeepsSupply | src/Bot/Economy/PlayerbotEconomyCoordinator.cpp:1004-1028 | Expiry takes nothing from the supply of a gap but the bridges of claims whose retention is over. |
| Outcomes.ReportsAreTold | src/Bot/Economy/PlayerbotEconomyCoordinator.cpp:1183-1213 | A chain hears of a release, and not of a delivery, exactly after the outcomes that leave goods bridged. |
| Claims.ExpiredTotals | src/Bot/Economy/PlayerbotEconomyCoordinator.cpp:1004-1028 | Expiry neither adds to promises, purchases or speculation of any gap nor touches its demand and auction supply. |
| Claims.BridgesSpendReportOnce | src/Bot/Economy/PlayerbotEconomyCoordinator.cpp:194-216 | A refresh lowers the bridges an actor holds in a group by exactly min(reported inventory and mail, total bridged): each reported unit is spent once. |
| Claims.BridgesOfOthersStay | src/Bot/Economy/PlayerbotEconomyCoordinator.cpp:204-209 | Claims of other actors or markets, and those not released, keep their bridges. |
| Refreshes.ReportedIsAtHand | src/Bot/Economy/PlayerbotEconomyCoordinator.cpp:194-201 | Only what an actor reports in its bags and mail is spent on bridges. |
| Refreshes.OlderBridgesFirst | src/Bot/Economy/PlayerbotEconomyCoordinator.cpp:203-216 | No bridge is touched while an older one of the same goods of the actor has something left. |
| Refreshes.RefreshTakesLeases | src/Bot/Economy/PlayerbotEconomyCoordinator.cpp:183-192 | An actor that moves to another market, goes offline or loses its autonomy holds no lease once its facts have been refreshed. |
| Refreshes.LeasesTakenAreBridged | src/Bot/Economy/PlayerbotEconomyCoordinator.cpp:183-193 | Its leases are given up for want of capability, with what they committed bridged, before anything expires. |
| Refreshes.RefreshLeavesLeases | src/Bot/Economy/PlayerbotEconomyCoordinator.cpp:183-192 | Any other actor keeps, up to the trim, exactly the leases that are not overdue. |
| Refreshes.RefreshTellsFacts | src/Bot/Economy/PlayerbotEconomyCoordinator.cpp:175-231 | A refresh replaces the facts of its actor, drops its credits and touches no other facts; if the facts are new, credits were held, a bridge is spent or figures were stale, promises are within demand afterwards. |
| Progress.RenewalLeavesOneClaim | src/Bot/Economy/PlayerbotEconomyCoordinator.cpp:646-705 | After the locked part of a production assignment the actor has at most one production claim under way, one it is at work for, knows how to make and is offered, with the new expiry; its others are released with what they committed, and told apart by whether they could still be made; all other claims are as expiry leaves them. |
| Progress.RenewalKeepsOne | src/Bot/Economy/PlayerbotEconomyCoordinator.cpp:661-694 | And it does keep one, no later than the first that can still be made. |
| Progress.IdleRenewal | src/Bot/Economy/PlayerbotEconomyCoordinator.cpp:641-644 | A request that names nobody, no market or no time to come changes nothing, expiry included. |
| Progress.LeaseOutcomeExists | src/Bot/Economy/PlayerbotEconomyCoordinator.cpp:396-637 | Every lease, granted or refused, only moves existing claims forward; a grant adds one fresh claim for the request, no larger than asked and no larger than the gap (uncovered demand for work, unleased auction supply for purchases). |
| Progress.ProductionLeaseTakesAll | src/Bot/Economy/PlayerbotEconomyCoordinator.cpp:586-636 | A production lease takes all the uncovered demand it asks for; speculation makes way only when nothing is uncovered otherwise, and only if nothing is uncovered then is the lease refused. |
| Progress.PurchaseLeaseTakesAll | src/Bot/Economy/PlayerbotEconomyCoordinator.cpp:534-584 | A needed purchase takes the smaller of what the gap still has to buy and the auctions still have to sell, after speculation has made way where it stands between the two. |
| Progress.SpeculationLeavesNeeded | src/Bot/Economy/PlayerbotEconomyCoordinator.cpp:522-532 | A speculative purchase never takes goods that are needed or already leased. |
| Progress.LeaseTakesWhatIsOpen | src/Bot/Economy/PlayerbotEconomyCoordinator.cpp:396-637 | The whole call: what the checks turn away changes nothing but expiry; a personal request is granted in full; work without a chain is refused for capacity; any other request gets exactly what is open to it, up to what it asks, and is refused only when nothing is. |
| Admission.LeaseGrantedIff | src/Bot/Economy/PlayerbotEconomyCoordinator.cpp:396-637 | A request is granted exactly if its actor is online, works for itself or on command, in the market of the request; something is asked for, by name and until some time to come; both accounts of a purchase are known; a personal purchase is fit to be one, not contested and one of fewer than 256; the policy objects to nothing; and, unless it is personal, it has a chain or is speculation and finds room. Then it gets all the room it asks for, as a claim with the fields it asks for. |
| Admission.LeaseRefusedAsDue | src/Bot/Economy/PlayerbotEconomyCoordinator.cpp:396-492 | Each refusal by a check is given exactly for its own reason, for every verdict the policy can give. |
| Admission.LeaseMovesClaims | src/Bot/Economy/PlayerbotEconomyCoordinator.cpp:510-637 | A grant adds one claim; speculation at the gap is released exactly if the request is no speculation and there is not room enough without; every other claim is as expiry leaves it. |
| Admission.OpenIsRoom | src/Bot/Economy/PlayerbotEconomyCoordinator.cpp:516-600 | What is open to a request, told from the totals before anything makes way: a needed purchase gets what is needed, not yet leased and at auction, however much of that is held on speculation; production what is neither supplied nor promised, or if that is nothing what would not be promised but for speculation. |
| Admission.SpeculationMakesWay | src/Bot/Economy/PlayerbotEconomyCoordinator.cpp:1045-1059 | Releasing the speculation of a gap takes its promises and purchases away and leaves what it made as supply. |
| Admission.AuctionIdentities | src/Bot/Economy/PlayerbotEconomyCoordinator.cpp:419-441 | A work identity counts as that of an auction exactly if it is the one printed for some auction. |
| Credits.RunKeepsCredits | src/Bot/Economy/PlayerbotEconomyCoordinator.cpp:233-297 | In every reachable state no credit exceeds the demand the published supply of its actor leaves uncovered. |
| Credits.ConsumptionRaisesCredit | src/Bot/Economy/PlayerbotEconomyCoordinator.cpp:248-277 | Group by group, a record raises the credit of an online autonomous actor by what it reports, up to the demand left uncovered and 32 bits; no credit falls, and no other is touched. |
| Credits.DemandLessCredit | src/Bot/Economy/PlayerbotEconomyCoordinator.cpp:1241-1261 | So an online autonomous actor adds exactly demand less credit to its gap, and never less than min(demand, supply). |
| Credits.CreditsAddUp | src/Bot/Economy/PlayerbotEconomyCoordinator.cpp:233-297 | Over any run of calls since the facts of the actor were last refreshed, the amounts credited sum to the credit held. |
| Personal.PersonalClaimsDoNotCount | src/Bot/Economy/PlayerbotEconomyCoordinator.cpp:1281-1282 | Gap totals are those of the book without its personal claims. |
| Personal.RunKeepsPersonalPurchases | src/Bot/Economy/PlayerbotEconomyCoordinator.cpp:469-508 | In every reachable state no two leased purchases of a market share a work identity if either is personal, and at most 256 personal claims are leased. |
| Tally.Rebuild | src/Bot/Economy/PlayerbotEconomyCoordinator.cpp:1232-1309 | The loops that rebuild the gap cache compute, for every key mentioned, exactly the totals the definitions give, and the consumers with demand left, in order. |
| Tally.TallyActor | src/Bot/Economy/PlayerbotEconomyCoordinator.cpp:1241-1269 | One actor adds its credited-down demand and its supply to the rows of its market and joins the consumers of the keys where demand is left. |
| Tally.TallyClaims | src/Bot/Economy/PlayerbotEconomyCoordinator.cpp:1280-1306 | The loop over claims adds to each row what its shared claims promise and supply. |
| Figures.KnownActorAdds | src/Bot/Economy/PlayerbotEconomyCoordinator.cpp:1241-1269 | One actor more adds what it has to the supply of the gaps of its market and, online and autonomous, what it wants less its credit to their demand, and nothing else anywhere, in whatever order actors are known. |
| Figures.KnownMarketAdds | src/Bot/Economy/PlayerbotEconomyCoordinator.cpp:1271-1278 | One market more adds what is at auction there to supply and auction supply. |
| Figures.KnownClaimAdds | src/Bot/Economy/PlayerbotEconomyCoordinator.cpp:1280-1306 | One claim more adds, unless it is personal: under way, what is made as supply and the rest as a promise, or its quantity to the purchases or to the speculation; given up, what is bridged; and otherwise nothing. |
| Figures.NothingAddsNothing | src/Bot/Economy/PlayerbotEconomyCoordinator.cpp:1232-1309 | With nothing known every figure is zero; with the three above this determines the figures of every book. |
| Figures.ConsumersAre | src/Bot/Economy/PlayerbotEconomyCoordinator.cpp:1241-1261 | The consumers of a gap are exactly the online autonomous actors of its market that want more than they are credited, in ascending order. |
| Gaps.UntouchedIsZero | src/Bot/Economy/PlayerbotEconomyCoordinator.cpp:1232-1309 | A key without a row in the cache has no demand, no supply and no claims. |
| Coordinator.PersonalLeaseLeavesCache | src/Bot/Economy/PlayerbotEconomyCoordinator.cpp:487-508 | A personal lease changes no total and no consumer list, which is why it need not invalidate the cache. |
| Coordinator.ExpiryLeavesCache | src/Bot/Economy/PlayerbotEconomyCoordinator.cpp:689-694 | Renewing the expiry of a claim changes no total and no consumer list either. |
| Coordinator.Coordinator.CalculateGaps | src/Bot/Economy/PlayerbotEconomyCoordinator.cpp:1232-1309 | A dirty cache becomes the fresh recomputation of the current facts; a clean one is left alone. |
| Coordinator.Coordinator.GapAt | src/Bot/Economy/PlayerbotEconomyCoordinator.cpp:1232-1309 | The totals read for a key are those of the current facts, whether or not the cache had to be rebuilt. |
| Coordinator.Coordinator.ApplyOutcome | src/Bot/Economy/PlayerbotEconomyCoordinator.cpp:1162-1224 | One claim is settled as defined and no other changes; exactly if something changed the cache is invalidated and the chain of the claim, if it is still there, gains the event of this outcome with the need then left. |
| Coordinator.Coordinator.ExpireLocked | src/Bot/Economy/PlayerbotEconomyCoordinator.cpp:1004-1028 | Overdue leases are settled and long settled claims forgotten, in one pass; the result says whether anything changed; the cache is dirty afterwards exactly if a claim was forgotten, or the last to lapse had no chain left to tell, or nothing lapsed and it was dirty before. |
| Coordinator.Coordinator.ReleaseExcessClaims | src/Bot/Economy/PlayerbotEconomyCoordinator.cpp:1061-1160 | The in-place trim of all keys, in key order and against totals read once, does what the value-level trim does. |
| Coordinator.Coordinator.TrimKeyLocked | src/Bot/Economy/PlayerbotEconomyCoordinator.cpp:1061-1160 | The in-place trim of one key: evict speculation, evict purchases, shrink the rest. |
| Coordinator.Coordinator.RefreshActor | src/Bot/Economy/PlayerbotEconomyCoordinator.cpp:175-231 | Does to the book what the cacheless step does: credits fall away, lost work is released, bridges are spent once, facts are taken in, and a trim follows exactly if anything mattered or what expired left the cache dirty. The chains then follow the new gaps, and figures and blocker rows that were right stay right. A refresh that changes nothing leaves the whole object unchanged. |
| Coordinator.Coordinator.RefreshMarket | src/Bot/Economy/PlayerbotEconomyCoordinator.cpp:299-324 | Does to the book what the cacheless step does; unchanged facts change nothing but what expires, and whenever anything changes the chains and blocker rows are brought in step with the gaps. |
| Coordinator.Coordinator.RecordConsumedInputs | src/Bot/Economy/PlayerbotEconomyCoordinator.cpp:233-297 | Raises credits as the cacheless step does and answers what was credited, cut to 32 bits. |
| Coordinator.Coordinator.RaiseCredits | src/Bot/Economy/PlayerbotEconomyCoordinator.cpp:253-277 | The loop over requested groups raises each credit at most to the uncovered demand, and the amounts add up. |
| Coordinator.Coordinator.Lease | src/Bot/Economy/PlayerbotEconomyCoordinator.cpp:396-637 | Book and answer are those of the cacheless step with the chain the registry offers (none exactly if the gap has none and has no demand, or all 256 chains are active), for any verdict of the work policy. Right chain figures stay right exactly unless the request passes the checks, its gap is given a chain, and nothing is open to it or released for it. True blocker rows stay true exactly unless a check refuses the request with a row, or no chain can be had for it, and its gap needs nothing. Both conditions are told from the object as the call finds it, once it has caught up with what is due. |
| Coordinator.Coordinator.LeaseFromGap | src/Bot/Economy/PlayerbotEconomyCoordinator.cpp:510-637 | The same for a request that has passed the checks. |
| Progress.RefusedInVainIff | src/Bot/Economy/PlayerbotEconomyCoordinator.cpp:510-637 | A request served with the chain on offer is refused, with the claims left as they are, exactly if nothing is open to it and no speculation makes way for it. |
| Progress.LeavesRowIff | src/Bot/Economy/PlayerbotEconomyCoordinator.cpp:396-514 | A call leaves a blocker row exactly if the request is not personal and either a check refuses it with a recorded blocker other than lack of demand, or it passes the checks, is not speculation and has no chain; and then it leaves the book as it is. |
| StaleFigures.LeaseMayLeaveStaleFigures | src/Bot/Economy/PlayerbotEconomyCoordinator.cpp:510-515 | Three calls on a new coordinator that leave an active chain with figures that are not those of its gap: 257 gaps compete for 256 chains, one chain is closed, and a lease in vain starts a chain for the gap left out. |
| StaleFigures.RefusalMayLeaveIdleRow | src/Bot/Economy/PlayerbotEconomyCoordinator.cpp:405-407 | One call on a new coordinator, any request that is not personal, that leaves a blocker row at a gap that needs nothing. |
| ChainSync.StartedBreaksShow | src/Bot/Economy/PlayerbotEconomyChains.cpp:228-267 | A chain started between syncs never shows the demand it was started for. |
| Coordinator.Coordinator.LeasePurchase | src/Bot/Economy/PlayerbotEconomyCoordinator.cpp:534-584 | The part for needed purchases, with speculation released only where it stands in the way. |
| Coordinator.Coordinator.LeaseWork | src/Bot/Economy/PlayerbotEconomyCoordinator.cpp:586-636 | The part for production and resource work. |
| Coordinator.Coordinator.Reserve | src/Bot/Economy/PlayerbotEconomyCoordinator.cpp:487-508 | A personal purchase joins the book without a chain and without invalidation, and the cache is still coherent. |
| Coordinator.Coordinator.RejectLocked | src/Bot/Economy/PlayerbotEconomyCoordinator.cpp:1311-1353 | A refusal never touches the book. Unless it is unrecorded, personal or for lack of demand it leaves a row with its blocker, dated from when that blocker first stood, and one event on the active chain of the gap, with the figures left as they are. |
| Coordinator.RefusalIsNoted | src/Bot/Economy/PlayerbotEconomyCoordinator.cpp:1311-1353 | What a refusal notes: the reason at its gap, with the time since which the same reason has stood there, and on the chain of the gap who was refused what, and why; other rows and chains are left alone. |
| Coordinator.Coordinator.RenewProduction | src/Bot/Economy/PlayerbotEconomyCoordinator.cpp:639-705 | The first claim the actor can go on with is renewed, its other production claims are settled, and nothing else moves; chain figures and blocker rows that were right stay right. |
| Coordinator.Coordinator.RecordProductionOutput | src/Bot/Economy/PlayerbotEconomyCoordinator.cpp:758-796 | Output is committed up to the quantity of a leased production claim, and completes it exactly when it reaches it; whenever anything changes the chains follow the gaps. |
| Coordinator.Coordinator.RecordOutcome | src/Bot/Economy/PlayerbotEconomyCoordinator.cpp:798-825 | The outcome is applied to the leased claim with the id, and otherwise nothing but expiry happens; the answer is whether there was such a claim; whenever anything changes the chains follow the gaps. |
| Coordinator.Coordinator.InvalidateActor | src/Bot/Economy/PlayerbotEconomyCoordinator.cpp:827-841 | Credits of the actor are gone and its leased claims released with the given outcome; whenever anything changes the chains follow the gaps. |
| Coordinator.Coordinator.Expire | src/Bot/Economy/PlayerbotEconomyCoordinator.cpp:843-852 | Expiry as a call of its own; a call that expires nothing leaves the object unchanged, any other brings the chains in step with the gaps. |
| Coordinator.Coordinator.SnapshotGaps | src/Bot/Economy/PlayerbotEconomyCoordinator.cpp:854-886 | The gaps of a snapshot: exactly one row per key with demand, in key order, with the true totals cut to 32 bits. |
| Coordinator.Coordinator.SpendBridges | src/Bot/Economy/PlayerbotEconomyCoordinator.cpp:194-216 | The loop that spends reported goods on bridges spends each reported unit once. |
| Coordinator.Coordinator.SyncChains | src/Bot/Economy/PlayerbotEconomyChains.cpp:146-226 | A due sync makes of the registry what is defined, keeps exactly the blocker rows whose gap has demand neither supplied nor promised, and leaves every active chain with the current figures of a gap with demand; a sync that is not due changes nothing. |
| ChainSync.SyncFollowsGaps | src/Bot/Economy/PlayerbotEconomyChains.cpp:146-226 | What a sync makes of any sound registry: a key has a chain afterwards only if it has demand, and every key with demand has one unless all 256 places are taken; a key that keeps its demand keeps its chain; every chain that was active is brought up to date or closed, history and all; every active chain shows the figures of its gap. |
| ChainSync.FollowingRegistry | src/Bot/Economy/PlayerbotEconomyChains.cpp:146-226 | The same of the registry a call leaves, told from the registry before the call, whose chains may have been told of claims in between. |
| ChainSync.ChainFollows | src/Bot/Economy/PlayerbotEconomyChains.cpp:146-226 | What a sync makes of an active chain: while its gap has demand it goes on with the figures of the gap, and when there is none it ends as of now, its last event saying whether the gap had been met. |
| ChainSync.FullStays | src/Bot/Economy/PlayerbotEconomyChains.cpp:228-244 | With 256 active chains a sync starts none. |
| Coordinator.Coordinator.EnsureChain | src/Bot/Economy/PlayerbotEconomyChains.cpp:228-267 | An active chain is found; a new one is started only for demand and only if there is room or the first inactive chain gives way, and every other chain stays; none comes back exactly if the key has none and has no demand, or 256 chains are active. |
| ChainSync.OfferStands | src/Bot/Economy/PlayerbotEconomyChains.cpp:228-267 | The chain on offer is the one the gap then has; it has one exactly if it had, or there is demand and a place never taken or no longer active. |
| ChainSync.OldestMakesWay | src/Bot/Economy/PlayerbotEconomyChains.cpp:235-244 | When a chain is started, only a registry of 256 gives one up: the first that is no longer active. |
| Coordinator.Coordinator.AppendChainEvent | src/Bot/Economy/PlayerbotEconomyChains.cpp:276-286 | One chain gains one numbered event and the registry stays sound. |
| Chains.AppendKeepsHistory | src/Bot/Economy/PlayerbotEconomyChains.cpp:276-286 | A history is always the last min(total, 64) events, consecutively numbered up to the total, and marked truncated exactly when the total exceeds 64. |
| Chains.SyncedOk | src/Bot/Economy/PlayerbotEconomyChains.cpp:165-197 | A sync keeps who a chain is and what has happened to it, except that a lone first report of demand is kept current; it shows the figures of the gap field by field, and was last updated when they last changed. |
| Chains.ClaimIsTold | src/Bot/Economy/PlayerbotEconomyChains.cpp:288-310 | The chain of a claim, and no other, gains the event of what became of it: when, from whom, and what the gap still needs. |
| Chains.AddKeepsRegistry | src/Bot/Economy/PlayerbotEconomyChains.cpp:255-267 | Starting a chain keeps the registry: at most 256 chains, unique ids, and an index that is a bijection between keys and exactly the active chains of those keys. |
| Chains.EvictKeepsRegistry | src/Bot/Economy/PlayerbotEconomyChains.cpp:237-244 | So does dropping a chain that is no longer active. |
| Chains.CloseKeepsRegistry | src/Bot/Economy/PlayerbotEconomyChains.cpp:200-224 | So does closing a chain and taking its key out of the index. |
| Chains.ReplaceKeepsRegistry | src/Bot/Economy/PlayerbotEconomyChains.cpp:174-197 | So does updating the figures or the history of a chain. |
| GatheringPlan.PlansAreAccepted | src/Bot/Economy/PlayerbotEconomyGathering.cpp:662-743 | Every work order of every plan is accepted by the separately written validator. |
| GatheringPlan.PlanFromOrigins | src/Bot/Economy/PlayerbotEconomyGathering.cpp:589-660 | A plan comes back exactly when the request passes its input checks, so origins never run out; and it is greedy over the ranking, traced to origins in list order, with the promised figures. |
| GatheringPlan.ProvenanceForWorkOrder | src/Bot/Economy/PlayerbotEconomyGathering.cpp:662-743 | The validator answers for exactly the plans and orders that meet all its conditions, with what each origin contributes to the order. |
| GatheringPlan.AcceptedServesOrigins | src/Bot/Economy/PlayerbotEconomyGathering.cpp:697-724 | Whoever made the plan: all that an accepted order allocates goes to an origin of the plan that is active, has not expired and wants at least as much. |
| GatheringPlan.AcceptedPlansBalance | src/Bot/Economy/PlayerbotEconomyGathering.cpp:697-731 | Whoever made the plan: what the origins are allocated is exactly what is assigned; that with what is unassigned, deferred and latent is what they want; no more is placed than the batch; and no two orders are of one actor. |
| GatheringPlan.RequestOkIff | src/Bot/Economy/PlayerbotEconomyGathering.cpp:589-618 | The input checks, told outright. |
| GatheringPlan.OriginsFillInOrder | src/Bot/Economy/PlayerbotEconomyGathering.cpp:633-658 | All orders together give an active origin what the assigned quantity leaves it after the active origins before it, up to what it wants, and a latent one nothing. |
| GatheringPlan.PlanOverAllocatesNothing | src/Bot/Economy/PlayerbotEconomyGathering.cpp:633-658 | No active origin is over-allocated. |
| GatheringPlan.LatentGetNothing | src/Bot/Economy/PlayerbotEconomyGathering.cpp:641-647 | A latent origin is never served. |
| GatheringPlan.PlansConserve | src/Bot/Economy/PlayerbotEconomyGathering.cpp:620-631 | Assigned, unassigned and deferred quantities make up the active quantity, and as much is assigned as batch, origins and capacities allow. |
| GatheringPlan.PlanWork | src/Bot/Economy/PlayerbotEconomyGathering.cpp:542-587 | The greedy split: best candidates filled to capacity one after the other until the demand is met; assigned and unassigned make up the demand. |
| GatheringPlan.FewestGatherers | src/Bot/Economy/PlayerbotEconomyGathering.cpp:553-574 | No smaller selection of the candidates could take on what the plan assigns. |
| GatheringPlan.RankingIsRanked | src/Bot/Economy/PlayerbotEconomyGathering.cpp:545-574 | The ranking holds exactly the candidates with an identity and some capacity, each no worse than the next: by capacity, recent work, route, rate of success, skill, affinity and guid, in that order. |
| GatheringPlan.RankingTransitive | src/Bot/Economy/PlayerbotEconomyGathering.cpp:553-574 | The comparison, cross-multiplied reliabilities included, is a weak order, as sorting needs. |
| GatheringPlan.NoWorseIff | src/Bot/Economy/PlayerbotEconomyGathering.cpp:553-574 | The cross-multiplied comparison is the one by rates of success as real numbers. |
| GatheringPlan.AllocateOrder | src/Bot/Economy/PlayerbotEconomyGathering.cpp:633-658 | The loop that allocates one order gives it the slices its stretch of the batch falls on, or fails exactly if the origins end before it. |
| GatheringPlan.CheckOrders | src/Bot/Economy/PlayerbotEconomyGathering.cpp:697-724 | The loop over planned orders accepts exactly those that are distinct, fully allocated to active origins, and together within every origin. |
| GatheringPlan.TraceOrder | src/Bot/Economy/PlayerbotEconomyGathering.cpp:733-743 | The provenance lists every origin with what the order takes from it. |
| GatheringPlan.OrderIsOk | src/Bot/Economy/PlayerbotEconomyGathering.cpp:697-724 | Each order of a plan has an actor, a quantity, and allocations to distinct active origins that sum to it. |
| GatheringLeases.Gathering.ClaimGrouped | src/Bot/Economy/PlayerbotEconomyGathering.cpp:25-95 | The resource goes to the nearest free candidate (by bot distance, formation distance, guid), or nobody, with the reason; at most one lease per resource and per actor, always. |
| GatheringLeases.Choose | src/Bot/Economy/PlayerbotEconomyGathering.cpp:43-75 | The selected candidate has nothing against it, no lease and no completed one still running; of all such it is the nearest, then the nearest its place, then the one with the lowest guid, then the first; otherwise a busy fit candidate or the first verdict explains. |
| GatheringLeases.FreeAgain | src/Bot/Economy/PlayerbotEconomyGathering.cpp:43-75 | An actor may take a resource again at once after its lease was given up, but after a success only when the time of the lease is up. |
| GatheringLeases.Gathering.Release | src/Bot/Economy/PlayerbotEconomyGathering.cpp:106-124 | Settles the leased claim with the id and drops exactly its observation; otherwise nothing changes. |
| GatheringLeases.Gathering.ReleaseForActorResource | src/Bot/Economy/PlayerbotEconomyGathering.cpp:148-171 | The same for the lease of an actor on a resource, after expiry. |
| GatheringLeases.Gathering.Observe | src/Bot/Economy/PlayerbotEconomyGathering.cpp:173-191 | Remembers the starting counts of a leased claim, in place of anything remembered for the actor. |
| GatheringLeases.Gathering.ConfirmLoot | src/Bot/Economy/PlayerbotEconomyGathering.cpp:193-227 | Succeeds exactly for an unexpired observation of the actor whose item count has grown, completes that lease, and no lease is ever confirmed twice. |
| GatheringLeases.Gathering.RemoveActor | src/Bot/Economy/PlayerbotEconomyGathering.cpp:229-243 | Releases the leases of the actor and drops its observations, and nothing else. |
| GatheringLeases.Gathering.ExpireLocked | src/Bot/Economy/PlayerbotEconomyGathering.cpp:885-906 | Expired leases are released and exactly the observations of unexpired ones stay. |
| GatheringLeases.ExpiryEndsLeases | src/Bot/Economy/PlayerbotEconomyGathering.cpp:885-906 | Expiry ends exactly the leases whose time is up. |
| GatheringLeases.SettlingKeepsTable | src/Bot/Economy/PlayerbotEconomyGathering.cpp:106-243 | Settling claims keeps leases exclusive, observations pointing at leased claims with one per actor, and confirmations single. |
| GatheringLeases.ConfirmedAnew | src/Bot/Economy/PlayerbotEconomyGathering.cpp:206-227 | A confirmation is of a lease never confirmed before. |
| Positions.LedgerHolds | src/Bot/Economy/PlayerbotEconomyMarket.cpp:776-941 | Over any list of events, those that do not apply turned away: acquisition and realized cost sum to the opening cost, goods, proceeds and fees are those of the events that applied, an open position stays valid with a cost of at least 1 and a unit cost that never falls, and closing releases exactly the rest. |
| Positions.EventKeepsLedger | src/Bot/Economy/PlayerbotEconomyMarket.cpp:776-941 | The same for one event. |
| Positions.EventMovesState | src/Bot/Economy/PlayerbotEconomyMarket.cpp:811-899 | Where each event moves a position: listed, open again, closed or lost in the way the last goods left, relistings counted and bounded, the clock strictly on. |
| Positions.ApplicableIff | src/Bot/Economy/PlayerbotEconomyMarket.cpp:791-880 | Which events apply, told outright, sums that fit 64 bits included. |
| Dealings.MovementsTold | src/Bot/Economy/PlayerbotEconomyMarket.cpp:796-875 | Every event accounts for its goods: where they went, by which auction, and for a split or a merger the other stack too. |
| Dealings.EventRests | src/Bot/Economy/PlayerbotEconomyMarket.cpp:907-933 | Exactly goods that come back unsold or are lost rest the interest of the trader in the group, for the time the position names; no other cooldown changes. |
| Positions.Pieces | src/Bot/Economy/PlayerbotEconomyMarket.cpp:878-892 | A floored pro-rata part of a cost is all of it exactly with all the goods, and short of it with fewer. |
| Positions.PartlyBackedIsValidIff | src/Bot/Economy/PlayerbotEconomyMarket.cpp:981-1013 | A partly backed position keeps its ledger; it stays valid exactly when its cost times the goods found is at least the goods it had. |
| Positions.PartlyBackedMayFail | src/Bot/Economy/PlayerbotEconomyMarket.cpp:988-991 | Two goods that cost one, of which one is found, come back without a cost. |
| Market.Market.OpenPosition | src/Bot/Economy/PlayerbotEconomyMarket.cpp:604-653 | Opens exactly when healthy, well formed and out of the way of every position, pending write and speculated item; otherwise nothing changes; positions with a write under way are untouched. |
| Market.Market.StagePosition | src/Bot/Economy/PlayerbotEconomyMarket.cpp:655-704 | The same for a staged position, of which a trader has one per market. |
| Dealings.OpensIff | src/Bot/Economy/PlayerbotEconomyMarket.cpp:604-640 | A position may be opened or staged exactly if it would pass for valid from then on and nothing has been done with it yet. |
| Dealings.MayOpenIff | src/Bot/Economy/PlayerbotEconomyMarket.cpp:616-690 | Nothing is in its way exactly if its name is free, its trader has none in the group of the market (staged: none in the market), and its goods were never bought to be sold again. |
| Market.Market.ActivatePendingPosition | src/Bot/Economy/PlayerbotEconomyMarket.cpp:706-740 | A staged position without a write under way opens on its last staged lot; otherwise nothing changes. |
| Market.Market.CancelPendingPosition | src/Bot/Economy/PlayerbotEconomyMarket.cpp:742-762 | A staged position without a write under way goes, with its lots; otherwise nothing changes. |
| Market.Market.ApplyPositionEvent | src/Bot/Economy/PlayerbotEconomyMarket.cpp:776-941 | Accepted exactly when healthy, applicable and without a write under way; the new state is given outright; every position stays valid. |
| Market.Market.Settle | src/Bot/Economy/PlayerbotEconomyMarket.cpp:791-899 | The step-by-step treatment of an event refuses and computes what is defined. |
| Market.Market.SaveCooldown | src/Bot/Economy/PlayerbotEconomyMarket.cpp:1137-1158 | Replaces or adds the cooldown of a trader, market and group, and queues a write; nothing while unhealthy. |
| Dealings.RestSaved | src/Bot/Economy/PlayerbotEconomyMarket.cpp:1137-1158 | Saving a cooldown replaces the one of the same trader, market and group and touches no other. |
| Market.Market.AppendCirculation | src/Bot/Economy/PlayerbotEconomyMarket.cpp:1160-1173 | Adds a well-formed record and queues a write; nothing while unhealthy. |
| Market.Market.CompleteWrite | src/Bot/Economy/PlayerbotEconomyMarket.cpp:1175-1207 | Success only takes the write off the queue. Failure stops the book, notes whether the claim is retained, and puts the position back as it was sent. |
| Dealings.FailurePutsBack | src/Bot/Economy/PlayerbotEconomyMarket.cpp:1188-1203 | A failed write puts its position back as it was sent and touches no other position. |
| Market.Market.QueueWrite | src/Bot/Economy/PlayerbotEconomyMarket.cpp:1209-1217 | Tokens stay unique, and with no write about the position under way there is at most one per position. |
| Market.Market.Restore | src/Bot/Economy/PlayerbotEconomyMarket.cpp:943-1035 | Starts healthy from valid stored positions, shrinking or closing those short of goods and writing those back under fresh tokens; if stored ids and keys are unique the book is sound and in step with its writes, to the second exactly if every position kept in part was stored with the time of the restart; all positions are valid exactly if every partly backed one keeps a cost. |
| Dealings.StoredPositionIs | src/Bot/Economy/PlayerbotEconomyMarket.cpp:966-1013 | What a restart makes of a stored position: dropped, taken as it is, shrunk to the goods found with their floored part of the cost, or closed as lost; and what it writes back and reports. |
| Market.RestoredAreValidIff | src/Bot/Economy/PlayerbotEconomyMarket.cpp:966-1013 | The exact condition under which every restored position passes the validity check again. |
| Market.RestoredExactlyIff | src/Bot/Economy/PlayerbotEconomyMarket.cpp:994-1013 | The positions on the book agree with the writes of a restart in every field, the time of the last update included, exactly when every position kept in part was stored with the time of the restart. |
| Market.RestoredInStep | src/Bot/Economy/PlayerbotEconomyMarket.cpp:994-1013 | Apart from that time they always agree. |
| Market.RestoredMayDiffer | src/Bot/Economy/PlayerbotEconomyMarket.cpp:994-1013 | Any valid open position of several goods of which one is found, restarted at another time than its last update, disagrees with its write. |
| Market.AnsweredStaysInStep | src/Bot/Economy/PlayerbotEconomyMarket.cpp:1175-1207 | When a write is answered, every other position with a write under way is still what was sent, except perhaps for the time of its last update, or closed. With the other methods this makes it an invariant of the book. |
| Market.Market.AppendEvidence | src/Bot/Economy/PlayerbotEconomyMarket.cpp:1081-1112 | A valid observation not yet known replaces its predecessor of the same auction or is added, and pruning follows; at most 64 per market and group remain. |
| Dealings.ObservationTaken | src/Bot/Economy/PlayerbotEconomyMarket.cpp:1089-1104 | Taking in an observation adds it, in place of the one of the same auction from the same source if there is one, and keeps every other. |
| Dealings.KnownIff | src/Bot/Economy/PlayerbotEconomyMarket.cpp:1089-1100 | An observation is already known exactly if the first of its auction and source tells the same. |
| Market.Market.ReferencePrice | src/Bot/Economy/PlayerbotEconomyMarket.cpp:1037-1050 | Answers exactly when an unexpired sale or listing of the group is known, within a factor of four of the median of those. |
| Evidence.Prune | src/Bot/Economy/PlayerbotEconomyMarket.cpp:1219-1244 | Pruning drops what has expired and keeps of each key as many as the cap allows, none of those dropped newer than one kept. |
| Evidence.CapGroup | src/Bot/Economy/PlayerbotEconomyMarket.cpp:1226-1234 | The loop over one sorted group drops all but its newest 64. |
| Evidence.PrunedIsBounded | src/Bot/Economy/PlayerbotEconomyMarket.cpp:1219-1244 | After pruning each key has min(64, unexpired) observations, all of them stored and unexpired. |
| ReferencePrices.BuildReference | src/Bot/Economy/PlayerbotEconomyMarket.cpp:366-397 | The loops compute the reference defined: median, cut, preference for sales, weighted average, confidence. |
| ReferencePrices.ReferenceNearMedian | src/Bot/Economy/PlayerbotEconomyMarket.cpp:366-397 | There is a reference exactly when there are candidates, and it lies within [max(1, median/4), 4 median]. |
| ReferencePrices.SalesDecide | src/Bot/Economy/PlayerbotEconomyMarket.cpp:366-397 | If any sale is near the median the reference lies between the prices of such sales, whatever is listed, and otherwise between those of the listings near it; the counts are right, and it is confident exactly with two such observations, a sale among them. |
| ReferencePrices.QuantitiesWeigh | src/Bot/Economy/PlayerbotEconomyMarket.cpp:353-364 | Quantities weigh: an observation counts like any split of it. |
| ReferencePrices.MedianSplits | src/Bot/Economy/PlayerbotEconomyMarket.cpp:371-376 | The median is the upper one: at most half of the candidates are cheaper and fewer than half dearer. |
| ReferencePrices.HonestMajorityBoundsReference | src/Bot/Economy/PlayerbotEconomyMarket.cpp:366-397 | If more than half of the candidates are priced between two bounds, the reference lies within a factor of four of those bounds, however wild the rest. |
| ReferencePrices.MajorityHoldsMedian | src/Bot/Economy/PlayerbotEconomyMarket.cpp:371-376 | If more than half of the candidates are priced between two bounds, so is the median. |
| ReferencePrices.WeightedAverageWithin | src/Bot/Economy/PlayerbotEconomyMarket.cpp:353-364 | A weighted average lies between the extremes of its prices despite rounding. |
| LootYields.Resolver.Resolve | src/Bot/Economy/PlayerbotEconomyTravel.cpp:113-148 | Ends on every reference graph, cyclic ones included; on an acyclic one the answer is that of the definition without a memo, whatever was resolved before. |
| LootYields.Resolver.ResolveRows | src/Bot/Economy/PlayerbotEconomyTravel.cpp:125-144 | The loop over the rows of a reference, mutually recursive with the above. |
| LootYields.ResolveAll | src/Bot/Economy/PlayerbotEconomyTravel.cpp:210-247 | All sources share one memo and come in any order; on an acyclic reference graph each yields exactly the saturated sum of its rows. |
| LootYields.RowTold | src/Bot/Economy/PlayerbotEconomyTravel.cpp:125-144 | Adding a row with saturation keeps agreement with the saturated sum of the rows so far. |
| LootYields.AddReferred | src/Bot/Economy/PlayerbotEconomyTravel.cpp:137-142 | Passing on the yields of a reference adds the scaled yield of every item once. |
| LootYields.LoadedDoesNotWrap | src/Bot/Economy/PlayerbotEconomyTravel.cpp:137-142 | For rows in the ranges they are loaded with, the 64-bit product that scales a yield does not wrap. |
| LootYields.DirectIsConservative | src/Bot/Economy/PlayerbotEconomyTravel.cpp:81-84 | A row counts for no more than any count it may give, and for as much as the smallest. |
| LootYields.SignDoesNotMatter | src/Bot/Economy/PlayerbotEconomyTravel.cpp:125-137 | A reference names a table by its magnitude. |
| LootYields.Normalize | src/Bot/Economy/PlayerbotEconomyTravel.cpp:86-111 | The two loops give every equal-chanced row its share of what the explicit chances of its group leave. |
| LootYields.OnlyEqualChancesAreSet | src/Bot/Economy/PlayerbotEconomyTravel.cpp:86-111 | The equal-chanced rows of a group get one chance, and nothing else changes. |
| LootYields.GroupsStayWithinCertainty | src/Bot/Economy/PlayerbotEconomyTravel.cpp:86-111 | The chances of a group, explicit and shared, stay within certainty and fall short of it by less than a basis point per sharing row. |
| LootYields.Tabulate | src/Bot/Economy/PlayerbotEconomyTravel.cpp:218-223 | Rows are grouped by id in order. |
| Trace.Trace.Record | src/Bot/Economy/PlayerbotEconomyTrace.cpp:41-109 | Records exactly a valid event whose key is not in the index. Then: at most 2048 events and 128 per named chain, sequences increasing, each event matched by its own distinct key, and gone are only the oldest of an over-full chain and the oldest of an over-full ring. |
| Trace.Trace.TakeSnapshot | src/Bot/Economy/PlayerbotEconomyTrace.cpp:111-120 | The counts of a snapshot add up: recorded events are kept or truncated. |
| Trace.Trace.RemoveEvent | src/Bot/Economy/PlayerbotEconomyTrace.cpp:80-85 | Removing an event removes exactly its own key. |
| Trace.RemovalKeepsNewest | src/Bot/Economy/PlayerbotEconomyTrace.cpp:80-107 | Within each chain what is kept is always the newest, and the newest of all is kept. |
| Trace.KeyRemoved | src/Bot/Economy/PlayerbotEconomyTrace.cpp:80-85 | Erasing keys by sequence number erases exactly one entry. |
| Trace.ChainCapped | src/Bot/Economy/PlayerbotEconomyTrace.cpp:91-105 | After the cap on its chain a ring that was within capacity is over it by at most one event, and the new event is still its last. |
| Trace.LostForRoom | src/Bot/Economy/PlayerbotEconomyTrace.cpp:80-107 | What a new event costs: exactly the oldest of its chain if that holds 128 already, or else the oldest of all if the ring holds 2048. |
| GatheringPath.PathKeepsItsPromises | src/Bot/Economy/PlayerbotMaterialCommitmentEncoding.cpp:370-510 | A built path is a plan for its input: it counts on the destination yield until something was tried and from then on on the largest yield the tries and one more at that yield show, on the average time of the tries rounded up or at first on time for one item, and never less than an interaction; it backs the largest quantity up to what was asked that the resources can, with exactly the resources that takes; and its budgets add up, with no value cut or wrapped. |
| GatheringPath.PathExistsIff | src/Bot/Economy/PlayerbotMaterialCommitmentEncoding.cpp:370-476 | A path is built exactly when there is a plan for its input and the digest is not zero; the count check after shrinking is not among the conditions. |
| GatheringPath.DigestCovers | src/Bot/Economy/PlayerbotMaterialCommitmentEncoding.cpp:464-473 | The digest covers everything but the kind of source, what was asked for and what was held at the start. |
| GatheringPath.SelectsLargestBacked | src/Bot/Economy/PlayerbotMaterialCommitmentEncoding.cpp:425-440 | The selected quantity is the largest that fits, so the check after shrinking cannot fail on the count. |
| GatheringPath.RebuildsToItself | src/Bot/Economy/PlayerbotMaterialCommitmentAuthority.cpp:39-66 | Building a path from the fields of a built path gives the same path, shrunk quantity, revision and all, for every digest function. |
| GatheringPath.BuiltPathsAreAccepted | src/Bot/Economy/PlayerbotMaterialCommitmentAuthority.cpp:39-88 | Every built path passes the rebuild check of admission, exactly if nothing was held at the start. |
| GatheringPath.RestartsAcceptBuiltPaths | src/Bot/Economy/PlayerbotMaterialCommitmentAuthority.cpp:90-97 | Every built path passes the rebuild check of a restart, at whatever phase it is, whatever was held at the start, and with whatever action budget it was admitted if its horizon adds up. |
| GatheringPath.AdmittedBudgetsStand | src/Bot/Economy/PlayerbotMaterialCommitmentAuthority.cpp:73-87 | A valid path stays valid with any other action budget its horizon adds up to. |
| GatheringPath.ValidIffPlanned | src/Bot/Economy/PlayerbotMaterialCommitmentAuthority.cpp:39-88 | A stored path is valid exactly if it is a plan for its own fields: nothing about it can have been changed but the action budget, and the horizon with it. |
| Compaction.PrintedGuidIsRead | src/Bot/Economy/PlayerbotMaterialCommitmentEncoding.cpp:127-146 | Reading back any printed origin identity gives the character it was printed for. |
| Compaction.GuidIsNamedIff | src/Bot/Economy/PlayerbotMaterialCommitmentEncoding.cpp:127-146 | An identity names a character exactly if the prefix, its guid in decimal, perhaps after zeros, and a colon come first. |
| Compaction.ReadGuid | src/Bot/Economy/PlayerbotMaterialCommitmentEncoding.cpp:127-146 | The digit loop reads what is defined, and gives up on anything that is not a number of 32 bits. |
| Compaction.BuildCompaction | src/Bot/Economy/PlayerbotMaterialCommitmentEncoding.cpp:148-192 | The loops list exactly the intents and commitments that are to go. |
| Compaction.IntentListedIff | src/Bot/Economy/PlayerbotMaterialCommitmentEncoding.cpp:148-178 | An intent is listed exactly if its character is absent, or it was last observed longer ago than the stale time and every commitment to it is settled. |
| Compaction.CommitmentListedIff | src/Bot/Economy/PlayerbotMaterialCommitmentEncoding.cpp:180-190 | A commitment is listed by itself exactly if it is settled, due longer ago than the stale time, and its origin is not listed. |
| Compaction.DepartedIntentsGo | src/Bot/Economy/PlayerbotMaterialCommitmentEncoding.cpp:148-192 | Every intent of an absent character is listed. |
| Compaction.OwedOriginStays | src/Bot/Economy/PlayerbotMaterialCommitmentEncoding.cpp:155-178 | The origin of a character that is there is not listed while a commitment to it is under way. |
| Compaction.ActiveStays | src/Bot/Economy/PlayerbotMaterialCommitmentEncoding.cpp:155-178 | No commitment is listed by itself while it is under way. |
| Compaction.CompactionsAreAccepted | src/Bot/Economy/PlayerbotMaterialCommitmentAuthority.cpp:802-830 | Every compaction built passes the checks of the authority that applies it. |
| Compaction.CompactionIsDone | src/Bot/Economy/PlayerbotMaterialCommitmentEncoding.cpp:148-192 | Compacting a compacted book at the same time lists nothing more. |
| Compaction.CompactedLogIsSound | src/Bot/Economy/PlayerbotMaterialCommitmentAuthority.cpp:837-857 | What is left of the log is whole, within the cap and names no dropped commitment, as a restart demands. |
| Compaction.CompactionShrinks | src/Bot/Economy/PlayerbotMaterialCommitmentAuthority.cpp:842-861 | A compaction that was built always makes the book smaller, so it is never turned away as idle. |
| Compaction.ActiveSurvives | src/Bot/Economy/PlayerbotMaterialCommitmentAuthority.cpp:802-846 | No compaction the authority applies, whoever made it, loses work under way for an origin that stays. |
| Compaction.NamedAreGone | src/Bot/Economy/PlayerbotMaterialCommitmentAuthority.cpp:832-846 | After a compaction exactly the intents and commitments are left that it names neither by themselves nor by their origin. |
| Compaction.LogKeptIsLongest | src/Bot/Economy/PlayerbotMaterialCommitmentAuthority.cpp:837-857 | No more of the log goes than must: it keeps any stretch of its end that is within the cap and names only commitments still in the book. |

## Left out

- Coordinator.Coordinator.ReconcileCapabilityBlockers: only its reading of the gap cache is modelled; capability blockers and their owners are not, as no gap, claim or chain depends on them. `RevalidateCapabilities` also expires claims and syncs chains first, which is covered as for `ObserveActor`.
- Coordinator.Coordinator.Lease: the verdict of the work policy, affinity and its relaxation through a standing blocker row are one arbitrary input, so the proofs hold for every policy.
- Coordinator.Coordinator.EnsureChain: chain ids are fresh numbers instead of random text.
- The choice of a recipe between the snapshot and the lease of a production assignment: one search over a list, without state.
- Substitution groups: the fields before and after the effect family are one number each, in comparison order; the field kept for display only is dropped.
- `ObserveActor` reads one chain after expiring claims and syncing chains; its effect is that of `Coordinator.Coordinator.SnapshotGaps`, which begins the same way. Work counters and log lines only count and tell.
- GatheringLeases.Choose: whether a candidate is fit (skill, career, range, safety) is an input, and distances are reals; with several equal candidates of equal guid the first is taken, as in the program.
- GatheringPlan.RankingIsRanked: the sort is a stable insertion; the program's sort may order candidates with equal guid differently, which changes neither orders nor figures.
- Lease-table reads (`FindLeasedByActor`, `FindClaim`, `Snapshot`), active trips, dedicated history and the decision tables of a trip: single lookups and branches.
- Evidence.Prune: observations of equal age are cut in a stable order; the program's sort may keep others of the same age. What is stated holds for any choice.
- `SavePosition`: it does not look for a write under way, so with it two writes about a position may be pending; the write protocol is proved for the other mutators.
- Market.Market.QueueWrite: the writer is a queue of tokens that may be answered in any order with success or failure; SQL and database callbacks are not modelled.
- Market risk and entry checks and the index of controlled items: pure arithmetic on inputs, and a view recomputed from positions and circulation.
- Trace.Trace.Record: public ids of events are left out; prices are a list.
- GatheringPath.RebuildsToItself: the revision is an arbitrary function of the facts the program digests; the digest itself is not modelled.
- Compaction.CompactedLogIsSound: the log is a list in order of revision, which is the order it is written in; the sort the program applies to it is then without effect.
- Operation fingerprints and the other commands of the material book: persistence and admission are not part of this model.
- Floating point, maps, creatures, trainers, routing and everything that needs a player object.
