/** What every step of the coordinator keeps, and so what holds after every run of calls. */
module Safety {
  import opened Economy
  import opened Order
  import opened Gaps
  import opened Claims
  import opened Trim
  import opened Steps
  import opened Progress

  // ----- one step, seen from the claims

  /** Claims known before are later states of themselves, and lease ids are never reused. */
  ghost predicate Evolves(b: Book, after: Book)
  {
    && b.nextLeaseId <= after.nextLeaseId
    && forall d | d in after.claims && d.terms.leaseId < b.nextLeaseId :: HasAncestor(b.claims, d)
  }

  lemma EvolvesTransitive(a: Book, b: Book, c: Book)
    requires Evolves(a, b) && Evolves(b, c)
    ensures Evolves(a, c)
  {
    forall z | z in c.claims && z.terms.leaseId < a.nextLeaseId
      ensures HasAncestor(a.claims, z)
    {
      assert HasAncestor(b.claims, z);
      var y :| y in b.claims && Later(y, z);
      assert HasAncestor(a.claims, y);
      var x :| x in a.claims && Later(x, y);
      assert Later(x, z);
    }
  }

  /** The steps other than a lease grant only move claims forward. */
  lemma StepForward(b: Book, call: Call)
    requires ClaimsOk(b.claims, b.nextLeaseId) && !call.LeaseCall?
    ensures Forward(b.claims, Step(b, call).claims, b.nextLeaseId)
    ensures Step(b, call).nextLeaseId == b.nextLeaseId
  {
    hide Forward, TotalsAt, Trimmed, Expired, Bridged, Settle, ActorReleased, ClaimsOk;
    match call
    case RefreshActorCall(facts, now, stale) => RefreshActorForward(b, facts, now, stale);
    case RefreshMarketCall(facts, now) => RefreshMarketForward(b, facts, now);
    case ConsumeInputsCall(guid, inputs, now) => TickForward(b, now);
    case RenewProductionCall(request, now) => RenewForward(b, request, now);
    case RecordOutputCall(leaseId, produced, now) => OutputForward(b, leaseId, produced, now);
    case RecordOutcomeCall(leaseId, outcome, committed, now) => OutcomeForward(b, leaseId, outcome, committed, now);
    case InvalidateActorCall(guid, outcome, now) => InvalidateForward(b, guid, outcome, now);
    case ExpireCall(now) => TickForward(b, now);
  }

  // ----- claims stay well formed

  lemma AppendKeepsClaims(base: Book, after: Book, claim: Claim)
    requires ClaimsOk(base.claims, base.nextLeaseId) && ClaimOk(claim) && claim.terms.leaseId == base.nextLeaseId
    requires after == base.(claims := base.claims + [claim], nextLeaseId := base.nextLeaseId + 1)
    ensures ClaimsOk(after.claims, after.nextLeaseId) && Evolves(base, after)
  {
    hide ClaimOk;
    forall d | d in after.claims && d.terms.leaseId < base.nextLeaseId
      ensures HasAncestor(base.claims, d)
    {
      assert d in base.claims && Later(d, d);
    }
  }

  lemma ForwardEvolves(b: Book, after: Book)
    requires Forward(b.claims, after.claims, b.nextLeaseId) && after.nextLeaseId == b.nextLeaseId
    ensures ClaimsOk(after.claims, after.nextLeaseId) && Evolves(b, after)
  {
  }

  lemma LeaseKeepsClaims(b: Book, r: LeaseRequest, now: nat, verdict: Blocker, chain: Option<nat>)
    requires ClaimsOk(b.claims, b.nextLeaseId)
    ensures var after := Lease(b, r, now, verdict, chain).0;
            ClaimsOk(after.claims, after.nextLeaseId) && Evolves(b, after)
  {
    TickForward(b, now);
    var base := LeaseOutcomeExists(b, r, now, verdict, chain);
    var (after, result) := Lease(b, r, now, verdict, chain);
    if result.Granted? {
      PersonalLeaseIsPurchase(b, r, now, verdict, chain);
    }
    ForwardTransitive(b.claims, Tick(b, now).claims, base.claims, b.nextLeaseId);
    hide Lease, Tick, Screen, Forward, Evolves;
    ForwardEvolves(b, base);
    if result.Granted? {
      AppendKeepsClaims(base, after, result.claim);
      EvolvesTransitive(b, base, after);
    }
  }

  lemma PersonalLeaseIsPurchase(b: Book, r: LeaseRequest, now: nat, verdict: Blocker, chain: Option<nat>)
    requires Screen(Tick(b, now), r, now, verdict).None?
    ensures r.Personal() ==> r.kind.Purchase? && r.priority.Consumer?
  {
  }

  /** Quantities stay positive, bridges within commitments within quantities, and ids unique; and
      every claim keeps its progress, never grows and never returns to a lease. */
  lemma StepKeepsClaims(b: Book, call: Call)
    requires ClaimsOk(b.claims, b.nextLeaseId)
    ensures ClaimsOk(Step(b, call).claims, Step(b, call).nextLeaseId) && Evolves(b, Step(b, call))
  {
    if call.LeaseCall? {
      LeaseKeepsClaims(b, call.request, call.now, call.verdict, call.chain);
    } else {
      StepForward(b, call);
      hide Step;
    }
  }

  lemma {:induction false} RunKeepsClaims(b: Book, calls: seq<Call>)
    requires ClaimsOk(b.claims, b.nextLeaseId)
    ensures ClaimsOk(Run(b, calls).claims, Run(b, calls).nextLeaseId) && Evolves(b, Run(b, calls))
  {
    if calls == [] {
      forall d | d in b.claims
        ensures HasAncestor(b.claims, d)
      {
        assert Later(d, d);
      }
    } else {
      var n := |calls| - 1;
      RunKeepsClaims(b, calls[..n]);
      hide Step, Evolves, ClaimsOk;
      StepKeepsClaims(Run(b, calls[..n]), calls[n]);
      EvolvesTransitive(b, Run(b, calls[..n]), Run(b, calls));
    }
  }

  // ----- purchases never outrun the auctions

  function Backing(b: Book, k: GapKey): nat
  {
    MarketPart(b.markets, k).auction
  }

  /** At every key, leased shared purchases stay within the auction supply on record. */
  ghost predicate PurchasesBacked(b: Book)
  {
    forall k :: ClaimTotals(b.claims, k).purchase + ClaimTotals(b.claims, k).speculation <= Backing(b, k)
  }

  lemma {:induction false} ActorsAddNoAuction(b: Book, guids: seq<uint32>, k: GapKey)
    requires forall g | g in guids :: g in b.actors
    ensures ActorTotals(b.actors, b.credits, guids, k).auction == 0
  {
    if guids != [] {
      ActorsAddNoAuction(b, guids[..|guids| - 1], k);
    }
  }

  lemma FactsAddNoPurchases(b: Book, k: GapKey)
    ensures FactTotals(b, k).purchase == 0 && FactTotals(b, k).speculation == 0
  {
    FactTotalsFactsOnly(b, k);
    hide FactTotals;
  }

  lemma PurchaseFigures(b: Book, k: GapKey)
    ensures TotalsAt(b, k).auction == Backing(b, k) + ClaimTotals(b.claims, k).auction
    ensures TotalsAt(b, k).purchase == ClaimTotals(b.claims, k).purchase
    ensures TotalsAt(b, k).speculation == ClaimTotals(b.claims, k).speculation
  {
    hide ActorTotals, ClaimTotals, MarketPart, AscendingGuids;
    ActorsAddNoAuction(b, AscendingGuids(b.actors.Keys), k);
    FactsAddNoPurchases(b, k);
  }

  lemma ClaimsAddNoFacts(claims: seq<Claim>, k: GapKey)
    ensures ClaimTotals(claims, k).auction == 0 && ClaimTotals(claims, k).demand == 0
  {
    forall p | p in ClaimParts(claims, k)
      ensures p.auction == 0 && p.demand == 0
    {
      var i :| 0 <= i < |claims| && p == ClaimPart(claims[i], k);
      ClaimPartHasNoFacts(claims[i], k);
    }
    ZeroFacts(ClaimParts(claims, k));
  }

  lemma {:induction false} ZeroFacts(parts: seq<GapTotals>)
    requires forall p | p in parts :: p.auction == 0 && p.demand == 0
    ensures Total(parts).auction == 0 && Total(parts).demand == 0
  {
    if parts != [] {
      ZeroFacts(parts[..|parts| - 1]);
    }
  }

  lemma ForwardKeepsBacking(b: Book, after: Book)
    requires PurchasesBacked(b) && Forward(b.claims, after.claims, b.nextLeaseId) && after.markets == b.markets
    ensures PurchasesBacked(after)
  {
    hide ClaimTotals, ClaimsOk, Descends;
    forall k
      ensures ClaimTotals(after.claims, k).purchase + ClaimTotals(after.claims, k).speculation <= Backing(after, k)
    {
      assert Shrinks(ClaimTotals(b.claims, k), ClaimTotals(after.claims, k));
    }
  }

  lemma ReconciledIsBacked(b: Book, now: nat)
    requires AllOk(b.claims)
    ensures PurchasesBacked(Reconciled(b, now))
  {
    var after := Reconciled(b, now);
    hide Trimmed, TotalsAt, ClaimTotals, Restored, MarketPart;
    forall k
      ensures ClaimTotals(after.claims, k).purchase + ClaimTotals(after.claims, k).speculation <= Backing(after, k)
    {
      TrimmedRestores(b, now, k);
      RestoredFits(TotalsAt(b, k), TotalsAt(after, k));
      PurchaseFigures(after, k);
      ClaimsAddNoFacts(after.claims, k);
    }
  }

  lemma AppendKeepsBacking(base: Book, after: Book, claim: Claim)
    requires PurchasesBacked(base) && after == base.(claims := base.claims + [claim], nextLeaseId := after.nextLeaseId)
    requires claim.Personal() || FitsGap(TotalsAt(base, claim.Key()), claim)
    ensures PurchasesBacked(after)
  {
    PurchaseFigures(base, claim.Key());
    ClaimsAddNoFacts(base.claims, claim.Key());
    hide ClaimTotals, TotalsAt;
    forall k
      ensures ClaimTotals(after.claims, k).purchase + ClaimTotals(after.claims, k).speculation <= Backing(after, k)
    {
      ClaimTotalsAppend(base.claims, claim, k);
      assert ClaimTotals(base.claims, k).purchase + ClaimTotals(base.claims, k).speculation <= Backing(base, k);
    }
  }

  lemma LeaseKeepsBacking(b: Book, r: LeaseRequest, now: nat, verdict: Blocker, chain: Option<nat>)
    requires ClaimsOk(b.claims, b.nextLeaseId) && PurchasesBacked(b)
    ensures PurchasesBacked(Lease(b, r, now, verdict, chain).0)
  {
    TickForward(b, now);
    var base := LeaseOutcomeExists(b, r, now, verdict, chain);
    var (after, result) := Lease(b, r, now, verdict, chain);
    ForwardTransitive(b.claims, Tick(b, now).claims, base.claims, b.nextLeaseId);
    hide Lease, Tick, Screen, Forward, TotalsAt, PurchasesBacked, FitsGap;
    ForwardKeepsBacking(b, base);
    if result.Granted? {
      AppendKeepsBacking(base, after, result.claim);
    }
  }

  lemma MarketKeepsBacking(b: Book, facts: MarketFacts, now: nat)
    requires ClaimsOk(b.claims, b.nextLeaseId) && PurchasesBacked(b)
    ensures PurchasesBacked(RefreshMarket(b, facts, now))
  {
    TickForward(b, now);
    hide PurchasesBacked, Reconciled, Tick, Forward;
    if facts.market == 0 {
    } else if !MarketChanges(b, facts) {
      ForwardKeepsBacking(b, Tick(b, now));
    } else {
      TickedFactsAreOk(b, facts, now);
      ReconciledIsBacked(Tick(b, now).(markets := b.markets[facts.market := facts]), now);
    }
  }

  lemma StepKeepsBacking(b: Book, call: Call)
    requires ClaimsOk(b.claims, b.nextLeaseId) && PurchasesBacked(b)
    ensures PurchasesBacked(Step(b, call))
  {
    hide PurchasesBacked, Lease, RefreshMarket;
    match call
    case LeaseCall(request, now, verdict, chain) =>
      LeaseKeepsBacking(b, request, now, verdict, chain);
    case RefreshMarketCall(facts, now) =>
      MarketKeepsBacking(b, facts, now);
    case _ =>
      StepForward(b, call);
      StepLeavesMarkets(b, call);
      hide Step, Forward;
      ForwardKeepsBacking(b, Step(b, call));
  }

  lemma StepLeavesMarkets(b: Book, call: Call)
    requires !call.LeaseCall? && !call.RefreshMarketCall?
    ensures Step(b, call).markets == b.markets
  {
    hide Trimmed, Expired, Bridged, ActorReleased, ClaimsSeenByRefresh, RefreshMatters, RaisedCredits, RenewOne, Settle, LeaseIndex;
  }

  lemma TickedFactsAreOk(b: Book, facts: MarketFacts, now: nat)
    requires Forward(b.claims, Tick(b, now).claims, b.nextLeaseId)
    ensures AllOk(Tick(b, now).(markets := b.markets[facts.market := facts]).claims)
  {
  }

  /** In every reachable state, the leased shared purchases of a market and group stay within the
      auction supply on record for it. */
  lemma {:induction false} RunKeepsBacking(calls: seq<Call>)
    ensures PurchasesBacked(Run(EmptyBook(), calls))
  {
    if calls == [] {
    } else {
      var n := |calls| - 1;
      RunKeepsBacking(calls[..n]);
      RunKeepsClaims(EmptyBook(), calls[..n]);
      hide Step, PurchasesBacked, ClaimsOk;
      StepKeepsBacking(Run(EmptyBook(), calls[..n]), calls[n]);
    }
  }

  // ----- promises never exceed what is missing

  /** Where anything is promised, goods on record and promises together stay within demand. */
  predicate WithinDemand(t: GapTotals)
  {
    t.claimed == 0 || t.supply + t.claimed <= t.demand
  }

  ghost predicate NoOverPromise(b: Book)
  {
    forall k :: WithinDemand(TotalsAt(b, k))
  }

  /** The same facts about supply, and no less demand. */
  ghost predicate DemandHolds(b: Book, after: Book)
  {
    forall k :: FactTotals(b, k).demand <= FactTotals(after, k).demand &&
                FactTotals(b, k).supply == FactTotals(after, k).supply
  }

  lemma ForwardKeepsPromises(b: Book, after: Book)
    requires NoOverPromise(b) && Forward(b.claims, after.claims, b.nextLeaseId) && DemandHolds(b, after)
    ensures NoOverPromise(after)
  {
    hide ClaimTotals, FactTotals, ClaimsOk, Descends;
    forall k
      ensures WithinDemand(TotalsAt(after, k))
    {
      assert WithinDemand(TotalsAt(b, k));
      assert Shrinks(ClaimTotals(b.claims, k), ClaimTotals(after.claims, k));
      assert FactTotals(b, k).demand <= FactTotals(after, k).demand;
      FactTotalsFactsOnly(b, k);
      FactTotalsFactsOnly(after, k);
    }
  }

  /** A reconciliation re-establishes the bound whatever the book was like before. */
  lemma ReconciledKeepsPromises(b: Book, now: nat)
    requires AllOk(b.claims)
    ensures NoOverPromise(Reconciled(b, now))
  {
    hide Trimmed, TotalsAt;
    forall k
      ensures WithinDemand(TotalsAt(Reconciled(b, now), k))
    {
      TrimmedRestores(b, now, k);
    }
  }

  lemma SameFactsHold(b: Book, after: Book)
    requires after.actors == b.actors && after.markets == b.markets && after.credits == b.credits
    ensures DemandHolds(b, after)
  {
  }

  lemma {:induction false} DroppedCredit(b: Book, guid: uint32, guids: seq<uint32>, k: GapKey)
    requires forall g | g in guids :: g in b.actors
    ensures var before, after := ActorTotals(b.actors, b.credits, guids, k), ActorTotals(b.actors, b.credits - {guid}, guids, k);
            before.demand <= after.demand && before.supply == after.supply
  {
    if guids == [] {
    } else {
      var n := |guids| - 1;
      DroppedCredit(b, guid, guids[..n], k);
      hide DemandSum, SupplySum;
    }
  }

  lemma DroppedCreditHolds(b: Book, after: Book, guid: uint32)
    requires after.actors == b.actors && after.markets == b.markets && after.credits == b.credits - {guid}
    ensures DemandHolds(b, after)
  {
    forall k
      ensures FactTotals(b, k).demand <= FactTotals(after, k).demand && FactTotals(b, k).supply == FactTotals(after, k).supply
    {
      DroppedCredit(b, guid, AscendingGuids(b.actors.Keys), k);
      hide ActorTotals;
    }
  }

  lemma AppendKeepsPromises(base: Book, after: Book, claim: Claim)
    requires NoOverPromise(base) && after == base.(claims := base.claims + [claim], nextLeaseId := after.nextLeaseId)
    requires claim.state.Leased? && claim.committed == 0
    requires claim.Personal() || FitsGap(TotalsAt(base, claim.Key()), claim)
    ensures NoOverPromise(after)
  {
    hide ClaimTotals, FactTotals;
    forall k
      ensures WithinDemand(TotalsAt(after, k))
    {
      ClaimTotalsAppend(base.claims, claim, k);
      SameFactTotals(base, after, k);
      assert WithinDemand(TotalsAt(base, k));
    }
  }

  lemma LeaseKeepsPromises(b: Book, r: LeaseRequest, now: nat, verdict: Blocker, chain: Option<nat>)
    requires ClaimsOk(b.claims, b.nextLeaseId) && NoOverPromise(b)
    ensures NoOverPromise(Lease(b, r, now, verdict, chain).0)
  {
    TickForward(b, now);
    var base := LeaseOutcomeExists(b, r, now, verdict, chain);
    var (after, result) := Lease(b, r, now, verdict, chain);
    ForwardTransitive(b.claims, Tick(b, now).claims, base.claims, b.nextLeaseId);
    SameFactsHold(b, base);
    hide Lease, Tick, Screen, Forward, TotalsAt, NoOverPromise, FitsGap, DemandHolds;
    ForwardKeepsPromises(b, base);
    if result.Granted? {
      AppendKeepsPromises(base, after, result.claim);
    }
  }

  lemma SameFactTotals(b: Book, after: Book, k: GapKey)
    requires after.actors == b.actors && after.markets == b.markets && after.credits == b.credits
    ensures FactTotals(after, k) == FactTotals(b, k)
  {
  }

  lemma IdleRefreshLeavesFacts(b: Book, facts: ActorFacts, now: nat)
    requires facts.guid != 0 && !RefreshMatters(b, facts, now)
    ensures var after := ActorRefreshed(b, facts, now);
            after.actors == b.actors && after.markets == b.markets && after.credits == b.credits
  {
    hide ClaimsSeenByRefresh, Bridged;
  }

  lemma IdleRefreshKeepsPromises(b: Book, facts: ActorFacts, now: nat)
    requires ClaimsOk(b.claims, b.nextLeaseId) && NoOverPromise(b)
    requires facts.guid != 0 && !RefreshMatters(b, facts, now)
    ensures NoOverPromise(ActorRefreshed(b, facts, now))
  {
    RefreshedForward(b, facts, now);
    IdleRefreshLeavesFacts(b, facts, now);
    hide ActorRefreshed, RefreshMatters, NoOverPromise, Forward, DemandHolds;
    SameFactsHold(b, ActorRefreshed(b, facts, now));
    ForwardKeepsPromises(b, ActorRefreshed(b, facts, now));
  }

  lemma RefreshKeepsPromises(b: Book, facts: ActorFacts, now: nat, stale: bool)
    requires ClaimsOk(b.claims, b.nextLeaseId)
    ensures NoOverPromise(b) || (facts.guid != 0 && (RefreshMatters(b, facts, now) || stale)) ==>
              NoOverPromise(RefreshActor(b, facts, now, stale))
  {
    RefreshedForward(b, facts, now);
    hide ActorRefreshed, RefreshMatters, NoOverPromise, Reconciled;
    if facts.guid != 0 {
      if RefreshMatters(b, facts, now) || stale {
        assert AllOk(ActorRefreshed(b, facts, now).claims);
        ReconciledKeepsPromises(ActorRefreshed(b, facts, now), now);
      } else if NoOverPromise(b) {
        IdleRefreshKeepsPromises(b, facts, now);
      }
    }
  }

  lemma MarketKeepsPromises(b: Book, facts: MarketFacts, now: nat)
    requires ClaimsOk(b.claims, b.nextLeaseId)
    ensures NoOverPromise(b) || MarketChanges(b, facts) ==> NoOverPromise(RefreshMarket(b, facts, now))
  {
    TickForward(b, now);
    hide Tick, Forward, NoOverPromise, DemandHolds, Reconciled;
    if facts.market == 0 {
    } else if MarketChanges(b, facts) {
      TickedFactsAreOk(b, facts, now);
      ReconciledKeepsPromises(Tick(b, now).(markets := b.markets[facts.market := facts]), now);
    } else if NoOverPromise(b) {
      TickKeepsPromises(b, now);
    }
  }

  lemma TickKeepsPromises(b: Book, now: nat)
    requires ClaimsOk(b.claims, b.nextLeaseId) && NoOverPromise(b)
    ensures NoOverPromise(Tick(b, now))
  {
    TickForward(b, now);
    SameFactsHold(b, Tick(b, now));
    hide Forward, NoOverPromise, DemandHolds;
    ForwardKeepsPromises(b, Tick(b, now));
  }

  /** Every call but a record of consumed inputs keeps promises within demand. */
  lemma StepKeepsPromises(b: Book, call: Call)
    requires ClaimsOk(b.claims, b.nextLeaseId) && NoOverPromise(b) && !call.ConsumeInputsCall?
    ensures NoOverPromise(Step(b, call))
  {
    match call
    case LeaseCall(request, now, verdict, chain) => hide NoOverPromise, Lease; LeaseKeepsPromises(b, request, now, verdict, chain);
    case RefreshMarketCall(facts, now) => hide NoOverPromise, RefreshMarket; MarketKeepsPromises(b, facts, now);
    case RefreshActorCall(facts, now, stale) => hide NoOverPromise, RefreshActor; RefreshKeepsPromises(b, facts, now, stale);
    case InvalidateActorCall(guid, outcome, now) =>
      StepForward(b, call);
      DroppedCreditHolds(b, Step(b, call), guid);
      hide Step, Forward, NoOverPromise, DemandHolds;
      ForwardKeepsPromises(b, Step(b, call));
    case _ =>
      StepForward(b, call);
      StepHoldsFacts(b, call);
      hide Step, Forward, NoOverPromise, DemandHolds;
      ForwardKeepsPromises(b, Step(b, call));
  }

  lemma StepHoldsFacts(b: Book, call: Call)
    requires call.RenewProductionCall? || call.RecordOutputCall? || call.RecordOutcomeCall? || call.ExpireCall?
    ensures DemandHolds(b, Step(b, call))
  {
    hide Expired, RenewOne, Settle, LeaseIndex, DemandHolds;
    SameFactsHold(b, Step(b, call));
  }

  /** Over any run without a record of consumed inputs, no gap is ever over-promised. */
  lemma {:induction false} RunKeepsPromises(calls: seq<Call>)
    requires forall i | 0 <= i < |calls| :: !calls[i].ConsumeInputsCall?
    ensures NoOverPromise(Run(EmptyBook(), calls))
  {
    if calls == [] {
      forall k
        ensures WithinDemand(TotalsAt(EmptyBook(), k))
      {
        FactTotalsFactsOnly(EmptyBook(), k);
        hide FactTotals;
      }
    } else {
      var n := |calls| - 1;
      RunKeepsPromises(calls[..n]);
      RunKeepsClaims(EmptyBook(), calls[..n]);
      hide Step, NoOverPromise, ClaimsOk;
      StepKeepsPromises(Run(EmptyBook(), calls[..n]), calls[n]);
    }
  }

  /** Facts that change something restore the bound after any run at all. */
  lemma ChangedFactsRestorePromises(calls: seq<Call>, call: Call)
    requires var b := Run(EmptyBook(), calls);
             match call
             case RefreshActorCall(facts, now, stale) =>
               facts.guid != 0 && (stale || facts.guid !in b.actors || b.actors[facts.guid] != facts || facts.guid in b.credits)
             case RefreshMarketCall(facts, now) =>
               facts.market != 0 && (facts.market !in b.markets || b.markets[facts.market] != facts)
             case _ => false
    ensures NoOverPromise(Step(Run(EmptyBook(), calls), call))
  {
    RunKeepsClaims(EmptyBook(), calls);
    match call
    case RefreshActorCall(facts, now, stale) => RefreshKeepsPromises(Run(EmptyBook(), calls), facts, now, stale);
    case RefreshMarketCall(facts, now) => MarketKeepsPromises(Run(EmptyBook(), calls), facts, now);
  }
}
