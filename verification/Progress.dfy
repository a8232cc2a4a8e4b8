/** Every step of the coordinator moves claims forward, and a lease adds at most one that fits its gap. */
module Progress {
  import opened Economy
  import opened Order
  import opened Gaps
  import opened Claims
  import opened Trim
  import opened Steps

  /** Claims moved forward: still well formed, each a later state of one before, totals no larger. */
  ghost predicate Forward(before: seq<Claim>, after: seq<Claim>, nextLeaseId: nat)
  {
    && ClaimsOk(after, nextLeaseId)
    && Descends(before, after)
    && forall k :: Shrinks(ClaimTotals(before, k), ClaimTotals(after, k))
  }

  lemma ForwardTransitive(a: seq<Claim>, b: seq<Claim>, c: seq<Claim>, nextLeaseId: nat)
    requires Forward(a, b, nextLeaseId) && Forward(b, c, nextLeaseId)
    ensures Forward(a, c, nextLeaseId)
  {
    hide Later, ClaimOk, ClaimTotals;
    DescendsTransitive(a, b, c);
    forall k
      ensures Shrinks(ClaimTotals(a, k), ClaimTotals(c, k))
    {
      assert Shrinks(ClaimTotals(a, k), ClaimTotals(b, k));
      assert Shrinks(ClaimTotals(b, k), ClaimTotals(c, k));
    }
  }

  lemma ClaimwiseForward(before: seq<Claim>, after: seq<Claim>, nextLeaseId: nat)
    requires ClaimsOk(before, nextLeaseId) && AllOk(after) && Claimwise(before, after)
    ensures Forward(before, after, nextLeaseId)
  {
    hide ClaimTotals;
    ClaimwiseOk(before, after, nextLeaseId);
    forall k
      ensures Shrinks(ClaimTotals(before, k), ClaimTotals(after, k))
    {
      ClaimwiseTotals(before, after, k);
    }
  }

  lemma TickForward(b: Book, now: nat)
    requires ClaimsOk(b.claims, b.nextLeaseId)
    ensures Forward(b.claims, Tick(b, now).claims, b.nextLeaseId)
  {
    hide ClaimTotals, Expired;
    ExpiredOk(b.claims, now, b.nextLeaseId);
    forall k
      ensures Shrinks(ClaimTotals(b.claims, k), ClaimTotals(Expired(b.claims, now), k))
    {
      ExpiredTotals(b.claims, now, k);
    }
  }

  lemma SettleForward(claims: seq<Claim>, nextLeaseId: nat, i: nat, outcome: Outcome, committed: uint32, now: nat)
    requires ClaimsOk(claims, nextLeaseId) && i < |claims| && claims[i].state.Leased?
    ensures Forward(claims, claims[i := Settle(claims[i], outcome, committed, now)], nextLeaseId)
  {
    SettleOk(claims[i], outcome, committed, now);
    hide Settle;
    ClaimwiseForward(claims, claims[i := Settle(claims[i], outcome, committed, now)], nextLeaseId);
  }

  lemma RenewForward(b: Book, r: ProductionRequest, now: nat)
    requires ClaimsOk(b.claims, b.nextLeaseId)
    ensures Forward(b.claims, RenewProduction(b, r, now).claims, b.nextLeaseId)
  {
    if r.actor == 0 || r.market == 0 || r.expiresAt <= now {
      ClaimwiseForward(b.claims, b.claims, b.nextLeaseId);
    } else {
      TickForward(b, now);
      var ticked, after := Tick(b, now), RenewProduction(b, r, now);
      hide Tick;
      forall i | 0 <= i < |ticked.claims|
        ensures ClaimOk(after.claims[i]) && Later(ticked.claims[i], after.claims[i])
      {
        RenewOneOk(ticked, r, i, now);
      }
      ClaimwiseForward(ticked.claims, after.claims, b.nextLeaseId);
      ForwardTransitive(b.claims, ticked.claims, after.claims, b.nextLeaseId);
    }
  }

  lemma RenewOneOk(b: Book, r: ProductionRequest, i: nat, now: nat)
    requires i < |b.claims| && ClaimOk(b.claims[i])
    ensures ClaimOk(RenewOne(b, r, i, now)) && Later(b.claims[i], RenewOne(b, r, i, now))
  {
    var c := b.claims[i];
    if ProductionOf(c, r.actor) {
      SettleOk(c, NeedChanged, c.committed, now);
      SettleOk(c, CapabilityLost, c.committed, now);
    }
  }

  /** A production claim of an actor that is under way. */
  predicate Makes(c: Claim, actor: uint32)
  {
    c.terms.actor == actor && c.terms.kind.Production? && c.state.Leased?
  }

  /** The actor is at work in the market of the request and knows the recipe; and the request offers it for
      the same goods. */
  predicate Offered(b: Book, r: ProductionRequest, c: Claim, offer: Recipe)
  {
    && r.actor in b.actors && b.actors[r.actor].online && b.actors[r.actor].autonomous
    && b.actors[r.actor].market == r.market == c.terms.market && c.terms.recipe in b.actors[r.actor].recipes
    && offer in r.recipes && offer.recipe != 0 && offer.output != 0
    && offer.group == c.terms.group && offer.recipe == c.terms.recipe && offer.output == c.terms.output
  }

  /** What a renewal makes of a claim under way: kept until the new time, or released with what is committed. */
  predicate RenewedTo(b: Book, r: ProductionRequest, c: Claim, d: Claim, now: nat)
  {
    if d.state.Leased? then d == c.(expiresAt := r.expiresAt) && exists offer | offer in r.recipes :: Offered(b, r, c, offer)
    else
      && d == c.(state := Released, settledAt := now, bridged := c.committed, lastOutcome := d.lastOutcome)
      && d.lastOutcome == if exists offer | offer in r.recipes :: Offered(b, r, c, offer) then NeedChanged else CapabilityLost
  }

  lemma OneRenewed(b: Book, r: ProductionRequest, i: nat, now: nat)
    requires i < |b.claims|
    ensures var c, d := b.claims[i], RenewOne(b, r, i, now);
            if Makes(c, r.actor) then RenewedTo(b, r, c, d, now) else d == c
    ensures Makes(RenewOne(b, r, i, now), r.actor) ==> i == FirstRenewable(b, r, |b.claims|)
  {
    var c := b.claims[i];
    if StillAvailable(b, r, c) {
      var offer :| offer in r.recipes && offer.recipe != 0 && offer.output != 0 && offer.group == c.terms.group &&
        offer.recipe == c.terms.recipe && offer.output == c.terms.output;
      assert Offered(b, r, c, offer);
    }
  }

  /** A renewal leaves its actor at most one production claim under way, one that it can still make and is
      offered, expiring when the request says; it releases the others with what they committed; and it leaves
      every other claim as expiry does. */
  lemma RenewalLeavesOneClaim(b: Book, r: ProductionRequest, now: nat)
    requires r.actor != 0 && r.market != 0 && r.expiresAt > now
    ensures var ticked, after := Tick(b, now), RenewProduction(b, r, now);
            && |after.claims| == |ticked.claims|
            && (forall i, j | 0 <= i < j < |after.claims| :: !(Makes(after.claims[i], r.actor) && Makes(after.claims[j], r.actor)))
            && (forall i | 0 <= i < |after.claims| ::
                  if Makes(ticked.claims[i], r.actor) then RenewedTo(ticked, r, ticked.claims[i], after.claims[i], now)
                  else after.claims[i] == ticked.claims[i])
  {
    var ticked, after := Tick(b, now), RenewProduction(b, r, now);
    hide Tick, RenewOne, RenewedTo, FirstRenewable;
    forall i | 0 <= i < |after.claims|
      ensures if Makes(ticked.claims[i], r.actor) then RenewedTo(ticked, r, ticked.claims[i], after.claims[i], now)
              else after.claims[i] == ticked.claims[i]
      ensures Makes(after.claims[i], r.actor) ==> i == FirstRenewable(ticked, r, |ticked.claims|)
    {
      OneRenewed(ticked, r, i, now);
    }
  }

  /** And it does keep one, no later than the first it can still make. */
  lemma RenewalKeepsOne(b: Book, r: ProductionRequest, now: nat, i: nat, offer: Recipe)
    requires r.actor != 0 && r.market != 0 && r.expiresAt > now
    requires i < |Tick(b, now).claims| && Makes(Tick(b, now).claims[i], r.actor) && Offered(b, r, Tick(b, now).claims[i], offer)
    ensures |RenewProduction(b, r, now).claims| == |Tick(b, now).claims|
    ensures exists j :: 0 <= j <= i && Makes(RenewProduction(b, r, now).claims[j], r.actor)
  {
    var ticked := Tick(b, now);
    var j := FirstRenewable(ticked, r, |ticked.claims|);
    hide Tick, FirstRenewable;
    assert Renewable(ticked, r, ticked.claims[i]);
    assert Makes(RenewOne(ticked, r, j, now), r.actor);
    assert Makes(RenewProduction(b, r, now).claims[j], r.actor);
  }

  /** A request that names nobody, no market or no time to come renews nothing. */
  lemma IdleRenewal(b: Book, r: ProductionRequest, now: nat)
    requires r.actor == 0 || r.market == 0 || r.expiresAt <= now
    ensures RenewProduction(b, r, now) == b
  {
  }

  lemma OutputForward(b: Book, leaseId: nat, produced: uint32, now: nat)
    requires ClaimsOk(b.claims, b.nextLeaseId)
    ensures Forward(b.claims, RecordOutput(b, leaseId, produced, now).claims, b.nextLeaseId)
  {
    TickForward(b, now);
    var ticked := Tick(b, now);
    hide Tick, Settle;
    if OutputCounts(ticked, leaseId, produced) {
      var i := LeaseIndex(ticked.claims, leaseId);
      var c := ticked.claims[i];
      var total := ProducedTotal(c, produced);
      var outcome := if total >= c.quantity then Outcome.Completed else Committed;
      SettleForward(ticked.claims, b.nextLeaseId, i, outcome, total, now);
      ForwardTransitive(b.claims, ticked.claims, ticked.claims[i := Settle(c, outcome, total, now)], b.nextLeaseId);
    }
  }

  lemma OutcomeForward(b: Book, leaseId: nat, outcome: Outcome, committed: uint32, now: nat)
    requires ClaimsOk(b.claims, b.nextLeaseId)
    ensures Forward(b.claims, RecordOutcome(b, leaseId, outcome, committed, now).claims, b.nextLeaseId)
  {
    TickForward(b, now);
    var ticked := Tick(b, now);
    hide Tick, Settle;
    var i := LeaseIndex(ticked.claims, leaseId);
    if i < |ticked.claims| && ticked.claims[i].state.Leased? {
      SettleForward(ticked.claims, b.nextLeaseId, i, outcome, committed, now);
      ForwardTransitive(b.claims, ticked.claims, RecordOutcome(b, leaseId, outcome, committed, now).claims, b.nextLeaseId);
    }
  }

  lemma InvalidateForward(b: Book, guid: uint32, outcome: Outcome, now: nat)
    requires ClaimsOk(b.claims, b.nextLeaseId)
    ensures Forward(b.claims, ActorReleased(b.claims, guid, outcome, now), b.nextLeaseId)
  {
    ActorReleasedOk(b.claims, guid, outcome, now);
    ClaimwiseForward(b.claims, ActorReleased(b.claims, guid, outcome, now), b.nextLeaseId);
  }

  lemma SpeculationForward(b: Book, k: GapKey, now: nat)
    requires ClaimsOk(b.claims, b.nextLeaseId)
    ensures Forward(b.claims, SpeculationReleased(b.claims, k, now), b.nextLeaseId)
  {
    SpeculationReleasedOk(b.claims, k, now);
    ClaimwiseForward(b.claims, SpeculationReleased(b.claims, k, now), b.nextLeaseId);
  }

  lemma ReconciledForward(b: Book, now: nat)
    requires ClaimsOk(b.claims, b.nextLeaseId)
    ensures Forward(b.claims, Reconciled(b, now).claims, b.nextLeaseId)
  {
    TrimmedLater(b, now);
    hide Trimmed;
    ClaimwiseForward(b.claims, Trimmed(b, now), b.nextLeaseId);
  }

  lemma SeenByRefreshForward(b: Book, facts: ActorFacts, now: nat)
    requires ClaimsOk(b.claims, b.nextLeaseId)
    ensures Forward(b.claims, ClaimsSeenByRefresh(b, facts, now), b.nextLeaseId)
  {
    TickForward(b, now);
    var released := ActorReleased(b.claims, facts.guid, CapabilityLost, now);
    InvalidateForward(b, facts.guid, CapabilityLost, now);
    TickForward(b.(claims := released), now);
    hide ActorReleased, Expired;
    ForwardTransitive(b.claims, released, Expired(released, now), b.nextLeaseId);
  }

  lemma RefreshedForward(b: Book, facts: ActorFacts, now: nat)
    requires ClaimsOk(b.claims, b.nextLeaseId)
    ensures Forward(b.claims, ActorRefreshed(b, facts, now).claims, b.nextLeaseId)
  {
    SeenByRefreshForward(b, facts, now);
    var seen := ClaimsSeenByRefresh(b, facts, now);
    BridgedOk(seen, facts);
    hide ClaimsSeenByRefresh, Bridged;
    ClaimwiseForward(seen, Bridged(seen, facts), b.nextLeaseId);
    ForwardTransitive(b.claims, seen, Bridged(seen, facts), b.nextLeaseId);
  }

  lemma RefreshActorForward(b: Book, facts: ActorFacts, now: nat, stale: bool)
    requires ClaimsOk(b.claims, b.nextLeaseId)
    ensures Forward(b.claims, RefreshActor(b, facts, now, stale).claims, b.nextLeaseId)
  {
    if facts.guid == 0 {
      ClaimwiseForward(b.claims, b.claims, b.nextLeaseId);
    } else {
      RefreshedForward(b, facts, now);
      var refreshed := ActorRefreshed(b, facts, now);
      assert refreshed.nextLeaseId == b.nextLeaseId;
      hide ActorRefreshed;
      ReconciledForward(refreshed, now);
      ForwardTransitive(b.claims, refreshed.claims, Reconciled(refreshed, now).claims, b.nextLeaseId);
    }
  }

  lemma RefreshMarketForward(b: Book, facts: MarketFacts, now: nat)
    requires ClaimsOk(b.claims, b.nextLeaseId)
    ensures Forward(b.claims, RefreshMarket(b, facts, now).claims, b.nextLeaseId)
  {
    if facts.market == 0 {
      ClaimwiseForward(b.claims, b.claims, b.nextLeaseId);
    } else {
      TickForward(b, now);
      var told := Tick(b, now).(markets := b.markets[facts.market := facts]);
      assert told.claims == Tick(b, now).claims;
      ReconciledForward(told, now);
      hide Tick;
      ForwardTransitive(b.claims, told.claims, Reconciled(told, now).claims, b.nextLeaseId);
    }
  }

  // ----- what a lease adds

  /** A lease first moves the claims forward to `base` and, when granted, adds one claim to it. */
  ghost predicate LeaseOutcome(b: Book, base: Book, r: LeaseRequest, now: nat, after: Book, result: LeaseResult)
  {
    && base == b.(claims := base.claims)
    && Forward(Tick(b, now).claims, base.claims, b.nextLeaseId)
    && match result
       case Refused(_, _) => after == base
       case Granted(claim) =>
         && claim.terms.leaseId == b.nextLeaseId && claim.terms.Key() == r.Key()
         && claim.terms.actor == r.actor && claim.terms.work == r.work
         && claim.terms.kind == r.kind && claim.terms.priority == r.priority
         && claim.Personal() == r.Personal()
         && claim.state.Leased? && claim.committed == claim.bridged == 0
         && 1 <= claim.quantity <= r.quantity
         && after == base.(claims := base.claims + [claim], nextLeaseId := b.nextLeaseId + 1)
         && (r.Personal() ==> base.claims == Tick(b, now).claims)
         && (!r.Personal() ==> FitsGap(TotalsAt(base, r.Key()), claim))
  }

  /** A shared claim asks no more than the gap has open: auctioned goods for a purchase, uncovered
      demand for anything else. */
  predicate FitsGap(t: GapTotals, claim: Claim)
  {
    if claim.terms.kind.Purchase? then t.purchase + t.speculation + claim.quantity <= t.auction
    else t.supply + t.claimed + claim.quantity <= t.demand
  }

  lemma GrantUpToOutcome(b: Book, base: Book, r: LeaseRequest, chain: Option<nat>, room: nat, now: nat)
    requires base == b.(claims := base.claims)
    requires Forward(Tick(b, now).claims, base.claims, b.nextLeaseId)
    requires !r.Personal() && r.quantity > 0
    requires var t := TotalsAt(base, r.Key());
             if r.kind.Purchase? then t.purchase + t.speculation + room <= t.auction || room == 0
             else t.supply + t.claimed + room <= t.demand || room == 0
    ensures var (after, result) := GrantUpTo(base, r, chain, room, now); LeaseOutcome(b, base, r, now, after, result)
  {
    hide TotalsAt, Forward, Tick;
  }

  lemma ProductionLeaseOutcome(b: Book, ticked: Book, r: LeaseRequest, now: nat, chain: Option<nat>) returns (base: Book)
    requires ticked == Tick(b, now) == b.(claims := ticked.claims)
    requires Forward(ticked.claims, ticked.claims, b.nextLeaseId)
    requires ClaimsOk(ticked.claims, b.nextLeaseId) && !r.Personal() && r.quantity > 0 && !r.kind.Purchase?
    ensures var (after, result) := LeaseProduction(ticked, r, chain, now); LeaseOutcome(b, base, r, now, after, result)
  {
    var cleared := ticked.(claims := SpeculationReleased(ticked.claims, r.Key(), now));
    SpeculationForward(ticked, r.Key(), now);
    hide TotalsAt, Forward, SpeculationReleased, LeaseOutcome, GrantUpTo;
    var t, u := TotalsAt(ticked, r.Key()), TotalsAt(cleared, r.Key());
    if UnclaimedNeed(t) == 0 && !r.priority.Speculation? {
      GrantUpToOutcome(b, cleared, r, chain, UnclaimedNeed(u), now);
      base := cleared;
    } else {
      GrantUpToOutcome(b, ticked, r, chain, UnclaimedNeed(t), now);
      base := ticked;
    }
  }

  /** A needed purchase granted after speculation has made way. */
  lemma ClearedPurchaseOutcome(b: Book, ticked: Book, cleared: Book, r: LeaseRequest, now: nat, chain: Option<nat>, unclaimed: nat)
    requires ticked == Tick(b, now) == b.(claims := ticked.claims)
    requires ClaimsOk(ticked.claims, b.nextLeaseId) && !r.Personal() && r.quantity > 0 && r.kind.Purchase?
    requires cleared == ticked.(claims := SpeculationReleased(ticked.claims, r.Key(), now))
    ensures var u := TotalsAt(cleared, r.Key());
            var (after, result) := GrantUpTo(cleared, r, chain, Min(unclaimed, Minus(u.auction, u.purchase)), now);
            LeaseOutcome(b, cleared, r, now, after, result)
  {
    SpeculationForward(ticked, r.Key(), now);
    ClearedTotals(ticked, r.Key(), now);
    hide TotalsAt, Forward, SpeculationReleased, LeaseOutcome, GrantUpTo, Tick;
    var u := TotalsAt(cleared, r.Key());
    RoomWithin(u.auction, u.purchase, unclaimed);
    hide Min, Minus;
    GrantUpToOutcome(b, cleared, r, chain, Min(unclaimed, Minus(u.auction, u.purchase)), now);
  }

  lemma RoomWithin(supply: nat, taken: nat, wanted: nat)
    ensures taken + Min(wanted, Minus(supply, taken)) <= supply || Min(wanted, Minus(supply, taken)) == 0
  {
  }

  lemma PurchaseLeaseOutcome(b: Book, ticked: Book, r: LeaseRequest, now: nat, chain: Option<nat>) returns (base: Book)
    requires ticked == Tick(b, now) == b.(claims := ticked.claims)
    requires Forward(ticked.claims, ticked.claims, b.nextLeaseId)
    requires ClaimsOk(ticked.claims, b.nextLeaseId) && !r.Personal() && r.quantity > 0 && r.kind.Purchase?
    ensures var (after, result) := LeaseNeededPurchase(ticked, r, chain, now); LeaseOutcome(b, base, r, now, after, result)
  {
    hide TotalsAt, Forward, SpeculationReleased, LeaseOutcome, GrantUpTo, Tick;
    var t := TotalsAt(ticked, r.Key());
    var unclaimed := Minus(PurchaseNeed(t), t.purchase);
    if SpeculationInTheWay(t) {
      base := ticked.(claims := SpeculationReleased(ticked.claims, r.Key(), now));
      ClearedPurchaseOutcome(b, ticked, base, r, now, chain, unclaimed);
    } else {
      base := ticked;
      RoomWithin(t.auction, t.purchase + t.speculation, unclaimed);
      hide Min, Minus;
      GrantUpToOutcome(b, base, r, chain, Min(unclaimed, Minus(t.auction, t.purchase + t.speculation)), now);
    }
  }

  lemma SpeculationLeaseOutcome(b: Book, ticked: Book, r: LeaseRequest, now: nat, chain: Option<nat>)
    requires ticked == Tick(b, now) == b.(claims := ticked.claims)
    requires Forward(ticked.claims, ticked.claims, b.nextLeaseId)
    requires !r.Personal() && r.quantity > 0 && r.kind.Purchase?
    ensures var (after, result) := LeaseSpeculation(ticked, r, chain, now); LeaseOutcome(b, ticked, r, now, after, result)
  {
    hide TotalsAt, Forward, LeaseOutcome, GrantUpTo, Tick;
    var t := TotalsAt(ticked, r.Key());
    GrantUpToOutcome(b, ticked, r, chain, Minus(t.auction, Max(PurchaseNeed(t), t.purchase) + t.speculation), now);
  }

  lemma SharedLeaseOutcome(b: Book, r: LeaseRequest, now: nat, chain: Option<nat>) returns (base: Book)
    requires ClaimsOk(b.claims, b.nextLeaseId) && !r.Personal() && r.quantity > 0
    ensures var (after, result) := LeaseShared(Tick(b, now), r, chain, now); LeaseOutcome(b, base, r, now, after, result)
  {
    TickForward(b, now);
    base := Tick(b, now);
    ClaimwiseForward(base.claims, base.claims, b.nextLeaseId);
    hide LeaseProduction, LeaseNeededPurchase, LeaseSpeculation;
    if chain.None? && !r.priority.Speculation? {
    } else if !r.kind.Purchase? {
      base := ProductionLeaseOutcome(b, base, r, now, chain);
    } else if r.priority.Speculation? {
      SpeculationLeaseOutcome(b, base, r, now, chain);
    } else {
      base := PurchaseLeaseOutcome(b, base, r, now, chain);
    }
  }

  lemma ClearedTotals(b: Book, k: GapKey, now: nat)
    ensures TotalsAt(b.(claims := SpeculationReleased(b.claims, k, now)), k).speculation == 0
  {
    NoSpeculationLeft(b.claims, k, now);
    FactTotalsFactsOnly(b, k);
    TotalsWithClaims(b, SpeculationReleased(b.claims, k, now), k);
  }

  lemma RefusalOutcome(b: Book, r: LeaseRequest, now: nat, verdict: Blocker)
    requires ClaimsOk(b.claims, b.nextLeaseId)
    ensures var screened := Screen(Tick(b, now), r, now, verdict);
            screened.Some? ==> screened.value.Refused? && LeaseOutcome(b, Tick(b, now), r, now, Tick(b, now), screened.value)
  {
    TickForward(b, now);
    ClaimwiseForward(Tick(b, now).claims, Tick(b, now).claims, b.nextLeaseId);
    hide Forward, Expired;
  }

  lemma PersonalOutcome(b: Book, r: LeaseRequest, now: nat)
    requires ClaimsOk(b.claims, b.nextLeaseId) && r.Personal() && r.quantity > 0
    ensures var (after, result) := Grant(Tick(b, now), r, None, r.quantity, now); LeaseOutcome(b, Tick(b, now), r, now, after, result)
  {
    TickForward(b, now);
    ClaimwiseForward(Tick(b, now).claims, Tick(b, now).claims, b.nextLeaseId);
    hide Forward, Expired, TotalsAt;
  }

  lemma ScreenRefuses(b: Book, r: LeaseRequest, now: nat, verdict: Blocker)
    ensures var screened := Screen(b, r, now, verdict); screened.Some? ==> screened.value.Refused?
  {
  }

  lemma ScreenAsksForGoods(b: Book, r: LeaseRequest, now: nat, verdict: Blocker)
    ensures Screen(b, r, now, verdict).None? ==> r.quantity > 0
  {
  }

  lemma LeaseOutcomeExists(b: Book, r: LeaseRequest, now: nat, verdict: Blocker, chain: Option<nat>) returns (base: Book)
    requires ClaimsOk(b.claims, b.nextLeaseId)
    ensures var (after, result) := Lease(b, r, now, verdict, chain); LeaseOutcome(b, base, r, now, after, result)
    ensures Lease(b, r, now, verdict, chain).1.Granted? ==> Screen(Tick(b, now), r, now, verdict).None?
  {
    hide ClaimsOk, LeaseOutcome, Screen, Grant, LeaseShared, Tick;
    base := Tick(b, now);
    RefusalOutcome(b, r, now, verdict);
    ScreenAsksForGoods(base, r, now, verdict);
    if Screen(base, r, now, verdict).None? {
      if r.Personal() {
        PersonalOutcome(b, r, now);
      } else {
        base := SharedLeaseOutcome(b, r, now, chain);
      }
    }
  }

  // ----- a lease takes what is open

  /** Room at a gap becomes a claim of that size, up to what was asked, or a refusal if there is none. */
  predicate TakesRoom(base: Book, r: LeaseRequest, room: nat, after: Book, result: LeaseResult)
  {
    match result
    case Refused(blocker, recorded) => room == 0 && blocker.NoDemand? && recorded && after == base
    case Granted(claim) => room > 0 && claim.quantity == Min(r.quantity, room) && after.claims == base.claims + [claim]
  }

  /** A production lease takes all the uncovered demand it asks for. Speculation makes way only if
      nothing is uncovered otherwise, and it is only then that a lease is refused. */
  lemma ProductionLeaseTakesAll(b: Book, r: LeaseRequest, chain: Option<nat>, now: nat) returns (base: Book)
    ensures base == if UnclaimedNeed(TotalsAt(b, r.Key())) == 0 && !r.priority.Speculation?
                    then b.(claims := SpeculationReleased(b.claims, r.Key(), now)) else b
    ensures var (after, result) := LeaseProduction(b, r, chain, now);
            TakesRoom(base, r, UnclaimedNeed(TotalsAt(base, r.Key())), after, result)
  {
    hide TotalsAt, SpeculationReleased;
    var cleared := b.(claims := SpeculationReleased(b.claims, r.Key(), now));
    base := if UnclaimedNeed(TotalsAt(b, r.Key())) == 0 && !r.priority.Speculation? then cleared else b;
  }

  /** A needed purchase takes what its gap still has to buy and the auctions still have to sell.
      Speculation makes way only where it stands between the two. */
  lemma PurchaseLeaseTakesAll(b: Book, r: LeaseRequest, chain: Option<nat>, now: nat) returns (base: Book)
    ensures base == if SpeculationInTheWay(TotalsAt(b, r.Key()))
                    then b.(claims := SpeculationReleased(b.claims, r.Key(), now)) else b
    ensures var t, u := TotalsAt(b, r.Key()), TotalsAt(base, r.Key());
            var (after, result) := LeaseNeededPurchase(b, r, chain, now);
            TakesRoom(base, r, Min(Minus(PurchaseNeed(t), t.purchase), Minus(u.auction, u.purchase + u.speculation)), after, result)
  {
    var cleared := b.(claims := SpeculationReleased(b.claims, r.Key(), now));
    ClearedTotals(b, r.Key(), now);
    hide TotalsAt, SpeculationReleased;
    base := if SpeculationInTheWay(TotalsAt(b, r.Key())) then cleared else b;
  }

  /** A speculative purchase leaves the auctions' goods that are needed or already leased. */
  lemma SpeculationLeavesNeeded(b: Book, r: LeaseRequest, chain: Option<nat>, now: nat)
    ensures var t := TotalsAt(b, r.Key());
            var (after, result) := LeaseSpeculation(b, r, chain, now);
            && TakesRoom(b, r, Minus(t.auction, Max(PurchaseNeed(t), t.purchase) + t.speculation), after, result)
            && (result.Granted? ==> PurchaseNeed(t) + t.speculation + result.claim.quantity <= t.auction)
  {
    hide TotalsAt;
  }

  /** The book a shared request is served from: speculation is released first where it must make way. */
  ghost function ServedFrom(b: Book, r: LeaseRequest, now: nat): Book
  {
    var t := TotalsAt(b, r.Key());
    var makesWay := !r.priority.Speculation? && if r.kind.Purchase? then SpeculationInTheWay(t) else UnclaimedNeed(t) == 0;
    if makesWay then b.(claims := SpeculationReleased(b.claims, r.Key(), now)) else b
  }

  /** What a shared request finds open: uncovered demand for production and resources; for a purchase
      goods at auction that are free, and either needed or, on speculation, not needed. */
  ghost function OpenTo(b: Book, r: LeaseRequest, now: nat): nat
  {
    var t, u := TotalsAt(b, r.Key()), TotalsAt(ServedFrom(b, r, now), r.Key());
    if !r.kind.Purchase? then UnclaimedNeed(u)
    else if r.priority.Speculation? then Minus(t.auction, Max(PurchaseNeed(t), t.purchase) + t.speculation)
    else Min(Minus(PurchaseNeed(t), t.purchase), Minus(u.auction, u.purchase + u.speculation))
  }

  /** A call to lease answers a request that passes the checks with exactly what is open to it, up to
      what it asks for: a refusal only when nothing is open, or when no chain can be had for work that
      is not speculation. A personal request is granted in full. */
  lemma LeaseTakesWhatIsOpen(b: Book, r: LeaseRequest, now: nat, verdict: Blocker, chain: Option<nat>)
    ensures var ticked := Tick(b, now);
            var (after, result) := Lease(b, r, now, verdict, chain);
            match Screen(ticked, r, now, verdict)
            case Some(refusal) => after == ticked && result == refusal
            case None =>
              if r.Personal() then result.Granted? && result.claim.quantity == r.quantity && after.claims == ticked.claims + [result.claim]
              else if chain.None? && !r.priority.Speculation? then after == ticked && result == Refused(Capacity, true)
              else TakesRoom(ServedFrom(ticked, r, now), r, OpenTo(ticked, r, now), after, result)
  {
    hide TotalsAt, SpeculationReleased, Screen, Expired, LeaseProduction, LeaseNeededPurchase, LeaseSpeculation, TakesRoom, GrantUpTo,
      OpenTo, ServedFrom;
    var ticked := Tick(b, now);
    hide Tick;
    if Screen(ticked, r, now, verdict).None? && !r.Personal() && (chain.Some? || r.priority.Speculation?) {
      SharedTakesWhatIsOpen(ticked, r, chain, now);
    }
  }

  lemma SharedTakesWhatIsOpen(b: Book, r: LeaseRequest, chain: Option<nat>, now: nat)
    requires chain.Some? || r.priority.Speculation?
    ensures var (after, result) := LeaseShared(b, r, chain, now); TakesRoom(ServedFrom(b, r, now), r, OpenTo(b, r, now), after, result)
  {
    hide TotalsAt, SpeculationReleased, LeaseProduction, LeaseNeededPurchase, LeaseSpeculation, TakesRoom, GrantUpTo;
    if !r.kind.Purchase? {
      var base := ProductionLeaseTakesAll(b, r, chain, now);
    } else if r.priority.Speculation? {
      SpeculationLeavesNeeded(b, r, chain, now);
    } else {
      var base := PurchaseLeaseTakesAll(b, r, chain, now);
    }
  }

  /** A shared request finds nothing open to it and no speculation to release. */
  ghost predicate AsksInVain(b: Book, r: LeaseRequest, now: nat)
  {
    OpenTo(b, r, now) == 0 && ServedFrom(b, r, now).claims == b.claims
  }

  /** What a shared request comes to, for a gap that can offer a chain: it is refused and leaves the claims
      as they are exactly if it asks in vain. */
  lemma RefusedInVainIff(b: Book, r: LeaseRequest, chain: Option<nat>, now: nat)
    requires chain.Some? || r.priority.Speculation?
    ensures var (after, result) := LeaseShared(b, r, chain, now);
            && (result.Refused? && after.claims == b.claims <==> AsksInVain(b, r, now))
            && (result.Refused? ==> result.blocker.NoDemand?)
  {
    hide TotalsAt, SpeculationReleased, LeaseShared, OpenTo, ServedFrom;
    SharedTakesWhatIsOpen(b, r, chain, now);
    var (after, result) := LeaseShared(b, r, chain, now);
    assert result.Refused? ==> after == ServedFrom(b, r, now) && OpenTo(b, r, now) == 0;
    assert result.Granted? ==> OpenTo(b, r, now) > 0;
  }

  /** A refusal that leaves a blocker row behind. */
  predicate LeavesRow(result: LeaseResult, r: LeaseRequest)
  {
    result.Refused? && result.recorded && !r.Personal() && !result.blocker.NoDemand?
  }

  /** The request will be refused with a blocker row: by a check, or for want of a chain. */
  predicate WillLeaveRow(b: Book, r: LeaseRequest, now: nat, verdict: Blocker, chain: Option<nat>)
  {
    !r.Personal() &&
    match Screen(b, r, now, verdict)
    case Some(refusal) => refusal.Refused? && refusal.recorded && !refusal.blocker.NoDemand?
    case None => chain.None? && !r.priority.Speculation?
  }

  /** A call leaves a blocker row exactly if that can be told before it, and then leaves the book as it is. */
  lemma LeavesRowIff(b: Book, r: LeaseRequest, now: nat, verdict: Blocker, chain: Option<nat>)
    ensures var (after, result) := Answered(b, r, now, verdict, chain);
            && (LeavesRow(result, r) <==> WillLeaveRow(b, r, now, verdict, chain))
            && (LeavesRow(result, r) ==> after == b)
  {
    hide TotalsAt, Screen, LeaseShared, OpenTo, ServedFrom;
    if Screen(b, r, now, verdict).None? && !r.Personal() {
      if chain.Some? || r.priority.Speculation? {
        RefusedInVainIff(b, r, chain, now);
      } else {
        NoChainNoLease(b, r, chain, now);
      }
    }
  }

  lemma NoChainNoLease(b: Book, r: LeaseRequest, chain: Option<nat>, now: nat)
    requires chain.None? && !r.priority.Speculation?
    ensures LeaseShared(b, r, chain, now) == (b, Refused(Capacity, true))
  {
  }
}
