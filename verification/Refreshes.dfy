/**
 What refreshed facts do to the claims of an actor: who keeps its leases, and which bridges the goods it
 now holds take the place of.
 */
module Refreshes {
  import opened Economy
  import opened Gaps
  import opened Claims
  import opened Trim
  import opened Steps
  import opened Progress
  import opened Safety
  import opened Outcomes

  // ----- leases

  lemma SeenIsReleased(b: Book, facts: ActorFacts, now: nat)
    requires facts.guid in b.actors
    requires var known := b.actors[facts.guid];
             known.market != facts.market || (known.online && !facts.online) || (known.autonomous && !facts.autonomous)
    ensures forall c | c in ClaimsSeenByRefresh(b, facts, now) && c.terms.actor == facts.guid :: !c.state.Leased?
  {
    var released := ActorReleased(b.claims, facts.guid, CapabilityLost, now);
    ExpiryTold(b.(claims := released), now);
    assert forall i | 0 <= i < |released| && released[i].terms.actor == facts.guid :: !released[i].state.Leased?;
  }

  /** An actor that moves to another market, goes offline or loses its autonomy holds no lease once its facts
      have been refreshed. */
  lemma RefreshTakesLeases(b: Book, facts: ActorFacts, now: nat, stale: bool)
    requires ClaimsOk(b.claims, b.nextLeaseId) && facts.guid != 0 && facts.guid in b.actors
    requires var known := b.actors[facts.guid];
             known.market != facts.market || (known.online && !facts.online) || (known.autonomous && !facts.autonomous)
    ensures forall c | c in RefreshActor(b, facts, now, stale).claims && c.terms.actor == facts.guid :: !c.state.Leased?
  {
    SeenIsReleased(b, facts, now);
    RefreshedForward(b, facts, now);
    var seen, refreshed := ClaimsSeenByRefresh(b, facts, now), ActorRefreshed(b, facts, now);
    TrimmedLater(refreshed, now);
    var after := RefreshActor(b, facts, now, stale).claims;
    hide Trimmed, ClaimsSeenByRefresh, ClaimTotals, ClaimOk, Descends;
    forall i | 0 <= i < |after| && after[i].terms.actor == facts.guid
      ensures !after[i].state.Leased?
    {
      assert Later(refreshed.claims[i], after[i]) && seen[i] in seen;
    }
  }

  /** They are given up for want of capability, before anything expires and before the trim: what they committed
      to make is bridged from then on. */
  lemma LeasesTakenAreBridged(b: Book, facts: ActorFacts, now: nat, c: Claim)
    requires AllOk(b.claims) && facts.guid in b.actors && c in b.claims && c.terms.actor == facts.guid && c.state.Leased?
    requires var known := b.actors[facts.guid];
             known.market != facts.market || (known.online && !facts.online) || (known.autonomous && !facts.autonomous)
    ensures GivenUp(c, CapabilityLost, now) in ClaimsSeenByRefresh(b, facts, now)
  {
    var released := ActorReleased(b.claims, facts.guid, CapabilityLost, now);
    ExpiryTold(b.(claims := released), now);
    var i :| 0 <= i < |b.claims| && b.claims[i] == c;
    ReleaseKeepsSupply(c, true, CapabilityLost, now, c.Key());
    hide Expired;
    assert released[i] in released;
  }

  /** Any other actor keeps the leases that are not overdue, before the trim. */
  lemma RefreshLeavesLeases(b: Book, facts: ActorFacts, now: nat)
    requires facts.guid in b.actors ==>
               var known := b.actors[facts.guid];
               known.market == facts.market && (known.online ==> facts.online) && (known.autonomous ==> facts.autonomous)
    ensures var ticked, refreshed := Tick(b, now).claims, ActorRefreshed(b, facts, now).claims;
            && |refreshed| == |ticked|
            && forall i | 0 <= i < |ticked| :: refreshed[i].state == ticked[i].state &&
                 (ticked[i].state.Leased? ==> refreshed[i] == ticked[i])
  {
    hide Expired, Reported, BridgeTotal;
  }

  /** Goods at hand will be spent on a bridge of theirs. */
  ghost predicate SpendsBridge(claims: seq<Claim>, facts: ActorFacts)
  {
    exists group :: BridgeTotal(claims, facts.guid, facts.market, group) > 0 && Reported(facts.supplies, group) > 0
  }

  lemma SpendingShows(claims: seq<Claim>, facts: ActorFacts)
    requires SpendsBridge(claims, facts)
    ensures Bridged(claims, facts) != claims
  {
    var group :| BridgeTotal(claims, facts.guid, facts.market, group) > 0 && Reported(facts.supplies, group) > 0;
    BridgesSpendReportOnce(claims, facts, group);
  }

  /** A refresh replaces the facts of its actor, starts its credits afresh and touches no other facts. If the
      facts are new, credits were held, a bridge is spent or expiry has left the figures stale, it brings every
      promise back within demand. */
  lemma RefreshTellsFacts(b: Book, facts: ActorFacts, now: nat, stale: bool)
    requires ClaimsOk(b.claims, b.nextLeaseId) && facts.guid != 0
    ensures var after := RefreshActor(b, facts, now, stale);
            && after.actors == b.actors[facts.guid := facts] && after.credits == b.credits - {facts.guid}
            && after.markets == b.markets
    ensures || stale || facts.guid !in b.actors || b.actors[facts.guid] != facts || facts.guid in b.credits
            || SpendsBridge(ClaimsSeenByRefresh(b, facts, now), facts) ==>
              NoOverPromise(RefreshActor(b, facts, now, stale))
  {
    RefreshKeepsPromises(b, facts, now, stale);
    if SpendsBridge(ClaimsSeenByRefresh(b, facts, now), facts) {
      SpendingShows(ClaimsSeenByRefresh(b, facts, now), facts);
    }
    hide Trimmed, ClaimsSeenByRefresh, Bridged, NoOverPromise, SpendsBridge;
  }

  // ----- bridges

  predicate IsAtHand(s: SupplyFact) { s.source.Inventory? || s.source.Mail? }

  /** The supplies of a report that are in an actor's hands: those in its bags and its mail. */
  function AtHand(supplies: seq<SupplyFact>): seq<SupplyFact>
  {
    if supplies == [] then []
    else
      var last := supplies[|supplies| - 1];
      AtHand(supplies[..|supplies| - 1]) + if IsAtHand(last) then [last] else []
  }

  lemma AtHandLast(supplies: seq<SupplyFact>)
    requires supplies != []
    ensures var n := |supplies| - 1;
            AtHand(supplies) == if IsAtHand(supplies[n]) then AtHand(supplies[..n]) + [supplies[n]] else AtHand(supplies[..n])
  {
  }

  lemma SupplyAppended(supplies: seq<SupplyFact>, last: SupplyFact, group: Group)
    ensures SupplySum(supplies + [last], group) == SupplySum(supplies, group) + if last.group == group then last.quantity else 0
  {
    assert (supplies + [last])[..|supplies|] == supplies;
  }

  /** Only goods at hand are spent on bridges, all of them. */
  lemma {:induction false} ReportedIsAtHand(supplies: seq<SupplyFact>, group: Group)
    ensures Reported(supplies, group) == SupplySum(AtHand(supplies), group)
  {
    if supplies == [] {
    } else {
      var n := |supplies| - 1;
      ReportedIsAtHand(supplies[..n], group);
      AtHandLast(supplies);
      SupplyAppended(AtHand(supplies[..n]), supplies[n], group);
      hide AtHand, SupplySum;
    }
  }

  lemma {:induction false} BridgesAddUp(claims: seq<Claim>, n: nat, m: nat, actor: uint32, market: uint32, group: Group)
    requires n <= m <= |claims|
    ensures BridgeTotal(claims[..n], actor, market, group) <= BridgeTotal(claims[..m], actor, market, group)
  {
    if n < m {
      BridgesAddUp(claims, n, m - 1, actor, market, group);
      BridgeTotalNext(claims, m - 1, actor, market, group);
    }
  }

  /** The oldest bridge is spent first: none is touched while an older one of the same goods has something left. */
  lemma OlderBridgesFirst(claims: seq<Claim>, facts: ActorFacts, i: nat, j: nat)
    requires i < j < |claims| && claims[i].Key() == claims[j].Key() && claims[i].terms.actor == claims[j].terms.actor
    requires claims[i].state.Released? && Bridged(claims, facts)[j] != claims[j]
    ensures Bridged(claims, facts)[i].bridged == 0
  {
    var group := claims[i].terms.group;
    BridgeTotalNext(claims, i, facts.guid, facts.market, group);
    BridgesAddUp(claims, i + 1, j, facts.guid, facts.market, group);
    hide BridgeTotal, Reported;
  }
}
