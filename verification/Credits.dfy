/**
 Credits for inputs a confirmed craft has already consumed: how they lower demand, how they add
 up, and exactly when lowering demand leaves a gap over-promised.
 */
module Credits {
  import opened Economy
  import opened Order
  import opened Gaps
  import opened Claims
  import opened Trim
  import opened Steps
  import opened Progress
  import opened Safety

  /** No credit exceeds the demand its actor's published supply leaves uncovered. */
  predicate CreditsOk(b: Book)
  {
    forall guid | guid in b.credits ::
      && guid in b.actors
      && forall group | group in b.credits[guid] :: b.credits[guid][group] <= Uncovered(b.actors[guid], group)
  }

  lemma RefreshKeepsCredits(b: Book, facts: ActorFacts, now: nat, stale: bool)
    requires CreditsOk(b)
    ensures CreditsOk(RefreshActor(b, facts, now, stale))
  {
    hide Trimmed, Bridged, ClaimsSeenByRefresh, RefreshMatters, TotalsAt;
  }

  lemma ConsumptionKeepsCredits(b: Book, guid: uint32, inputs: seq<DemandFact>, now: nat)
    requires CreditsOk(b)
    ensures CreditsOk(ConsumeInputs(b, guid, inputs, now))
  {
    hide Expired, DemandSum, SupplySum;
  }

  lemma StepKeepsCredits(b: Book, call: Call)
    requires CreditsOk(b)
    ensures CreditsOk(Step(b, call))
  {
    hide Trimmed, Expired, ActorReleased, TotalsAt, Renewed, Settle, Lease, RefreshActor, ConsumeInputs, LeaseIndex;
    match call
    case LeaseCall(request, now, verdict, chain) =>
      LeaseLeavesFacts(b, request, now, verdict, chain);
    case RefreshActorCall(facts, now, stale) =>
      RefreshKeepsCredits(b, facts, now, stale);
    case ConsumeInputsCall(guid, inputs, now) =>
      ConsumptionKeepsCredits(b, guid, inputs, now);
    case _ =>
  }

  lemma GrantUpToLeavesFacts(b: Book, r: LeaseRequest, chain: Option<nat>, room: nat, now: nat)
    ensures var after := GrantUpTo(b, r, chain, room, now).0;
            after.actors == b.actors && after.markets == b.markets && after.credits == b.credits
  {
  }

  lemma LeaseLeavesFacts(b: Book, r: LeaseRequest, now: nat, verdict: Blocker, chain: Option<nat>)
    ensures var after := Lease(b, r, now, verdict, chain).0;
            after.actors == b.actors && after.markets == b.markets && after.credits == b.credits
  {
    hide GrantUpTo, TotalsAt, Screen, SpeculationReleased;
    forall base: Book, room: nat, c
      ensures var after := GrantUpTo(base, r, c, room, now).0;
              after.actors == base.actors && after.markets == base.markets && after.credits == base.credits
    {
      GrantUpToLeavesFacts(base, r, c, room, now);
    }
  }

  /** In every reachable state, credits stay within uncovered demand. */
  lemma {:induction false} RunKeepsCredits(calls: seq<Call>)
    ensures CreditsOk(Run(EmptyBook(), calls))
  {
    if calls == [] {
    } else {
      var n := |calls| - 1;
      RunKeepsCredits(calls[..n]);
      hide Step, CreditsOk;
      StepKeepsCredits(Run(EmptyBook(), calls[..n]), calls[n]);
    }
  }

  /** So what an online autonomous actor adds to a gap is its published demand less its credit, and
      never less than the part of the demand its own supply covers. */
  lemma DemandLessCredit(b: Book, guid: uint32, group: Group)
    requires CreditsOk(b) && ConsumptionCounts(b, guid)
    ensures var actor := b.actors[guid];
            var demand := ActorDemand(guid, actor, b.credits, GapKey(actor.market, group));
            && demand + CreditOf(b.credits, guid, group) == DemandSum(actor.demands, group)
            && demand >= Min(DemandSum(actor.demands, group), SupplySum(actor.supplies, group))
  {
  }

  lemma {:induction false} UnaskedSum(inputs: seq<DemandFact>, group: Group)
    requires group !in InputGroups(inputs)
    ensures DemandSum(inputs, group) == 0
  {
    forall d | d in inputs
      ensures d.group != group
    {
      assert d.group in InputGroups(inputs);
    }
    UnnamedDemand(inputs, group);
  }

  /** A credit and what is reported, up to the demand left uncovered and 32 bits. */
  function CreditWanted(b: Book, guid: uint32, inputs: seq<DemandFact>, group: Group): nat
    requires guid in b.actors
  {
    var uncovered := Minus(DemandSum(b.actors[guid].demands, group), SupplySum(b.actors[guid].supplies, group));
    Min(0xFFFF_FFFF, Min(uncovered, CreditOf(b.credits, guid, group) + DemandSum(inputs, group)))
  }

  lemma RaisedEntry(b: Book, guid: uint32, inputs: seq<DemandFact>, group: Group)
    requires guid in b.actors
    ensures var raised := RaisedCredits(b, guid, inputs);
            (if group in raised then raised[group] else 0) == Max(CreditOf(b.credits, guid, group), CreditWanted(b, guid, inputs, group))
  {
    hide DemandSum, SupplySum;
    if group !in InputGroups(inputs) {
      UnaskedSum(inputs, group);
    }
  }

  /** Consumed inputs raise the credit of an online autonomous actor by what is reported, group by group, up
      to the demand its published supply leaves uncovered; a credit never falls, and no other is touched. */
  lemma ConsumptionRaisesCredit(b: Book, guid: uint32, inputs: seq<DemandFact>, now: nat, g: uint32, group: Group)
    ensures var before := CreditOf(b.credits, g, group);
            CreditOf(ConsumeInputs(b, guid, inputs, now).credits, g, group) ==
            if g == guid && g in b.actors && b.actors[g].online && b.actors[g].autonomous
            then Max(before, CreditWanted(b, g, inputs, group)) else before
  {
    hide Expired, RaisedCredits, CreditWanted;
    if guid in b.actors {
      RaisedEntry(b, guid, inputs, group);
    }
  }

  // ----- credits add up

  ghost function CreditTotal(credits: map<Group, uint32>): nat
  {
    if credits.Keys == {} then 0
    else
      var g :| g in credits.Keys;
      credits[g] + CreditTotal(credits - {g})
  }

  lemma {:induction false} CreditTotalWithout(credits: map<Group, uint32>, group: Group)
    requires group in credits
    ensures CreditTotal(credits) == credits[group] + CreditTotal(credits - {group})
    decreases |credits|
  {
    var g :| g in credits.Keys && CreditTotal(credits) == credits[g] + CreditTotal(credits - {g});
    if g != group {
      var rest := credits - {g};
      assert |rest.Keys| < |credits.Keys| by { assert rest.Keys == credits.Keys - {g}; }
      CreditTotalWithout(rest, group);
      CreditTotalWithout(credits - {group}, g);
      assert credits - {g} - {group} == credits - {group} - {g};
    }
  }

  /** Setting one group's credit changes the total by the difference. */
  lemma CreditTotalUpdate(credits: map<Group, uint32>, group: Group, credit: uint32)
    ensures CreditTotal(credits[group := credit]) + (if group in credits then credits[group] else 0) ==
            CreditTotal(credits) + credit
  {
    var updated := credits[group := credit];
    CreditTotalWithout(updated, group);
    assert updated - {group} == credits - {group};
    if group in credits {
      CreditTotalWithout(credits, group);
    } else {
      assert credits - {group} == credits;
    }
  }

  /** What one call credits, before the answer is cut to 32 bits. */
  ghost function Credited(b: Book, guid: uint32, inputs: seq<DemandFact>): int
  {
    if ConsumptionCounts(b, guid)
    then CreditTotal(RaisedCredits(b, guid, inputs)) - CreditTotal(HeldCredits(b, guid)) else 0
  }

  /** Calls that start an actor's credits afresh. */
  predicate DropsCredits(call: Call, guid: uint32)
  {
    match call
    case RefreshActorCall(facts, now, stale) => facts.guid == guid
    case InvalidateActorCall(g, outcome, now) => g == guid
    case _ => false
  }

  /** What a call credits an actor. */
  ghost function CreditedBy(b: Book, guid: uint32, call: Call): int
  {
    if call.ConsumeInputsCall? && call.guid == guid then Credited(b, guid, call.inputs) else 0
  }

  ghost function CreditedByRun(b: Book, guid: uint32, calls: seq<Call>): int
  {
    if calls == [] then 0
    else
      var n := |calls| - 1;
      CreditedByRun(b, guid, calls[..n]) + CreditedBy(Run(b, calls[..n]), guid, calls[n])
  }

  lemma StepCredits(b: Book, guid: uint32, call: Call)
    requires !DropsCredits(call, guid)
    ensures CreditTotal(HeldCredits(Step(b, call), guid)) == CreditTotal(HeldCredits(b, guid)) + CreditedBy(b, guid, call)
  {
    hide CreditTotal, Trimmed, Expired, Bridged, ActorReleased, ClaimsSeenByRefresh, RefreshMatters, RenewOne, Settle, LeaseIndex;
    match call
    case LeaseCall(request, now, verdict, chain) =>
      hide Screen, GrantUpTo;
      LeaseLeavesFacts(b, request, now, verdict, chain);
    case _ =>
  }

  /** Until the actor's facts are refreshed again, the amounts credited over any run of calls sum to
      the credit held. */
  lemma {:induction false} CreditsAddUp(b: Book, guid: uint32, calls: seq<Call>)
    requires guid !in b.credits && forall i | 0 <= i < |calls| :: !DropsCredits(calls[i], guid)
    ensures CreditTotal(HeldCredits(Run(b, calls), guid)) == CreditedByRun(b, guid, calls)
  {
    if calls == [] {
    } else {
      var n := |calls| - 1;
      CreditsAddUp(b, guid, calls[..n]);
      hide CreditTotal, Step, CreditedBy, DropsCredits;
      StepCredits(Run(b, calls[..n]), guid, calls[n]);
    }
  }

  // ----- when lowered demand leaves a gap over-promised

  /** By how much a call lowers the demand of a key. */
  function Lowered(b: Book, guid: uint32, inputs: seq<DemandFact>, k: GapKey): nat
  {
    if ConsumptionCounts(b, guid) && b.actors[guid].market == k.market && k.group in InputGroups(inputs) &&
       Raises(b, guid, inputs, k.group)
    then RaisedCredit(b, guid, inputs, k.group) - CreditOf(b.credits, guid, k.group)
    else 0
  }

  /** Totals that differ in demand alone, by `lowered`. */
  predicate LoweredBy(t: GapTotals, u: GapTotals, lowered: nat)
  {
    u == t.(demand := u.demand) && t.demand == u.demand + lowered
  }

  lemma OneActorLowered(b: Book, after: Book, guid: uint32, inputs: seq<DemandFact>, g: uint32, k: GapKey)
    requires CreditsOk(b) && CreditsOk(after) && ConsumptionCounts(b, guid) && g in b.actors
    requires after.actors == b.actors && after.credits == b.credits[guid := RaisedCredits(b, guid, inputs)]
    ensures LoweredBy(ActorPart(g, b.actors[g], b.credits, k), ActorPart(g, b.actors[g], after.credits, k),
                      if g == guid then Lowered(b, guid, inputs, k) else 0)
  {
    if g == guid && b.actors[g].market == k.market {
      DemandLessCredit(b, g, k.group);
      DemandLessCredit(after, g, k.group);
      hide DemandSum, SupplySum, Uncovered, RaisedCredit, CreditsOk;
      if k.group in InputGroups(inputs) && Raises(b, guid, inputs, k.group) {
        assert CreditOf(after.credits, g, k.group) == RaisedCredit(b, guid, inputs, k.group);
      } else {
        assert CreditOf(after.credits, g, k.group) == CreditOf(b.credits, g, k.group);
      }
    }
  }

  lemma ActorTotalsLast(actors: map<uint32, ActorFacts>, credits: map<uint32, map<Group, uint32>>, guids: seq<uint32>, k: GapKey)
    requires guids != [] && forall g | g in guids :: g in actors
    ensures var n := |guids| - 1;
            ActorTotals(actors, credits, guids, k) ==
            Plus(ActorTotals(actors, credits, guids[..n], k), ActorPart(guids[n], actors[guids[n]], credits, k))
  {
  }

  lemma PlusLowered(t: GapTotals, u: GapTotals, x: nat, t': GapTotals, u': GapTotals, y: nat)
    requires LoweredBy(t, u, x) && LoweredBy(t', u', y)
    ensures LoweredBy(Plus(t, t'), Plus(u, u'), x + y)
  {
  }

  lemma {:induction false} ActorsLowered(b: Book, after: Book, guid: uint32, inputs: seq<DemandFact>, guids: seq<uint32>, k: GapKey)
    requires CreditsOk(b) && CreditsOk(after) && ConsumptionCounts(b, guid)
    requires after.actors == b.actors && after.credits == b.credits[guid := RaisedCredits(b, guid, inputs)]
    requires forall g | g in guids :: g in b.actors
    requires forall i, j | 0 <= i < j < |guids| :: guids[i] < guids[j]
    ensures LoweredBy(ActorTotals(b.actors, b.credits, guids, k), ActorTotals(b.actors, after.credits, guids, k),
                      if guid in guids then Lowered(b, guid, inputs, k) else 0)
  {
    if guids == [] {
    } else {
      hide ActorTotals, ActorPart, Lowered, CreditsOk, RaisedCredits, Plus;
      var n := |guids| - 1;
      var g, rest := guids[n], guids[..n];
      assert guids == rest + [g] && g !in rest;
      OneActorLowered(b, after, guid, inputs, g, k);
      ActorsLowered(b, after, guid, inputs, rest, k);
      ActorTotalsLast(b.actors, b.credits, guids, k);
      ActorTotalsLast(b.actors, after.credits, guids, k);
      var before, now := ActorTotals(b.actors, b.credits, rest, k), ActorTotals(b.actors, after.credits, rest, k);
      var part, lowered := ActorPart(g, b.actors[g], b.credits, k), ActorPart(g, b.actors[g], after.credits, k);
      var byRest := if guid in rest then Lowered(b, guid, inputs, k) else 0;
      var byLast := if g == guid then Lowered(b, guid, inputs, k) else 0;
      assert LoweredBy(part, lowered, byLast);
      PlusLowered(before, now, byRest, part, lowered, byLast);
      assert byRest + byLast == if guid in guids then Lowered(b, guid, inputs, k) else 0;
    }
  }

  lemma TotalsLowered(ticked: Book, after: Book, k: GapKey, lowered: nat)
    requires after == ticked.(credits := after.credits)
    requires var guids := AscendingGuids(ticked.actors.Keys);
             LoweredBy(ActorTotals(ticked.actors, ticked.credits, guids, k), ActorTotals(ticked.actors, after.credits, guids, k), lowered)
    ensures LoweredBy(TotalsAt(ticked, k), TotalsAt(after, k), lowered)
  {
    hide ActorTotals, ClaimTotals, MarketPart;
  }

  /** A record of consumed inputs lowers the demand of each key by what it credits there, and
      changes nothing else about the totals expiry leaves. */
  lemma ConsumptionLowersDemand(b: Book, guid: uint32, inputs: seq<DemandFact>, now: nat, k: GapKey)
    requires CreditsOk(b)
    ensures LoweredBy(TotalsAt(Tick(b, now), k), TotalsAt(ConsumeInputs(b, guid, inputs, now), k), Lowered(b, guid, inputs, k))
  {
    var ticked, after := Tick(b, now), ConsumeInputs(b, guid, inputs, now);
    StepKeepsCredits(b, ConsumeInputsCall(guid, inputs, now));
    hide Expired, TotalsAt;
    if !ConsumptionCounts(b, guid) {
      assert Lowered(b, guid, inputs, k) == 0;
    } else if RaisedCredits(b, guid, inputs) == HeldCredits(b, guid) {
      LoweringShows(b, guid, inputs, k);
    } else {
      var guids := AscendingGuids(b.actors.Keys);
      AscendingGuidsSorted(b.actors.Keys);
      assert guid in guids;
      ActorsLowered(b, after, guid, inputs, guids, k);
      hide Lowered, RaisedCredits, CreditsOk, ActorTotals;
      TotalsLowered(ticked, after, k, Lowered(b, guid, inputs, k));
    }
  }

  lemma RaisingShows(b: Book, guid: uint32, inputs: seq<DemandFact>, group: Group)
    requires guid in b.actors && group in InputGroups(inputs) && Raises(b, guid, inputs, group)
    ensures RaisedCredits(b, guid, inputs) != HeldCredits(b, guid)
  {
    assert group in RaisedCredits(b, guid, inputs);
  }

  lemma LoweringShows(b: Book, guid: uint32, inputs: seq<DemandFact>, k: GapKey)
    ensures Lowered(b, guid, inputs, k) > 0 ==> RaisedCredits(b, guid, inputs) != HeldCredits(b, guid)
  {
    if Lowered(b, guid, inputs, k) > 0 {
      RaisingShows(b, guid, inputs, k.group);
    }
  }

  /** The slack of a gap: demand that neither goods nor promises have taken up. */
  predicate SlackCovers(t: GapTotals, lowered: nat)
  {
    t.claimed == 0 || t.supply + t.claimed + lowered <= t.demand
  }

  /** Recording consumed inputs does not trim claims. It keeps promises within demand exactly when,
      at every gap with promises, the credit it adds fits in the gap's slack. */
  lemma ConsumptionKeepsPromisesIffSlack(b: Book, guid: uint32, inputs: seq<DemandFact>, now: nat)
    requires CreditsOk(b)
    ensures NoOverPromise(ConsumeInputs(b, guid, inputs, now)) <==>
            forall k :: SlackCovers(TotalsAt(Tick(b, now), k), Lowered(b, guid, inputs, k))
  {
    var after := ConsumeInputs(b, guid, inputs, now);
    hide TotalsAt, Lowered, ConsumeInputs, Tick, CreditsOk;
    forall k
      ensures WithinDemand(TotalsAt(after, k)) <==> SlackCovers(TotalsAt(Tick(b, now), k), Lowered(b, guid, inputs, k))
    {
      ConsumptionLowersDemand(b, guid, inputs, now, k);
    }
  }
}
