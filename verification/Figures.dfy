/**
 The figures of a gap told one fact at a time: what each actor, each market and each claim adds to them,
 in whatever order they came to be known.
 */
module Figures {
  import opened Economy
  import opened Order
  import opened Gaps
  import opened Claims
  import opened Trim

  lemma PlusThrough(t: GapTotals, part: GapTotals, u: GapTotals)
    ensures Plus(Plus(t, part), u) == Plus(Plus(t, u), part)
  {
  }

  // ----- actors

  /** An actor's part of a sum, wherever it comes in it. */
  lemma {:induction false} ActorInside(actors: map<uint32, ActorFacts>, credits: map<uint32, map<Group, uint32>>,
                                       before: seq<uint32>, g: uint32, after: seq<uint32>, k: GapKey)
    requires (forall x | x in before + after :: x in actors) && g in actors
    ensures forall x | x in before + [g] + after :: x in actors
    ensures ActorTotals(actors, credits, before + [g] + after, k) ==
            Plus(ActorTotals(actors, credits, before + after, k), ActorPart(g, actors[g], credits, k))
    decreases |after|
  {
    hide Plus, ActorPart;
    if after == [] {
      assert before + [g] + after == before + [g] && before + after == before;
      assert (before + [g])[..|before|] == before;
    } else {
      var n := |after| - 1;
      ActorInside(actors, credits, before, g, after[..n], k);
      assert (before + [g] + after)[..|before| + 1 + n] == before + [g] + after[..n];
      assert (before + after)[..|before| + n] == before + after[..n];
      PlusSwaps(ActorTotals(actors, credits, before + after[..n], k), ActorPart(g, actors[g], credits, k),
                ActorPart(after[n], actors[after[n]], credits, k));
    }
  }

  /** Where a new guid comes among those known. */
  lemma {:induction false} GuidComesIn(guids: set<uint32>, g: uint32) returns (before: seq<uint32>, after: seq<uint32>)
    requires g !in guids
    ensures AscendingGuids(guids) == before + after && AscendingGuids(guids + {g}) == before + [g] + after
  {
    hide AscendingGuids;
    var all := guids + {g};
    FirstGuidExists(all);
    var first :| FirstGuid(first, all);
    AscendingGuidsStartsWith(first, all);
    if first == g {
      before, after := [], AscendingGuids(guids);
      assert all - {g} == guids;
    } else {
      assert FirstGuid(first, guids);
      AscendingGuidsStartsWith(first, guids);
      before, after := GuidComesIn(guids - {first}, g);
      assert all - {first} == guids - {first} + {g};
      before := [first] + before;
    }
  }

  lemma {:induction false} SameActors(actors: map<uint32, ActorFacts>, more: map<uint32, ActorFacts>,
                                      credits: map<uint32, map<Group, uint32>>, guids: seq<uint32>, k: GapKey)
    requires forall g | g in guids :: g in actors && g in more && more[g] == actors[g]
    ensures ActorTotals(more, credits, guids, k) == ActorTotals(actors, credits, guids, k)
  {
    if guids != [] {
      SameActors(actors, more, credits, guids[..|guids| - 1], k);
      hide ActorPart, Plus;
    }
  }

  /** What an actor adds to a gap of its market: what it has, whoever it is; and what it wants less what it has
      used up already, if it is online and works for itself. */
  function ActorAdds(b: Book, facts: ActorFacts, k: GapKey): GapTotals
  {
    if facts.market != k.market then Zero()
    else
      var supply := SupplySum(facts.supplies, k.group);
      var demand :=
        if facts.online && facts.autonomous then Minus(DemandSum(facts.demands, k.group), CreditOf(b.credits, facts.guid, k.group)) else 0;
      GapTotals(demand, supply, 0, supply, 0, 0, 0)
  }

  lemma PartIsAdded(b: Book, facts: ActorFacts, k: GapKey)
    ensures ActorPart(facts.guid, facts, b.credits, k) == ActorAdds(b, facts, k)
  {
  }

  lemma OneMoreActor(b: Book, facts: ActorFacts, k: GapKey)
    requires facts.guid !in b.actors
    ensures var more := b.actors[facts.guid := facts];
            ActorTotals(more, b.credits, AscendingGuids(more.Keys), k) ==
            Plus(ActorTotals(b.actors, b.credits, AscendingGuids(b.actors.Keys), k), ActorAdds(b, facts, k))
  {
    hide AscendingGuids, Plus, ActorTotals, ActorAdds, ActorPart;
    var g, more := facts.guid, b.actors[facts.guid := facts];
    var before, after := GuidComesIn(b.actors.Keys, g);
    assert more.Keys == b.actors.Keys + {g};
    AllKnown(b.actors, before + after);
    SameActors(b.actors, more, b.credits, before + after, k);
    ActorInside(more, b.credits, before, g, after, k);
    PartIsAdded(b, facts, k);
  }

  lemma KnownActorAdds(b: Book, facts: ActorFacts, k: GapKey)
    requires facts.guid !in b.actors
    ensures TotalsAt(b.(actors := b.actors[facts.guid := facts]), k) == Plus(TotalsAt(b, k), ActorAdds(b, facts, k))
  {
    hide AscendingGuids, Plus, ActorTotals, ActorAdds, ClaimTotals, MarketPart;
    OneMoreActor(b, facts, k);
    var actors := ActorTotals(b.actors, b.credits, AscendingGuids(b.actors.Keys), k);
    PlusThrough(actors, ActorAdds(b, facts, k), MarketPart(b.markets, k));
    PlusThrough(Plus(actors, MarketPart(b.markets, k)), ActorAdds(b, facts, k), ClaimTotals(b.claims, k));
  }

  lemma AllKnown(actors: map<uint32, ActorFacts>, guids: seq<uint32>)
    requires guids == AscendingGuids(actors.Keys)
    ensures forall g | g in guids :: g in actors
  {
  }

  // ----- markets and claims

  /** What a market adds to its gaps: what is at auction there. */
  lemma KnownMarketAdds(b: Book, facts: MarketFacts, k: GapKey)
    requires facts.market !in b.markets
    ensures var supply := if facts.market == k.market then SupplySum(facts.supplies, k.group) else 0;
            TotalsAt(b.(markets := b.markets[facts.market := facts]), k) == Plus(TotalsAt(b, k), GapTotals(0, supply, 0, 0, supply, 0, 0))
  {
    hide ActorTotals, ClaimTotals, AscendingGuids, SupplySum;
  }

  /** What a claim adds to its gap. Work that goes on adds its quantity, what is made as supply and the rest as a
      promise; work given up, what it made and nobody has seen. A purchase that goes on adds its quantity to those
      that are needed or to those on speculation. Nothing else counts, and nothing personal. */
  function ClaimAdds(c: Claim, k: GapKey): GapTotals
  {
    if c.terms.personalEquipment || c.terms.personalSustenance || c.terms.market != k.market || c.terms.group != k.group then Zero()
    else
      match (c.state, c.terms.kind)
      case (Leased, Purchase) =>
        if c.terms.priority.Speculation? then GapTotals(0, 0, 0, 0, 0, 0, c.quantity) else GapTotals(0, 0, 0, 0, 0, c.quantity, 0)
      case (Leased, _) => GapTotals(0, c.committed, Minus(c.quantity, c.committed), c.quantity, 0, 0, 0)
      case (Released, Purchase) => Zero()
      case (Released, _) => GapTotals(0, c.bridged, 0, c.bridged, 0, 0, 0)
      case (Completed, _) => Zero()
  }

  lemma ClaimPartIsAdded(c: Claim, k: GapKey)
    ensures ClaimPart(c, k) == ClaimAdds(c, k)
  {
  }

  lemma PlusRegroups(a: GapTotals, b: GapTotals, c: GapTotals)
    ensures Plus(a, Plus(b, c)) == Plus(Plus(a, b), c)
  {
  }

  lemma KnownClaimAdds(b: Book, c: Claim, k: GapKey)
    ensures TotalsAt(b.(claims := b.claims + [c]), k) == Plus(TotalsAt(b, k), ClaimAdds(c, k))
  {
    hide ClaimTotals, ClaimPart, ClaimAdds, Plus, ActorTotals, MarketPart, AscendingGuids;
    ClaimTotalsAppend(b.claims, c, k);
    ClaimPartIsAdded(c, k);
    PlusRegroups(FactTotals(b, k), ClaimTotals(b.claims, k), ClaimPart(c, k));
  }

  /** Nothing known, nothing to show. */
  lemma NothingAddsNothing(k: GapKey)
    ensures TotalsAt(EmptyBook(), k) == Zero()
  {
    UntouchedIsZero(EmptyBook(), k);
    hide TotalsAt;
  }

  // ----- consumers

  lemma {:induction false} ConsumersAreAmong(actors: map<uint32, ActorFacts>, credits: map<uint32, map<Group, uint32>>,
                                             guids: seq<uint32>, k: GapKey)
    requires forall g | g in guids :: g in actors
    ensures forall g :: g in Consumers(actors, credits, guids, k) <==> g in guids && ActorDemand(g, actors[g], credits, k) > 0
  {
    if guids == [] {
    } else {
      hide ActorDemand;
      var n := |guids| - 1;
      ConsumersAreAmong(actors, credits, guids[..n], k);
      assert guids == guids[..n] + [guids[n]];
    }
  }

  lemma ConsumersLast(actors: map<uint32, ActorFacts>, credits: map<uint32, map<Group, uint32>>, guids: seq<uint32>, k: GapKey)
    requires guids != [] && forall g | g in guids :: g in actors
    ensures var n := |guids| - 1;
            var rest := Consumers(actors, credits, guids[..n], k);
            Consumers(actors, credits, guids, k) == rest || Consumers(actors, credits, guids, k) == rest + [guids[n]]
  {
    hide ActorDemand;
  }

  predicate Climbs(guids: seq<uint32>)
  {
    forall i, j | 0 <= i < j < |guids| :: guids[i] < guids[j]
  }

  lemma {:induction false} ConsumersClimb(actors: map<uint32, ActorFacts>, credits: map<uint32, map<Group, uint32>>,
                                          guids: seq<uint32>, k: GapKey)
    requires (forall g | g in guids :: g in actors) && Climbs(guids)
    ensures Climbs(Consumers(actors, credits, guids, k))
  {
    if guids == [] {
    } else {
      var n := |guids| - 1;
      ConsumersClimb(actors, credits, guids[..n], k);
      ConsumersAreAmong(actors, credits, guids[..n], k);
      ConsumersLast(actors, credits, guids, k);
      hide Consumers, ActorDemand;
      var rest := Consumers(actors, credits, guids[..n], k);
      assert forall i | 0 <= i < |rest| :: rest[i] in rest;
    }
  }

  /** The consumers of a gap are the online autonomous actors of its market that want more than they have already
      used up, in the order of their guids. */
  lemma ConsumersAre(b: Book, k: GapKey)
    ensures forall g :: g in ConsumersOf(b, k) <==>
              && g in b.actors && b.actors[g].online && b.actors[g].autonomous && b.actors[g].market == k.market
              && DemandSum(b.actors[g].demands, k.group) > CreditOf(b.credits, g, k.group)
    ensures Climbs(ConsumersOf(b, k))
  {
    hide AscendingGuids, Consumers, DemandSum;
    AscendingGuidsSorted(b.actors.Keys);
    ConsumersAreAmong(b.actors, b.credits, AscendingGuids(b.actors.Keys), k);
    ConsumersClimb(b.actors, b.credits, AscendingGuids(b.actors.Keys), k);
  }
}
