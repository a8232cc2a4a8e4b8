/** The life of a claim: how one settles, lapses, is forgotten, and how its bridge is spent. */
module Claims {
  import opened Economy
  import opened Gaps

  /** What holds of every claim on the book. */
  predicate ClaimOk(c: Claim)
  {
    && 1 <= c.quantity
    && c.bridged <= c.committed <= c.quantity
    && (c.state.Completed? ==> c.committed == c.quantity)
    && (c.bridged > 0 ==> c.state.Released? && !c.terms.kind.Purchase?)
    && (c.Personal() ==> c.terms.kind.Purchase? && c.terms.priority.Consumer?)
  }

  predicate ClaimsOk(claims: seq<Claim>, nextLeaseId: nat)
  {
    && (forall i | 0 <= i < |claims| :: ClaimOk(claims[i]) && claims[i].terms.leaseId < nextLeaseId)
    && (forall i, j | 0 <= i < j < |claims| :: claims[i].terms.leaseId != claims[j].terms.leaseId)
  }

  /** `d` is the same claim as `c`, at a later moment: progress is kept, promises only shrink, and
      once settled nothing but the bridge changes. */
  predicate Later(c: Claim, d: Claim)
  {
    && d.terms == c.terms
    && c.committed <= d.committed
    && d.quantity <= c.quantity
    && (!c.state.Leased? ==> d == c.(bridged := d.bridged) && d.bridged <= c.bridged)
  }

  predicate Claimwise(before: seq<Claim>, after: seq<Claim>)
  {
    && |before| == |after|
    && forall i | 0 <= i < |before| :: Later(before[i], after[i])
  }

  ghost predicate HasAncestor(before: seq<Claim>, d: Claim)
  {
    exists c :: c in before && Later(c, d)
  }

  /** Every claim of `after` is a claim of `before`, later. */
  ghost predicate Descends(before: seq<Claim>, after: seq<Claim>)
  {
    forall d | d in after :: HasAncestor(before, d)
  }

  lemma LaterShrinks(c: Claim, d: Claim, k: GapKey)
    requires ClaimOk(c) && ClaimOk(d) && Later(c, d)
    ensures Shrinks(ClaimPart(c, k), ClaimPart(d, k))
  {
  }

  lemma ClaimwiseTotals(before: seq<Claim>, after: seq<Claim>, k: GapKey)
    requires Claimwise(before, after)
    requires forall i | 0 <= i < |before| :: ClaimOk(before[i]) && ClaimOk(after[i])
    ensures Shrinks(ClaimTotals(before, k), ClaimTotals(after, k))
  {
    forall i | 0 <= i < |before|
      ensures Shrinks(ClaimPart(before[i], k), ClaimPart(after[i], k))
    {
      LaterShrinks(before[i], after[i], k);
    }
    PartwiseShrink(ClaimParts(before, k), ClaimParts(after, k));
  }

  lemma ClaimwiseOk(before: seq<Claim>, after: seq<Claim>, nextLeaseId: nat)
    requires ClaimsOk(before, nextLeaseId)
    requires Claimwise(before, after)
    requires forall i | 0 <= i < |after| :: ClaimOk(after[i])
    ensures ClaimsOk(after, nextLeaseId)
    ensures Descends(before, after)
  {
    forall i | 0 <= i < |after|
      ensures after[i].terms.leaseId == before[i].terms.leaseId && HasAncestor(before, after[i])
    {
      assert before[i] in before && Later(before[i], after[i]);
    }
  }

  lemma DescendsTransitive(a: seq<Claim>, b: seq<Claim>, c: seq<Claim>)
    requires Descends(a, b) && Descends(b, c)
    ensures Descends(a, c)
  {
    forall z | z in c
      ensures HasAncestor(a, z)
    {
      var y :| y in b && Later(y, z);
      assert HasAncestor(a, y);
      var x :| x in a && Later(x, y);
      assert Later(x, z);
    }
  }

  // ----- settling

  /** An outcome applied to a claim. */
  function Settle(c: Claim, outcome: Outcome, committed: uint32, now: nat): Claim
  {
    var progress := Max(c.committed, Min(committed, c.quantity));
    var settles := c.state.Leased? && !outcome.Committed?;
    var bridges := !c.terms.kind.Purchase? && !outcome.Completed? && !outcome.InventoryReceived?;
    c.(committed := if outcome.Completed? then c.quantity else progress,
       lastOutcome := outcome,
       settledAt := if settles then now else c.settledAt,
       bridged := if !settles then c.bridged else if bridges then progress else 0,
       state := match outcome
                case Committed => c.state
                case Completed => ClaimState.Completed
                case _ => ClaimState.Released)
  }

  lemma SettleOk(c: Claim, outcome: Outcome, committed: uint32, now: nat)
    requires ClaimOk(c) && c.state.Leased?
    ensures ClaimOk(Settle(c, outcome, committed, now))
    ensures Later(c, Settle(c, outcome, committed, now))
    ensures Settle(c, outcome, committed, now).state.Leased? <==> outcome.Committed?
  {
  }

  // ----- expiry

  predicate Overdue(c: Claim, now: nat)
  {
    c.state.Leased? && c.expiresAt != 0 && c.expiresAt <= now
  }

  function Lapse(c: Claim, now: nat): Claim
  {
    if Overdue(c, now) then Settle(c, NeedChanged, c.committed, now) else c
  }

  predicate Forgotten(c: Claim, now: nat)
  {
    !c.state.Leased? && c.settledAt != 0 && now >= c.settledAt + CLAIM_RETENTION_SECONDS
  }

  function Lapsed(claims: seq<Claim>, now: nat): seq<Claim>
  {
    seq(|claims|, i requires 0 <= i < |claims| => Lapse(claims[i], now))
  }

  function Kept(claims: seq<Claim>, now: nat): seq<Claim>
  {
    if claims == [] then []
    else
      var last := claims[|claims| - 1];
      Kept(claims[..|claims| - 1], now) + if Forgotten(last, now) then [] else [last]
  }

  function Expired(claims: seq<Claim>, now: nat): seq<Claim>
  {
    Kept(Lapsed(claims, now), now)
  }

  lemma KeptLast(claims: seq<Claim>, now: nat)
    requires claims != []
    ensures var n := |claims| - 1;
            Kept(claims, now) == Kept(claims[..n], now) ||
            Kept(claims, now) == Kept(claims[..n], now) + [claims[n]]
  {
  }

  lemma {:induction false} KeptElements(claims: seq<Claim>, now: nat)
    ensures forall c :: c in Kept(claims, now) <==> c in claims && !Forgotten(c, now)
  {
    if claims != [] {
      var n := |claims| - 1;
      KeptElements(claims[..n], now);
      assert forall c :: c in claims <==> c in claims[..n] || c == claims[n];
    }
  }

  lemma {:induction false} KeptSame(claims: seq<Claim>, now: nat)
    ensures |Kept(claims, now)| <= |claims|
    ensures |Kept(claims, now)| == |claims| ==> Kept(claims, now) == claims
  {
    if claims == [] {
    } else {
      KeptSame(claims[..|claims| - 1], now);
      assert claims == claims[..|claims| - 1] + [claims[|claims| - 1]];
    }
  }

  lemma {:induction false} KeptOk(claims: seq<Claim>, now: nat, nextLeaseId: nat)
    requires ClaimsOk(claims, nextLeaseId)
    ensures ClaimsOk(Kept(claims, now), nextLeaseId)
  {
    if claims != [] {
      var n := |claims| - 1;
      KeptOk(claims[..n], now, nextLeaseId);
      KeptElements(claims[..n], now);
      KeptLast(claims, now);
      hide Kept;
      var rest := Kept(claims[..n], now);
      forall i | 0 <= i < |rest|
        ensures rest[i].terms.leaseId != claims[n].terms.leaseId
      {
        assert rest[i] in rest;
      }
    }
  }

  lemma ShrinksWithoutPart(before: GapTotals, after: GapTotals, part: GapTotals)
    requires Shrinks(before, after) && part.demand == 0 && part.auction == 0
    ensures Shrinks(Plus(before, part), after)
    ensures Shrinks(Plus(before, part), Plus(after, part))
  {
  }

  lemma ClaimPartHasNoFacts(c: Claim, k: GapKey)
    ensures ClaimPart(c, k).demand == 0 && ClaimPart(c, k).auction == 0
  {
  }

  lemma {:induction false} KeptTotals(claims: seq<Claim>, now: nat, k: GapKey)
    ensures Shrinks(ClaimTotals(claims, k), ClaimTotals(Kept(claims, now), k))
  {
    if claims == [] {
    } else {
      var n := |claims| - 1;
      var rest, kept := Kept(claims[..n], now), Kept(claims, now);
      KeptTotals(claims[..n], now, k);
      ClaimTotalsLast(claims, k);
      ClaimPartHasNoFacts(claims[n], k);
      ShrinksWithoutPart(ClaimTotals(claims[..n], k), ClaimTotals(rest, k), ClaimPart(claims[n], k));
      KeptLast(claims, now);
      if kept == rest {
      } else {
        assert kept == rest + [claims[n]];
        ClaimTotalsAppend(rest, claims[n], k);
      }
    }
  }

  lemma LapsedOk(claims: seq<Claim>, now: nat)
    requires forall i | 0 <= i < |claims| :: ClaimOk(claims[i])
    ensures Claimwise(claims, Lapsed(claims, now))
    ensures forall i | 0 <= i < |claims| :: ClaimOk(Lapsed(claims, now)[i])
  {
    forall i | 0 <= i < |claims|
      ensures ClaimOk(Lapse(claims[i], now)) && Later(claims[i], Lapse(claims[i], now))
    {
      if Overdue(claims[i], now) {
        SettleOk(claims[i], NeedChanged, claims[i].committed, now);
      }
    }
  }

  lemma ExpiredOk(claims: seq<Claim>, now: nat, nextLeaseId: nat)
    requires ClaimsOk(claims, nextLeaseId)
    ensures ClaimsOk(Expired(claims, now), nextLeaseId)
    ensures Descends(claims, Expired(claims, now))
  {
    LapsedOk(claims, now);
    var lapsed := Lapsed(claims, now);
    ClaimwiseOk(claims, lapsed, nextLeaseId);
    KeptOk(lapsed, now, nextLeaseId);
    KeptElements(lapsed, now);
  }

  lemma ExpiredTotals(claims: seq<Claim>, now: nat, k: GapKey)
    requires forall i | 0 <= i < |claims| :: ClaimOk(claims[i])
    ensures Shrinks(ClaimTotals(claims, k), ClaimTotals(Expired(claims, now), k))
  {
    LapsedOk(claims, now);
    ClaimwiseTotals(claims, Lapsed(claims, now), k);
    KeptTotals(Lapsed(claims, now), now, k);
  }

  // ----- releasing all leased claims that answer a description

  function ReleaseOne(c: Claim, selected: bool, outcome: Outcome, now: nat): Claim
  {
    if selected && c.state.Leased? then Settle(c, outcome, c.committed, now) else c
  }

  function ActorReleased(claims: seq<Claim>, actor: uint32, outcome: Outcome, now: nat): seq<Claim>
  {
    seq(|claims|, i requires 0 <= i < |claims| => ReleaseOne(claims[i], claims[i].terms.actor == actor, outcome, now))
  }

  function SpeculationReleased(claims: seq<Claim>, k: GapKey, now: nat): seq<Claim>
  {
    seq(|claims|, i requires 0 <= i < |claims| =>
      ReleaseOne(claims[i], claims[i].Key() == k && claims[i].terms.priority.Speculation?, NeedChanged, now))
  }

  lemma ActorReleasedOk(claims: seq<Claim>, actor: uint32, outcome: Outcome, now: nat)
    requires forall i | 0 <= i < |claims| :: ClaimOk(claims[i])
    ensures Claimwise(claims, ActorReleased(claims, actor, outcome, now))
    ensures forall i | 0 <= i < |claims| :: ClaimOk(ActorReleased(claims, actor, outcome, now)[i])
  {
    forall i | 0 <= i < |claims| && claims[i].state.Leased?
      ensures ClaimOk(Settle(claims[i], outcome, claims[i].committed, now))
    {
      SettleOk(claims[i], outcome, claims[i].committed, now);
    }
  }

  lemma SpeculationReleasedOk(claims: seq<Claim>, k: GapKey, now: nat)
    requires forall i | 0 <= i < |claims| :: ClaimOk(claims[i])
    ensures Claimwise(claims, SpeculationReleased(claims, k, now))
    ensures forall i | 0 <= i < |claims| :: ClaimOk(SpeculationReleased(claims, k, now)[i])
  {
    forall i | 0 <= i < |claims| && claims[i].state.Leased?
      ensures ClaimOk(Settle(claims[i], NeedChanged, claims[i].committed, now))
    {
      SettleOk(claims[i], NeedChanged, claims[i].committed, now);
    }
  }

  lemma NoSpeculationLeft(claims: seq<Claim>, k: GapKey, now: nat)
    ensures ClaimTotals(SpeculationReleased(claims, k, now), k).speculation == 0
  {
    ZeroParts(ClaimParts(SpeculationReleased(claims, k, now), k));
  }

  // ----- spending bridges against what an actor reports to hold

  function Reported(supplies: seq<SupplyFact>, group: Group): nat
  {
    if supplies == [] then 0
    else
      var last := supplies[|supplies| - 1];
      Reported(supplies[..|supplies| - 1], group) +
      if last.group == group && (last.source.Inventory? || last.source.Mail?) then last.quantity else 0
  }

  /** The bridge an actor's released claim holds in a market for a group. */
  function BridgeOf(c: Claim, actor: uint32, market: uint32, group: Group): nat
  {
    if c.terms.actor == actor && c.terms.market == market && c.terms.group == group && c.state.Released? then c.bridged else 0
  }

  function BridgeTotal(claims: seq<Claim>, actor: uint32, market: uint32, group: Group): nat
  {
    if claims == [] then 0
    else
      BridgeTotal(claims[..|claims| - 1], actor, market, group) +
      BridgeOf(claims[|claims| - 1], actor, market, group)
  }

  lemma BridgeTotalNext(claims: seq<Claim>, i: nat, actor: uint32, market: uint32, group: Group)
    requires i < |claims|
    ensures BridgeTotal(claims[..i + 1], actor, market, group) ==
            BridgeTotal(claims[..i], actor, market, group) + BridgeOf(claims[i], actor, market, group)
  {
    assert claims[..i + 1][..i] == claims[..i];
  }

  /** The part of claim i's bridge that the report covers once older bridges have had their share. */
  function BridgeSpent(claims: seq<Claim>, i: nat, facts: ActorFacts): nat
    requires i < |claims|
  {
    var c := claims[i];
    Min(BridgeOf(c, facts.guid, facts.market, c.terms.group),
        Minus(Reported(facts.supplies, c.terms.group), BridgeTotal(claims[..i], facts.guid, facts.market, c.terms.group)))
  }

  function Bridged(claims: seq<Claim>, facts: ActorFacts): seq<Claim>
  {
    seq(|claims|, i requires 0 <= i < |claims| =>
      claims[i].(bridged := Minus(claims[i].bridged, BridgeSpent(claims, i, facts))))
  }

  lemma BridgedOk(claims: seq<Claim>, facts: ActorFacts)
    requires forall i | 0 <= i < |claims| :: ClaimOk(claims[i])
    ensures Claimwise(claims, Bridged(claims, facts))
    ensures forall i | 0 <= i < |claims| :: ClaimOk(Bridged(claims, facts)[i])
  {
  }

  /** Every reported unit is spent on bridges exactly once, until the report or the bridges run out. */
  lemma {:induction false} BridgesSpendReportOnce(claims: seq<Claim>, facts: ActorFacts, group: Group)
    ensures BridgeTotal(Bridged(claims, facts), facts.guid, facts.market, group) ==
            Minus(BridgeTotal(claims, facts.guid, facts.market, group), Reported(facts.supplies, group))
  {
    if claims != [] {
      var n := |claims| - 1;
      BridgesSpendReportOnce(claims[..n], facts, group);
      assert Bridged(claims, facts)[..n] == Bridged(claims[..n], facts) by {
        forall i | 0 <= i < n
          ensures Bridged(claims, facts)[i] == Bridged(claims[..n], facts)[i]
        {
          assert claims[..n][..i] == claims[..i];
        }
      }
    }
  }

  /** The bridges of other actors, other markets and unreported goods are left alone. */
  lemma BridgesOfOthersStay(claims: seq<Claim>, facts: ActorFacts, i: nat)
    requires i < |claims|
    requires claims[i].terms.actor != facts.guid || claims[i].terms.market != facts.market ||
             Reported(facts.supplies, claims[i].terms.group) == 0
    ensures Bridged(claims, facts)[i] == claims[i]
  {
  }
}
