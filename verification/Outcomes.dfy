/**
 What settles claims, told in quantities: goods already made keep counting until they are seen or
 forgotten, promises that will not be kept stop counting at once.
 */
module Outcomes {
  import opened Economy
  import opened Order
  import opened Gaps
  import opened Claims
  import opened Trim
  import opened Steps
  import opened Progress
  import opened Safety
  import Chains

  // ----- one claim

  /** The outcomes that end a claim without its goods having been handed over. */
  predicate Undelivered(outcome: Outcome)
  {
    || outcome.FailedTravel? || outcome.FailedPurchase? || outcome.CapabilityLost? || outcome.NeedChanged?
    || outcome.LoggedOut? || outcome.Disabled?
  }

  /** What a report about shared work does to the totals of its gap. Goods committed by then stay supply,
      unless they are reported as delivered; the rest stays promised only while the work goes on. */
  predicate Recounted(c: Claim, outcome: Outcome, committed: uint32, before: GapTotals, after: GapTotals)
  {
    var progress: nat := Max(c.committed, Min(committed, c.quantity));
    var made := if outcome.Committed? || Undelivered(outcome) then progress else 0;
    var promised: int := if outcome.Committed? then c.quantity - progress else 0;
    && after.supply + c.committed == before.supply + made
    && after.claimed + c.quantity == before.claimed + c.committed + promised
    && after.nonAuction + c.quantity == before.nonAuction + made + promised
    && after == before.(supply := after.supply, claimed := after.claimed, nonAuction := after.nonAuction)
  }

  lemma WorkPart(c: Claim, k: GapKey, outcome: Outcome, committed: uint32, now: nat)
    requires ClaimOk(c) && UnderWay(c, k)
    ensures Recounted(c, outcome, committed, ClaimPart(c, k), ClaimPart(Settle(c, outcome, committed, now), k))
  {
  }

  lemma PlusRecounts(rest: GapTotals, c: Claim, outcome: Outcome, committed: uint32, part: GapTotals, settled: GapTotals,
                     before: GapTotals, after: GapTotals)
    requires Recounted(c, outcome, committed, part, settled) && Plus(after, part) == Plus(before, settled)
    ensures Recounted(c, outcome, committed, Plus(rest, before), Plus(rest, after))
  {
  }

  lemma ReportRecounts(b: Book, after: Book, i: nat, outcome: Outcome, committed: uint32, now: nat)
    requires i < |b.claims| && ClaimOk(b.claims[i]) && UnderWay(b.claims[i], b.claims[i].Key())
    requires after == b.(claims := b.claims[i := Settle(b.claims[i], outcome, committed, now)])
    ensures var c := b.claims[i]; Recounted(c, outcome, committed, TotalsAt(b, c.Key()), TotalsAt(after, c.Key()))
  {
    hide ClaimTotals, FactTotals, ClaimPart, Settle, Recounted, Plus, ClaimOk;
    var c, k := b.claims[i], b.claims[i].Key();
    WorkPart(c, k, outcome, committed, now);
    ClaimTotalsUpdate(b.claims, i, after.claims[i], k);
    SameFactTotals(b, after, k);
    PlusRecounts(FactTotals(b, k), c, outcome, committed, ClaimPart(c, k), ClaimPart(after.claims[i], k),
                 ClaimTotals(b.claims, k), ClaimTotals(after.claims, k));
  }

  lemma LeaseIndexIs(claims: seq<Claim>, nextLeaseId: nat, i: nat)
    requires ClaimsOk(claims, nextLeaseId) && i < |claims|
    ensures LeaseIndex(claims, claims[i].terms.leaseId) == i
  {
    hide ClaimOk;
    if LeaseIndex(claims, claims[i].terms.leaseId) < i {
      assert false;
    }
  }

  /** A reported outcome moves the totals of the claim's gap by what was made and what was promised. */
  lemma OutcomeRecounts(b: Book, i: nat, outcome: Outcome, committed: uint32, now: nat)
    requires ClaimsOk(b.claims, b.nextLeaseId) && i < |Tick(b, now).claims|
    requires UnderWay(Tick(b, now).claims[i], Tick(b, now).claims[i].Key())
    ensures var c := Tick(b, now).claims[i];
            var after := RecordOutcome(b, c.terms.leaseId, outcome, committed, now);
            Recounted(c, outcome, committed, TotalsAt(Tick(b, now), c.Key()), TotalsAt(after, c.Key()))
  {
    TickForward(b, now);
    var ticked := Tick(b, now);
    LeaseIndexIs(ticked.claims, b.nextLeaseId, i);
    hide Tick, Settle, Recounted, TotalsAt, Descends;
    ReportRecounts(ticked, RecordOutcome(b, ticked.claims[i].terms.leaseId, outcome, committed, now), i, outcome, committed, now);
  }

  /** A chain hears of progress as a commitment, of goods handed over as a delivery, and of everything else as a
      release; failed is what the actor could not do, released what nobody wants of it any more. */
  lemma ReportsAreTold(outcome: Outcome)
    ensures Chains.StageOf(outcome).Commit? <==> outcome.Committed?
    ensures Chains.StageOf(outcome).Deliver? <==> outcome.Completed? || outcome.InventoryReceived?
    ensures Chains.StageOf(outcome).Release? <==> Undelivered(outcome)
    ensures Chains.ChainOutcomeOf(outcome).Progress? <==> !Undelivered(outcome)
    ensures Chains.ChainOutcomeOf(outcome).Failed? <==> outcome in {FailedTravel, FailedPurchase, CapabilityLost}
    ensures Chains.ChainOutcomeOf(outcome).Released? <==> outcome in {NeedChanged, LoggedOut, Disabled}
  {
  }

  // ----- time

  /** What becomes of a lease that runs out: it is released, and what it committed to make is bridged. */
  predicate LapsesInto(c: Claim, d: Claim, now: nat)
  {
    && c.state.Leased? && c.expiresAt != 0 && c.expiresAt <= now
    && d == c.(state := Released, lastOutcome := NeedChanged, settledAt := now,
               bridged := if c.terms.kind.Purchase? then 0 else c.committed)
  }

  /** The claims after expiry: leases with time left, the overdue ones released, and settled claims for 300
      seconds. */
  lemma ExpiryTold(b: Book, now: nat)
    ensures forall d :: d in Tick(b, now).claims <==>
              || (d in b.claims && d.state.Leased? && (d.expiresAt == 0 || d.expiresAt > now))
              || (d in b.claims && !d.state.Leased? && (d.settledAt == 0 || now < d.settledAt + 300))
              || exists c | c in b.claims :: LapsesInto(c, d, now)
  {
    KeptElements(Lapsed(b.claims, now), now);
    var lapsed := Lapsed(b.claims, now);
    hide Kept;
    forall d
      ensures d in lapsed <==> (d in b.claims && !Overdue(d, now)) || exists c | c in b.claims :: LapsesInto(c, d, now)
    {
      if d in lapsed {
        var i :| 0 <= i < |lapsed| && lapsed[i] == d;
        assert lapsed[i] == Lapse(b.claims[i], now) && b.claims[i] in b.claims;
      }
      if d in b.claims && !Overdue(d, now) {
        var i :| 0 <= i < |b.claims| && b.claims[i] == d;
        assert lapsed[i] == d;
      }
      if c :| c in b.claims && LapsesInto(c, d, now) {
        var i :| 0 <= i < |b.claims| && b.claims[i] == c;
        assert lapsed[i] == d;
      }
    }
  }

  /** What a report of output makes of a production claim: what is produced is committed, up to what was asked
      for, and once all of it is, the claim is completed and owes nothing more. */
  predicate ProducedTo(c: Claim, d: Claim, produced: uint32, now: nat)
  {
    var total := c.committed + produced;
    if total < c.quantity then d == c.(committed := total, lastOutcome := Committed)
    else d == c.(committed := c.quantity, lastOutcome := Outcome.Completed, state := ClaimState.Completed, settledAt := now, bridged := 0)
  }

  lemma OutputIndex(b: Book, i: nat, produced: uint32, now: nat)
    requires ClaimsOk(b.claims, b.nextLeaseId) && i < |Tick(b, now).claims| && produced > 0
    requires Tick(b, now).claims[i].terms.kind.Production? && Tick(b, now).claims[i].state.Leased?
    ensures var ticked := Tick(b, now);
            var c := ticked.claims[i];
            var total := ProducedTotal(c, produced);
            RecordOutput(b, c.terms.leaseId, produced, now) ==
            ticked.(claims := ticked.claims[i := Settle(c, if total >= c.quantity then Outcome.Completed else Committed, total, now)])
  {
    TickForward(b, now);
    LeaseIndexIs(Tick(b, now).claims, b.nextLeaseId, i);
    hide Tick, Settle, ProducedTotal, ClaimsOk, Descends;
  }

  lemma OutputPart(c: Claim, produced: uint32, now: nat)
    requires ClaimOk(c) && c.state.Leased?
    ensures var total := ProducedTotal(c, produced);
            && total == Min(c.quantity, c.committed + produced)
            && ProducedTo(c, Settle(c, if total >= c.quantity then Outcome.Completed else Committed, total, now), produced, now)
  {
  }

  /** Output that is reported changes its own claim, and moves what was made from promised to supplied until the
      claim is complete; from then on its goods are for the actor's own facts to show. */
  lemma OutputRecounts(b: Book, i: nat, produced: uint32, now: nat)
    requires ClaimsOk(b.claims, b.nextLeaseId) && i < |Tick(b, now).claims| && produced > 0
    requires Tick(b, now).claims[i].terms.kind.Production? && Tick(b, now).claims[i].state.Leased?
    ensures var ticked := Tick(b, now);
            var c := ticked.claims[i];
            var after := RecordOutput(b, c.terms.leaseId, produced, now);
            && |after.claims| == |ticked.claims| && after.claims == ticked.claims[i := after.claims[i]]
            && ProducedTo(c, after.claims[i], produced, now)
            && Recounted(c, if c.committed + produced < c.quantity then Committed else Outcome.Completed,
                         Min(c.quantity, c.committed + produced), TotalsAt(ticked, c.Key()), TotalsAt(after, c.Key()))
  {
    TickForward(b, now);
    OutputIndex(b, i, produced, now);
    var ticked := Tick(b, now);
    var c := ticked.claims[i];
    var total := ProducedTotal(c, produced);
    OutputPart(c, produced, now);
    hide Tick, Settle, ProducedTotal, Recounted, TotalsAt, RecordOutput, Descends;
    ReportRecounts(ticked, RecordOutput(b, c.terms.leaseId, produced, now), i,
                   if total >= c.quantity then Outcome.Completed else Committed, total, now);
  }

  /** Reports about no lease, or of no output, or of output where nothing is being produced, change nothing. */
  lemma ReportsIgnored(b: Book, leaseId: nat, outcome: Outcome, quantity: uint32, now: nat)
    ensures (forall c | c in Tick(b, now).claims && c.state.Leased? :: c.terms.leaseId != leaseId) ==>
              RecordOutcome(b, leaseId, outcome, quantity, now) == Tick(b, now)
    ensures (forall c | c in Tick(b, now).claims && c.terms.kind.Production? && c.state.Leased? :: c.terms.leaseId != leaseId) ==>
              RecordOutput(b, leaseId, quantity, now) == Tick(b, now)
    ensures quantity == 0 ==>
              RecordOutput(b, leaseId, quantity, now) == Tick(b, now)
  {
    hide Tick, Settle;
    var claims := Tick(b, now).claims;
    var i := LeaseIndex(claims, leaseId);
    assert i < |claims| ==> claims[i] in claims;
  }

  lemma StandsUntil(b: Book, i: nat, later: nat)
    requires ClaimsOk(b.claims, b.nextLeaseId) && i < |b.claims| && !b.claims[i].state.Leased? && b.claims[i].settledAt > 0
    ensures b.claims[i] in Tick(b, later).claims <==> later < b.claims[i].settledAt + 300
    ensures later >= b.claims[i].settledAt + 300 ==>
              forall d | d in Tick(b, later).claims :: d.terms.leaseId != b.claims[i].terms.leaseId
  {
    ExpiryTold(b, later);
    hide Tick, ClaimOk;
    forall d | d in Tick(b, later).claims && d.terms.leaseId == b.claims[i].terms.leaseId
      ensures d == b.claims[i]
    {
      assert forall e | e in b.claims && e.terms.leaseId == b.claims[i].terms.leaseId :: e == b.claims[i];
    }
  }

  /** Once settled, a claim is on the book for exactly the retention of 300 seconds, and with it what was
      made and not delivered. */
  lemma SettledClaimStands(b: Book, i: nat, outcome: Outcome, committed: uint32, now: nat, later: nat)
    requires ClaimsOk(b.claims, b.nextLeaseId) && i < |Tick(b, now).claims| && now > 0
    requires Tick(b, now).claims[i].state.Leased? && !outcome.Committed?
    ensures var c := Tick(b, now).claims[i];
            var after := RecordOutcome(b, c.terms.leaseId, outcome, committed, now);
            && !after.claims[i].state.Leased? && after.claims[i].terms == c.terms
            && (after.claims[i] in Tick(after, later).claims <==> later < now + 300)
            && (later >= now + 300 ==> forall d | d in Tick(after, later).claims :: d.terms.leaseId != c.terms.leaseId)
  {
    TickForward(b, now);
    var ticked := Tick(b, now);
    var c := ticked.claims[i];
    LeaseIndexIs(ticked.claims, b.nextLeaseId, i);
    var after := RecordOutcome(b, c.terms.leaseId, outcome, committed, now);
    SettleForward(ticked.claims, b.nextLeaseId, i, outcome, committed, now);
    assert after.claims[i] == Settle(c, outcome, committed, now);
    hide Tick, Descends, ClaimOk;
    StandsUntil(after, i, later);
  }

  /** The settled claims whose retention is over. */
  function Outlived(claims: seq<Claim>, now: nat): (r: seq<Claim>)
    ensures forall c :: c in r <==> c in claims && !c.state.Leased? && c.settledAt != 0 && now >= c.settledAt + 300
  {
    if claims == [] then []
    else
      var c := claims[|claims| - 1];
      assert forall d :: d in claims <==> d in claims[..|claims| - 1] || d == c;
      Outlived(claims[..|claims| - 1], now) + if !c.state.Leased? && c.settledAt != 0 && now >= c.settledAt + 300 then [c] else []
  }

  lemma ExpiredLast(claims: seq<Claim>, now: nat)
    requires claims != []
    ensures var n := |claims| - 1;
            var lapsed := Lapse(claims[n], now);
            Expired(claims, now) == if Forgotten(lapsed, now) then Expired(claims[..n], now) else Expired(claims[..n], now) + [lapsed]
  {
    var n := |claims| - 1;
    assert Lapsed(claims, now)[..n] == Lapsed(claims[..n], now);
  }

  lemma LapsedSupply(c: Claim, now: nat, k: GapKey)
    requires ClaimOk(c)
    ensures ClaimPart(Lapse(c, now), k).supply == ClaimPart(c, k).supply
    ensures Forgotten(Lapse(c, now), now) <==> !c.state.Leased? && c.settledAt != 0 && now >= c.settledAt + 300
    ensures Forgotten(Lapse(c, now), now) ==> Lapse(c, now) == c
  {
  }

  /** Expiry takes nothing from supply but the bridges of claims whose retention is over. */
  lemma {:induction false} ExpiryKeepsSupply(claims: seq<Claim>, now: nat, k: GapKey)
    requires AllOk(claims)
    ensures ClaimTotals(claims, k).supply == ClaimTotals(Expired(claims, now), k).supply + ClaimTotals(Outlived(claims, now), k).supply
  {
    hide ClaimTotals, ClaimPart, ClaimOk, Expired, Lapse, Forgotten;
    if claims == [] {
      NothingExpires(now, k);
    } else {
      var n := |claims| - 1;
      ExpiryKeepsSupply(claims[..n], now, k);
      ExpiredLast(claims, now);
      LapsedSupply(claims[n], now, k);
      ClaimTotalsLast(claims, k);
      ClaimTotalsAppend(Expired(claims[..n], now), Lapse(claims[n], now), k);
      ClaimTotalsAppend(Outlived(claims[..n], now), claims[n], k);
      assert Outlived(claims, now) == Outlived(claims[..n], now) ||
             Outlived(claims, now) == Outlived(claims[..n], now) + [claims[n]];
    }
  }

  lemma NothingExpires(now: nat, k: GapKey)
    ensures Expired([], now) == [] && ClaimTotals([], k) == Zero()
  {
  }

  // ----- actors

  lemma {:induction false} SameSupply(before: seq<GapTotals>, after: seq<GapTotals>)
    requires |before| == |after| && forall i | 0 <= i < |before| :: before[i].supply == after[i].supply
    ensures Total(before).supply == Total(after).supply
  {
    if before == [] {
    } else {
      SameSupply(before[..|before| - 1], after[..|after| - 1]);
    }
  }

  /** A claim given up for a reason: what it committed to make stays bridged. */
  function GivenUp(c: Claim, outcome: Outcome, now: nat): Claim
  {
    c.(state := Released, lastOutcome := outcome, settledAt := now, bridged := if c.terms.kind.Purchase? then 0 else c.committed)
  }

  lemma ReleaseKeepsSupply(c: Claim, selected: bool, outcome: Outcome, now: nat, k: GapKey)
    requires ClaimOk(c) && Undelivered(outcome)
    ensures ClaimPart(ReleaseOne(c, selected, outcome, now), k).supply == ClaimPart(c, k).supply
    ensures ReleaseOne(c, selected, outcome, now) == if selected && c.state.Leased? then GivenUp(c, outcome, now) else c
  {
  }

  lemma SupplyStands(b: Book, after: Book, k: GapKey)
    requires |after.claims| == |b.claims|
    requires forall i | 0 <= i < |b.claims| :: ClaimPart(after.claims[i], k).supply == ClaimPart(b.claims[i], k).supply
    requires FactTotals(after, k).supply == FactTotals(b, k).supply
    ensures TotalsAt(after, k).supply == TotalsAt(b, k).supply
  {
    hide FactTotals, ClaimPart;
    SameSupply(ClaimParts(b.claims, k), ClaimParts(after.claims, k));
  }

  /** An actor that logs out, is disabled or fails gives up every lease it holds, and nothing else moves. What it
      has made stays supply at every gap, so that nobody is asked to make it again. */
  lemma InvalidationKeepsSupply(b: Book, guid: uint32, outcome: Outcome, now: nat, k: GapKey)
    requires AllOk(b.claims) && Undelivered(outcome)
    ensures var after := InvalidateActor(b, guid, outcome, now);
            && TotalsAt(after, k).supply == TotalsAt(b, k).supply
            && |after.claims| == |b.claims|
            && (forall i | 0 <= i < |b.claims| ::
                  var c := b.claims[i];
                  after.claims[i] == if c.terms.actor == guid && c.state.Leased? then GivenUp(c, outcome, now) else c)
  {
    var after := InvalidateActor(b, guid, outcome, now);
    DroppedCreditHolds(b, after, guid);
    hide FactTotals, ClaimPart, ReleaseOne, ClaimOk, TotalsAt;
    forall i | 0 <= i < |b.claims|
      ensures ClaimPart(after.claims[i], k).supply == ClaimPart(b.claims[i], k).supply
      ensures after.claims[i] == if b.claims[i].terms.actor == guid && b.claims[i].state.Leased? then GivenUp(b.claims[i], outcome, now)
                                 else b.claims[i]
    {
      ReleaseKeepsSupply(b.claims[i], b.claims[i].terms.actor == guid, outcome, now, k);
    }
    SupplyStands(b, after, k);
  }
}
