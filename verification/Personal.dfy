/** Personal purchases: apart from every shared gap, bounded in number, never doubled. */
module Personal {
  import opened Economy
  import opened Order
  import opened Gaps
  import opened Claims
  import opened Trim
  import opened Steps
  import opened Progress
  import opened Safety

  // ----- personal claims do not count

  function Shared(claims: seq<Claim>): seq<Claim>
  {
    if claims == [] then []
    else
      var last := claims[|claims| - 1];
      Shared(claims[..|claims| - 1]) + if last.Personal() then [] else [last]
  }

  lemma SharedLast(claims: seq<Claim>)
    requires claims != []
    ensures var n := |claims| - 1;
            Shared(claims) == if claims[n].Personal() then Shared(claims[..n]) else Shared(claims[..n]) + [claims[n]]
  {
  }

  lemma PersonalPart(c: Claim, k: GapKey)
    requires c.Personal()
    ensures ClaimPart(c, k) == Zero()
  {
  }

  /** The totals of every key are those of the book without its personal claims. */
  lemma {:induction false} PersonalClaimsDoNotCount(claims: seq<Claim>, k: GapKey)
    ensures ClaimTotals(claims, k) == ClaimTotals(Shared(claims), k)
  {
    if claims == [] {
    } else {
      var n := |claims| - 1;
      PersonalClaimsDoNotCount(claims[..n], k);
      ClaimTotalsLast(claims, k);
      SharedLast(claims);
      hide ClaimTotals, ClaimPart, Shared;
      if claims[n].Personal() {
        PersonalPart(claims[n], k);
      } else {
        ClaimTotalsAppend(Shared(claims[..n]), claims[n], k);
      }
    }
  }

  // ----- never doubled

  /** No two leased purchases in a market share a work identity if either is personal. */
  predicate NoDoubledPurchase(claims: seq<Claim>)
  {
    forall c, d | c in claims && d in claims && c.terms.leaseId != d.terms.leaseId && SamePurchase(c, d) :: !c.Personal()
  }

  predicate SamePurchase(c: Claim, d: Claim)
  {
    && c.terms.kind.Purchase? && d.terms.kind.Purchase? && c.state.Leased? && d.state.Leased?
    && c.terms.market == d.terms.market && c.terms.work == d.terms.work
  }

  lemma DescendsKeepsSingle(before: seq<Claim>, after: seq<Claim>)
    requires NoDoubledPurchase(before) && Descends(before, after)
    ensures NoDoubledPurchase(after)
  {
    forall c, d | c in after && d in after && c.terms.leaseId != d.terms.leaseId && SamePurchase(c, d)
      ensures !c.Personal()
    {
      assert HasAncestor(before, c) && HasAncestor(before, d);
      var x :| x in before && Later(x, c);
      var y :| y in before && Later(y, d);
      assert SamePurchase(x, y);
    }
  }

  /** Nothing leased under a request's work identity stands in its way. */
  predicate FreeToBuy(claims: seq<Claim>, r: LeaseRequest)
  {
    r.kind.Purchase? ==>
      forall c | c in claims :: LeasedPurchaseOf(c, r.market, r.work) ==> !r.Personal() && !c.Personal()
  }

  lemma DescendsKeepsFree(before: seq<Claim>, after: seq<Claim>, r: LeaseRequest)
    requires FreeToBuy(before, r) && Descends(before, after)
    ensures FreeToBuy(after, r)
  {
    forall c | c in after
      ensures r.kind.Purchase? && LeasedPurchaseOf(c, r.market, r.work) ==> !r.Personal() && !c.Personal()
    {
      assert HasAncestor(before, c);
      var x :| x in before && Later(x, c);
    }
  }

  lemma ScreenedIsFree(b: Book, r: LeaseRequest, now: nat, verdict: Blocker)
    requires Screen(b, r, now, verdict).None?
    ensures FreeToBuy(b.claims, r)
    ensures r.Personal() ==> PersonalLeases(b.claims) < CHAIN_CAPACITY
  {
  }

  lemma LeaseKeepsSingle(b: Book, r: LeaseRequest, now: nat, verdict: Blocker, chain: Option<nat>)
    requires ClaimsOk(b.claims, b.nextLeaseId) && NoDoubledPurchase(b.claims)
    ensures NoDoubledPurchase(Lease(b, r, now, verdict, chain).0.claims)
  {
    TickForward(b, now);
    var base := LeaseOutcomeExists(b, r, now, verdict, chain);
    var (after, result) := Lease(b, r, now, verdict, chain);
    if result.Granted? {
      ScreenedIsFree(Tick(b, now), r, now, verdict);
    }
    hide Lease, Tick, Screen, TotalsAt, ClaimTotals, ClaimOk, NoDoubledPurchase, FreeToBuy;
    DescendsTransitive(b.claims, Tick(b, now).claims, base.claims);
    DescendsKeepsSingle(b.claims, base.claims);
    if result.Granted? {
      DescendsKeepsFree(Tick(b, now).claims, base.claims, r);
      AppendKeepsSingle(base.claims, result.claim, r);
    }
  }

  lemma AppendKeepsSingle(claims: seq<Claim>, claim: Claim, r: LeaseRequest)
    requires NoDoubledPurchase(claims) && FreeToBuy(claims, r)
    requires claim.terms.Key() == r.Key() && claim.terms.work == r.work && claim.terms.kind == r.kind
    requires claim.Personal() == r.Personal()
    ensures NoDoubledPurchase(claims + [claim])
  {
    assert forall c :: c in claims + [claim] <==> c in claims || c == claim;
  }

  lemma StepKeepsSingle(b: Book, call: Call)
    requires ClaimsOk(b.claims, b.nextLeaseId) && NoDoubledPurchase(b.claims)
    ensures NoDoubledPurchase(Step(b, call).claims)
  {
    if call.LeaseCall? {
      LeaseKeepsSingle(b, call.request, call.now, call.verdict, call.chain);
    } else {
      StepForward(b, call);
      hide Step, ClaimTotals;
      DescendsKeepsSingle(b.claims, Step(b, call).claims);
    }
  }

  // ----- at most 256 at once

  function PersonalIds(claims: seq<Claim>): set<nat>
  {
    set c | c in claims && c.Personal() && c.state.Leased? :: c.terms.leaseId
  }

  lemma {:induction false} PersonalLeasesCounted(claims: seq<Claim>, nextLeaseId: nat)
    requires ClaimsOk(claims, nextLeaseId)
    ensures PersonalLeases(claims) == |PersonalIds(claims)|
  {
    if claims == [] {
    } else {
      var n := |claims| - 1;
      var last := claims[n];
      PersonalLeasesCounted(claims[..n], nextLeaseId);
      hide ClaimOk;
      assert forall c :: c in claims <==> c in claims[..n] || c == last;
      if last.Personal() && last.state.Leased? {
        assert PersonalIds(claims) == PersonalIds(claims[..n]) + {last.terms.leaseId};
        assert last.terms.leaseId !in PersonalIds(claims[..n]);
      } else {
        assert PersonalIds(claims) == PersonalIds(claims[..n]);
      }
    }
  }

  lemma SubsetIsSmaller(small: set<nat>, large: set<nat>)
    requires small <= large
    ensures |small| <= |large|
  {
    assert large == small + (large - small);
  }

  lemma DescendsKeepsCount(before: seq<Claim>, after: seq<Claim>, nextLeaseId: nat)
    requires ClaimsOk(before, nextLeaseId) && ClaimsOk(after, nextLeaseId) && Descends(before, after)
    ensures PersonalLeases(after) <= PersonalLeases(before)
  {
    PersonalLeasesCounted(before, nextLeaseId);
    PersonalLeasesCounted(after, nextLeaseId);
    hide ClaimsOk, PersonalLeases;
    forall id | id in PersonalIds(after)
      ensures id in PersonalIds(before)
    {
      var d :| d in after && d.Personal() && d.state.Leased? && d.terms.leaseId == id;
      assert HasAncestor(before, d);
      var c :| c in before && Later(c, d);
    }
    SubsetIsSmaller(PersonalIds(after), PersonalIds(before));
  }

  predicate FewPersonalLeases(claims: seq<Claim>)
  {
    PersonalLeases(claims) <= CHAIN_CAPACITY
  }

  lemma LeaseKeepsFew(b: Book, r: LeaseRequest, now: nat, verdict: Blocker, chain: Option<nat>)
    requires ClaimsOk(b.claims, b.nextLeaseId) && FewPersonalLeases(b.claims)
    ensures FewPersonalLeases(Lease(b, r, now, verdict, chain).0.claims)
  {
    TickForward(b, now);
    var base := LeaseOutcomeExists(b, r, now, verdict, chain);
    var (after, result) := Lease(b, r, now, verdict, chain);
    if result.Granted? {
      ScreenedIsFree(Tick(b, now), r, now, verdict);
    }
    hide Lease, Tick, Screen, TotalsAt, ClaimTotals, ClaimOk;
    DescendsTransitive(b.claims, Tick(b, now).claims, base.claims);
    DescendsKeepsCount(b.claims, base.claims, b.nextLeaseId);
    if result.Granted? {
      assert after.claims[..|base.claims|] == base.claims;
    }
  }

  lemma StepKeepsFew(b: Book, call: Call)
    requires ClaimsOk(b.claims, b.nextLeaseId) && FewPersonalLeases(b.claims)
    ensures FewPersonalLeases(Step(b, call).claims)
  {
    if call.LeaseCall? {
      LeaseKeepsFew(b, call.request, call.now, call.verdict, call.chain);
    } else {
      StepForward(b, call);
      hide Step, ClaimTotals;
      DescendsKeepsCount(b.claims, Step(b, call).claims, b.nextLeaseId);
    }
  }

  /** In every reachable state personal purchases are single and few. */
  lemma {:induction false} RunKeepsPersonalPurchases(calls: seq<Call>)
    ensures NoDoubledPurchase(Run(EmptyBook(), calls).claims) && FewPersonalLeases(Run(EmptyBook(), calls).claims)
  {
    if calls == [] {
    } else {
      var n := |calls| - 1;
      RunKeepsPersonalPurchases(calls[..n]);
      RunKeepsClaims(EmptyBook(), calls[..n]);
      hide Step, NoDoubledPurchase, FewPersonalLeases, ClaimsOk;
      StepKeepsSingle(Run(EmptyBook(), calls[..n]), calls[n]);
      StepKeepsFew(Run(EmptyBook(), calls[..n]), calls[n]);
    }
  }
}
