/**
 The trim that follows changed facts: evict purchases the auctions no longer back, then shrink
 the production and resource claims a gap no longer needs.
 */
module Trim {
  import opened Economy
  import opened Order
  import opened Gaps
  import opened Claims

  predicate AllOk(claims: seq<Claim>)
  {
    forall i | 0 <= i < |claims| :: ClaimOk(claims[i])
  }

  /** Changes stay with the claims of one key. */
  predicate Touches(before: seq<Claim>, after: seq<Claim>, k: GapKey)
    requires |before| == |after|
  {
    forall i | 0 <= i < |before| :: before[i] != after[i] ==> before[i].Key() == k
  }

  // ----- evicting purchases, newest first

  predicate Selected(c: Claim, k: GapKey, speculative: bool)
  {
    && c.Key() == k && c.terms.kind.Purchase? && c.state.Leased?
    && if speculative then c.terms.priority.Speculation? else !c.Personal() && !c.terms.priority.Speculation?
  }

  function ReleaseNewest(claims: seq<Claim>, n: nat, k: GapKey, speculative: bool, excess: nat, now: nat): (r: seq<Claim>)
    requires n <= |claims|
    ensures |r| == |claims|
    decreases n
  {
    if n == 0 || excess == 0 then claims
    else
      var c := claims[n - 1];
      if Selected(c, k, speculative)
      then ReleaseNewest(claims[n - 1 := Settle(c, NeedChanged, c.committed, now)], n - 1, k, speculative,
                         Minus(excess, c.quantity), now)
      else ReleaseNewest(claims, n - 1, k, speculative, excess, now)
  }

  // ----- shrinking production and resource claims, least committed first

  predicate Trimmable(c: Claim, k: GapKey)
  {
    c.Key() == k && !c.terms.kind.Purchase? && c.state.Leased?
  }

  predicate TrimmedBefore(left: Claim, right: Claim)
  {
    if left.committed != right.committed then left.committed < right.committed
    else left.terms.createdAt > right.terms.createdAt
  }

  predicate Indices(order: seq<nat>, claims: seq<Claim>)
  {
    forall p | 0 <= p < |order| :: order[p] < |claims|
  }

  /** Stable insertion: after everything that need not come later. */
  function Insert(claims: seq<Claim>, order: seq<nat>, i: nat): (r: seq<nat>)
    requires Indices(order, claims) && i < |claims|
    ensures multiset(r) == multiset(order) + multiset{i}
    ensures Indices(r, claims)
  {
    if order == [] then [i]
    else
      var last := order[|order| - 1];
      assert order == order[..|order| - 1] + [last];
      if TrimmedBefore(claims[i], claims[last])
      then Insert(claims, order[..|order| - 1], i) + [last]
      else order + [i]
  }

  /** The trimmable claims among the first n, stably sorted by `TrimmedBefore`. */
  function StableOrder(claims: seq<Claim>, k: GapKey, n: nat): (r: seq<nat>)
    requires n <= |claims|
    ensures Indices(r, claims)
  {
    if n == 0 then []
    else if Trimmable(claims[n - 1], k) then Insert(claims, StableOrder(claims, k, n - 1), n - 1)
    else StableOrder(claims, k, n - 1)
  }

  function Transferable(c: Claim): nat { Minus(c.quantity, c.committed) }

  /** A claim after `reduction` of its uncommitted quantity is taken away. */
  function Cut(c: Claim, reduction: uint32, now: nat): Claim
    requires reduction <= c.quantity
  {
    if reduction < Transferable(c) then c.(quantity := c.quantity - reduction)
    else Settle(if c.committed != 0 then c.(quantity := c.committed) else c, NeedChanged, c.committed, now)
  }

  function Shrink(claims: seq<Claim>, order: seq<nat>, excess: nat, now: nat): (r: seq<Claim>)
    requires Indices(order, claims)
    ensures |r| == |claims|
    decreases |order|
  {
    if order == [] || excess == 0 then claims
    else
      var c := claims[order[0]];
      if Transferable(c) == 0 then Shrink(claims, order[1..], excess, now)
      else
        var reduction := Min(Transferable(c), excess);
        Shrink(claims[order[0] := Cut(c, reduction, now)], order[1..], excess - reduction, now)
  }

  // ----- a key, and all keys

  function SpeculationExcess(t: GapTotals): nat
  {
    Minus(t.speculation, Minus(t.auction, PurchaseNeed(t)))
  }

  function PurchaseExcess(t: GapTotals): nat
  {
    Minus(t.purchase, Min(PurchaseNeed(t), t.auction))
  }

  function ClaimedExcess(t: GapTotals): nat
  {
    Minus(t.claimed, Minus(t.demand, t.supply))
  }

  function PurchasesEvicted(claims: seq<Claim>, k: GapKey, t: GapTotals, now: nat): (r: seq<Claim>)
    ensures |r| == |claims|
  {
    var withoutSpeculation := ReleaseNewest(claims, |claims|, k, true, SpeculationExcess(t), now);
    ReleaseNewest(withoutSpeculation, |claims|, k, false, PurchaseExcess(t), now)
  }

  function TrimKey(claims: seq<Claim>, k: GapKey, t: GapTotals, now: nat): (r: seq<Claim>)
    ensures |r| == |claims|
  {
    var evicted := PurchasesEvicted(claims, k, t, now);
    Shrink(evicted, StableOrder(evicted, k, |claims|), ClaimedExcess(t), now)
  }

  function TrimKeys(claims: seq<Claim>, keys: seq<GapKey>, gaps: map<GapKey, GapTotals>, now: nat): (r: seq<Claim>)
    requires forall k | k in keys :: k in gaps
    ensures |r| == |claims|
  {
    if keys == [] then claims
    else
      var n := |keys| - 1;
      TrimKey(TrimKeys(claims, keys[..n], gaps, now), keys[n], gaps[keys[n]], now)
  }

  lemma TrimKeysNext(claims: seq<Claim>, keys: seq<GapKey>, k: GapKey, gaps: map<GapKey, GapTotals>, now: nat)
    requires k in gaps && forall key | key in keys :: key in gaps
    ensures forall key | key in keys + [k] :: key in gaps
    ensures TrimKeys(claims, keys + [k], gaps, now) == TrimKey(TrimKeys(claims, keys, gaps, now), k, gaps[k], now)
  {
    assert (keys + [k])[..|keys|] == keys;
  }

  ghost function Trimmed(b: Book, now: nat): (r: seq<Claim>)
    ensures |r| == |b.claims|
  {
    TrimKeys(b.claims, AscendingKeys(Touched(b)), FreshGaps(b), now)
  }

  // ----- what trimming leaves alone

  lemma ClaimwiseTransitive(a: seq<Claim>, b: seq<Claim>, c: seq<Claim>)
    requires Claimwise(a, b) && Claimwise(b, c)
    ensures Claimwise(a, c)
  {
    forall i | 0 <= i < |a|
      ensures Later(a[i], c[i])
    {
      assert Later(a[i], b[i]) && Later(b[i], c[i]);
    }
  }

  lemma TouchesTransitive(a: seq<Claim>, b: seq<Claim>, c: seq<Claim>, k: GapKey)
    requires |a| == |b| == |c| && Claimwise(a, b) && Touches(a, b, k) && Touches(b, c, k)
    ensures Touches(a, c, k)
  {
    forall i | 0 <= i < |a| && a[i] != c[i]
      ensures a[i].Key() == k
    {
      assert Later(a[i], b[i]);
    }
  }

  lemma TouchesOtherKeys(before: seq<Claim>, after: seq<Claim>, k: GapKey, other: GapKey)
    requires Claimwise(before, after) && Touches(before, after, k) && other != k
    ensures ClaimTotals(after, other) == ClaimTotals(before, other)
  {
    forall i | 0 <= i < |before|
      ensures ClaimPart(after[i], other) == ClaimPart(before[i], other)
    {
      assert Later(before[i], after[i]);
    }
    assert ClaimParts(after, other) == ClaimParts(before, other);
  }

  lemma OneClaimLater(claims: seq<Claim>, i: nat, c: Claim)
    requires i < |claims| && Later(claims[i], c)
    ensures Claimwise(claims, claims[i := c])
    ensures Touches(claims, claims[i := c], claims[i].Key())
  {
  }

  lemma {:induction false} ReleaseNewestLater(claims: seq<Claim>, n: nat, k: GapKey, speculative: bool, excess: nat, now: nat)
    requires n <= |claims| && AllOk(claims)
    ensures var r := ReleaseNewest(claims, n, k, speculative, excess, now);
            AllOk(r) && Claimwise(claims, r) && Touches(claims, r, k)
    decreases n
  {
    hide Settle;
    if n == 0 || excess == 0 {
    } else {
      var c := claims[n - 1];
      if Selected(c, k, speculative) {
        var d := Settle(c, NeedChanged, c.committed, now);
        SettleOk(c, NeedChanged, c.committed, now);
        OneClaimLater(claims, n - 1, d);
        var next := claims[n - 1 := d];
        ReleaseNewestLater(next, n - 1, k, speculative, Minus(excess, c.quantity), now);
        var r := ReleaseNewest(next, n - 1, k, speculative, Minus(excess, c.quantity), now);
        ClaimwiseTransitive(claims, next, r);
        TouchesTransitive(claims, next, r, k);
        assert r == ReleaseNewest(claims, n, k, speculative, excess, now);
      } else {
        ReleaseNewestLater(claims, n - 1, k, speculative, excess, now);
      }
    }
  }

  lemma CutOk(c: Claim, reduction: uint32, now: nat)
    requires ClaimOk(c) && c.state.Leased? && 0 < reduction <= Transferable(c)
    ensures ClaimOk(Cut(c, reduction, now)) && Later(c, Cut(c, reduction, now))
  {
  }

  lemma {:induction false} ShrinkLater(claims: seq<Claim>, order: seq<nat>, excess: nat, now: nat, k: GapKey)
    requires Indices(order, claims) && AllOk(claims)
    requires forall p | 0 <= p < |order| :: Trimmable(claims[order[p]], k)
    requires forall i, j | 0 <= i < j < |order| :: order[i] != order[j]
    ensures var r := Shrink(claims, order, excess, now);
            AllOk(r) && Claimwise(claims, r) && Touches(claims, r, k)
    decreases |order|
  {
    hide Settle, Cut;
    if order == [] || excess == 0 {
    } else {
      var c := claims[order[0]];
      if Transferable(c) == 0 {
        ShrinkLater(claims, order[1..], excess, now, k);
      } else {
        var reduction := Min(Transferable(c), excess);
        CutOk(c, reduction, now);
        OneClaimLater(claims, order[0], Cut(c, reduction, now));
        var next := claims[order[0] := Cut(c, reduction, now)];
        ShrinkLater(next, order[1..], excess - reduction, now, k);
        ClaimwiseTransitive(claims, next, Shrink(next, order[1..], excess - reduction, now));
      }
    }
  }

  /** The order lists each trimmable claim among the first n once, and nothing else. */
  predicate Covers(order: seq<nat>, claims: seq<Claim>, k: GapKey, n: nat)
    requires n <= |claims|
  {
    && (forall p | 0 <= p < |order| :: order[p] < n && Trimmable(claims[order[p]], k))
    && (forall i, j | 0 <= i < j < |order| :: order[i] != order[j])
    && (forall i | 0 <= i < n && Trimmable(claims[i], k) :: i in order)
  }

  lemma InsertCovers(order: seq<nat>, claims: seq<Claim>, k: GapKey, n: nat)
    requires n < |claims| && Trimmable(claims[n], k) && Covers(order, claims, k, n)
    ensures Covers(Insert(claims, order, n), claims, k, n + 1)
  {
    assert n !in order;
    InsertMembers(claims, order, n);
    var r := Insert(claims, order, n);
    forall p | 0 <= p < |r|
      ensures r[p] < n + 1 && Trimmable(claims[r[p]], k)
    {
      assert r[p] in r;
    }
  }

  lemma {:induction false} StableOrderCovers(claims: seq<Claim>, k: GapKey, n: nat)
    requires n <= |claims|
    ensures Covers(StableOrder(claims, k, n), claims, k, n)
  {
    if n == 0 {
    } else {
      StableOrderCovers(claims, k, n - 1);
      if Trimmable(claims[n - 1], k) {
        InsertCovers(StableOrder(claims, k, n - 1), claims, k, n - 1);
      }
    }
  }

  lemma {:induction false} InsertMembers(claims: seq<Claim>, order: seq<nat>, i: nat)
    requires Indices(order, claims) && i < |claims| && i !in order
    requires forall a, b | 0 <= a < b < |order| :: order[a] != order[b]
    ensures forall o :: o in Insert(claims, order, i) <==> o in order || o == i
    ensures forall a, b | 0 <= a < b < |Insert(claims, order, i)| :: Insert(claims, order, i)[a] != Insert(claims, order, i)[b]
  {
    if order == [] {
    } else {
      var n := |order| - 1;
      assert order == order[..n] + [order[n]];
      if TrimmedBefore(claims[i], claims[order[n]]) {
        InsertMembers(claims, order[..n], i);
        var front := Insert(claims, order[..n], i);
        forall a | 0 <= a < |front|
          ensures front[a] != order[n]
        {
          assert front[a] in front;
        }
      }
    }
  }

  // ----- what trimming achieves

  lemma EvictedPart(c: Claim, k: GapKey, speculative: bool, now: nat)
    requires ClaimOk(c) && Selected(c, k, speculative)
    ensures ClaimPart(c, k) == if speculative then Zero().(speculation := c.quantity) else Zero().(purchase := c.quantity)
    ensures ClaimPart(Settle(c, NeedChanged, c.committed, now), k) == Zero()
  {
  }

  /** Figures that differ in purchases alone. */
  predicate SameButPurchases(a: GapTotals, b: GapTotals)
  {
    b == a.(purchase := b.purchase, speculation := b.speculation)
  }

  lemma NoneSelected(claims: seq<Claim>, k: GapKey)
    requires AllOk(claims)
    requires forall i | 0 <= i < |claims| :: !Selected(claims[i], k, true)
    ensures ClaimTotals(claims, k).speculation == 0
  {
    ZeroParts(ClaimParts(claims, k));
  }

  lemma NonePurchased(claims: seq<Claim>, k: GapKey)
    requires AllOk(claims)
    requires forall i | 0 <= i < |claims| :: !Selected(claims[i], k, false)
    ensures ClaimTotals(claims, k).purchase == 0
  {
    ZeroParts(ClaimParts(claims, k));
  }

  function Evictable(t: GapTotals, speculative: bool): nat { if speculative then t.speculation else t.purchase }

  lemma {:induction false} ReleaseNewestTotals(claims: seq<Claim>, n: nat, k: GapKey, speculative: bool, excess: nat, now: nat)
    requires n <= |claims| && AllOk(claims)
    requires forall i | n <= i < |claims| :: !Selected(claims[i], k, speculative)
    ensures var t, r := ClaimTotals(claims, k), ClaimTotals(ReleaseNewest(claims, n, k, speculative, excess, now), k);
            && SameButPurchases(t, r)
            && Evictable(r, !speculative) == Evictable(t, !speculative)
            && Evictable(r, speculative) <= Minus(Evictable(t, speculative), excess)
    decreases n
  {
    hide ClaimTotals, ClaimPart, Settle;
    if n == 0 {
      if speculative { NoneSelected(claims, k); } else { NonePurchased(claims, k); }
    } else if excess == 0 {
    } else {
      var c := claims[n - 1];
      if Selected(c, k, speculative) {
        var d := Settle(c, NeedChanged, c.committed, now);
        SettleOk(c, NeedChanged, c.committed, now);
        EvictedPart(c, k, speculative, now);
        ClaimTotalsUpdate(claims, n - 1, d, k);
        var next, left := claims[n - 1 := d], Minus(excess, c.quantity);
        ReleaseNewestTotals(next, n - 1, k, speculative, left, now);
        assert ReleaseNewest(claims, n, k, speculative, excess, now) == ReleaseNewest(next, n - 1, k, speculative, left, now);
      } else {
        ReleaseNewestTotals(claims, n - 1, k, speculative, excess, now);
      }
    }
  }

  lemma CutPart(c: Claim, k: GapKey, reduction: uint32, now: nat)
    requires ClaimOk(c) && Trimmable(c, k) && 0 < reduction <= Transferable(c)
    ensures var before, after := ClaimPart(c, k), ClaimPart(Cut(c, reduction, now), k);
            && after.supply == before.supply && after.claimed == before.claimed - reduction
            && before.nonAuction >= reduction
            && after == before.(claimed := after.claimed, nonAuction := before.nonAuction - reduction)
    ensures reduction == Transferable(c) ==> !Trimmable(Cut(c, reduction, now), k)
  {
  }

  lemma NoneTrimmable(claims: seq<Claim>, k: GapKey)
    requires AllOk(claims)
    requires forall i | 0 <= i < |claims| && Trimmable(claims[i], k) :: Transferable(claims[i]) == 0
    ensures ClaimTotals(claims, k).claimed == 0
  {
    ZeroParts(ClaimParts(claims, k));
  }

  /** The order still holds every claim that has something left to give. */
  predicate Pending(claims: seq<Claim>, order: seq<nat>, k: GapKey)
  {
    && Indices(order, claims)
    && (forall p | 0 <= p < |order| :: Trimmable(claims[order[p]], k))
    && (forall i, j | 0 <= i < j < |order| :: order[i] != order[j])
    && (forall i | 0 <= i < |claims| && Trimmable(claims[i], k) && Transferable(claims[i]) > 0 :: i in order)
  }

  lemma PendingAdvances(claims: seq<Claim>, order: seq<nat>, k: GapKey, c: Claim)
    requires Pending(claims, order, k) && order != []
    requires !Trimmable(c, k) || Transferable(c) == 0
    ensures Pending(claims[order[0] := c], order[1..], k)
  {
    assert order == [order[0]] + order[1..];
  }

  /** The shrink keeps supply, and takes exactly the excess off the promises. */
  lemma {:induction false} ShrinkTotals(claims: seq<Claim>, order: seq<nat>, excess: nat, now: nat, k: GapKey)
    requires AllOk(claims) && Pending(claims, order, k)
    requires excess <= ClaimTotals(claims, k).claimed
    ensures var t, r := ClaimTotals(claims, k), ClaimTotals(Shrink(claims, order, excess, now), k);
            && t.nonAuction >= excess
            && r == t.(claimed := t.claimed - excess, nonAuction := t.nonAuction - excess)
    decreases |order|
  {
    hide ClaimTotals, ClaimPart, Settle, Cut;
    if order == [] {
      NoneTrimmable(claims, k);
    } else if excess == 0 {
    } else {
      var c := claims[order[0]];
      if Transferable(c) == 0 {
        PendingAdvances(claims, order, k, c);
        assert claims[order[0] := c] == claims;
        ShrinkTotals(claims, order[1..], excess, now, k);
      } else {
        var reduction := Min(Transferable(c), excess);
        var d := Cut(c, reduction, now);
        CutOk(c, reduction, now);
        CutPart(c, k, reduction, now);
        ClaimTotalsUpdate(claims, order[0], d, k);
        var next := claims[order[0] := d];
        if reduction == Transferable(c) {
          PendingAdvances(claims, order, k, d);
          ShrinkTotals(next, order[1..], excess - reduction, now, k);
        } else {
          assert Shrink(next, order[1..], 0, now) == next;
        }
      }
    }
  }

  /** What the trim does to the totals of a key: demand, supply and auction supply stay, promises are
      cut to exactly the uncovered demand, and purchases to what is needed and the auctions can serve.
      Nothing that fits is cut. */
  predicate Restored(before: GapTotals, after: GapTotals)
  {
    var need := Minus(before.demand, before.nonAuction);
    && after == before.(claimed := after.claimed, nonAuction := after.nonAuction,
                        purchase := after.purchase, speculation := after.speculation)
    && after.claimed == Min(before.claimed, Minus(before.demand, before.supply))
    && before.nonAuction - after.nonAuction == before.claimed - after.claimed
    && (if before.purchase <= Min(need, before.auction) then after.purchase == before.purchase
        else after.purchase <= Min(need, before.auction))
    && (if before.speculation + need <= before.auction || before.speculation == 0 then after.speculation == before.speculation
        else after.speculation <= Minus(before.auction, need))
  }

  lemma RestoredFits(before: GapTotals, after: GapTotals)
    requires Restored(before, after)
    ensures after.purchase + after.speculation <= after.auction
  {
  }

  predicate FactsOnly(t: GapTotals) { t.claimed == 0 && t.purchase == 0 && t.speculation == 0 }

  lemma PurchasesEvictedEffect(claims: seq<Claim>, k: GapKey, t: GapTotals, now: nat)
    requires AllOk(claims)
    ensures var evicted := PurchasesEvicted(claims, k, t, now);
            && AllOk(evicted) && Claimwise(claims, evicted) && Touches(claims, evicted, k)
            && SameButPurchases(ClaimTotals(claims, k), ClaimTotals(evicted, k))
            && ClaimTotals(evicted, k).purchase <= Minus(ClaimTotals(claims, k).purchase, PurchaseExcess(t))
            && ClaimTotals(evicted, k).speculation <= Minus(ClaimTotals(claims, k).speculation, SpeculationExcess(t))
            && (PurchaseExcess(t) == 0 ==> ClaimTotals(evicted, k).purchase == ClaimTotals(claims, k).purchase)
            && (SpeculationExcess(t) == 0 ==> ClaimTotals(evicted, k).speculation == ClaimTotals(claims, k).speculation)
  {
    var n := |claims|;
    ReleaseNewestLater(claims, n, k, true, SpeculationExcess(t), now);
    ReleaseNewestTotals(claims, n, k, true, SpeculationExcess(t), now);
    var first := ReleaseNewest(claims, n, k, true, SpeculationExcess(t), now);
    ReleaseNewestLater(first, n, k, false, PurchaseExcess(t), now);
    ReleaseNewestTotals(first, n, k, false, PurchaseExcess(t), now);
    var evicted := ReleaseNewest(first, n, k, false, PurchaseExcess(t), now);
    ClaimwiseTransitive(claims, first, evicted);
    TouchesTransitive(claims, first, evicted, k);
  }

  lemma TrimKeyLater(claims: seq<Claim>, k: GapKey, t: GapTotals, now: nat)
    requires AllOk(claims)
    ensures var trimmed := TrimKey(claims, k, t, now);
            AllOk(trimmed) && Claimwise(claims, trimmed) && Touches(claims, trimmed, k)
  {
    PurchasesEvictedEffect(claims, k, t, now);
    var evicted := PurchasesEvicted(claims, k, t, now);
    var order := StableOrder(evicted, k, |claims|);
    StableOrderCovers(evicted, k, |claims|);
    ShrinkLater(evicted, order, ClaimedExcess(t), now, k);
    ClaimwiseTransitive(claims, evicted, TrimKey(claims, k, t, now));
    TouchesTransitive(claims, evicted, TrimKey(claims, k, t, now), k);
  }

  lemma TrimKeyRestores(claims: seq<Claim>, k: GapKey, facts: GapTotals, t: GapTotals, now: nat)
    requires AllOk(claims) && FactsOnly(facts) && t == Plus(facts, ClaimTotals(claims, k))
    ensures Restored(t, Plus(facts, ClaimTotals(TrimKey(claims, k, t, now), k)))
  {
    PurchasesEvictedEffect(claims, k, t, now);
    var evicted := PurchasesEvicted(claims, k, t, now);
    var order := StableOrder(evicted, k, |claims|);
    StableOrderCovers(evicted, k, |claims|);
    ShrinkTotals(evicted, order, ClaimedExcess(t), now, k);
  }

  lemma {:induction false} ActorTotalsFactsOnly(b: Book, guids: seq<uint32>, k: GapKey)
    requires forall g | g in guids :: g in b.actors
    ensures FactsOnly(ActorTotals(b.actors, b.credits, guids, k))
  {
    if guids != [] {
      ActorTotalsFactsOnly(b, guids[..|guids| - 1], k);
    }
  }

  lemma FactTotalsFactsOnly(b: Book, k: GapKey)
    ensures FactsOnly(FactTotals(b, k))
  {
    ActorTotalsFactsOnly(b, AscendingGuids(b.actors.Keys), k);
  }

  lemma UnclaimedKey(claims: seq<Claim>, k: GapKey)
    requires k !in ClaimKeys(claims)
    ensures FactsOnly(ClaimTotals(claims, k))
  {
    forall p | p in ClaimParts(claims, k)
      ensures FactsOnly(p)
    {
      var i :| 0 <= i < |claims| && p == ClaimPart(claims[i], k);
      assert claims[i] in claims;
    }
    ZeroParts(ClaimParts(claims, k));
  }

  predicate Distinct(keys: seq<GapKey>)
  {
    forall i, j | 0 <= i < j < |keys| :: keys[i] != keys[j]
  }

  lemma {:induction false} TrimKeysLater(claims: seq<Claim>, keys: seq<GapKey>, gaps: map<GapKey, GapTotals>, now: nat)
    requires AllOk(claims) && forall k | k in keys :: k in gaps
    ensures AllOk(TrimKeys(claims, keys, gaps, now)) && Claimwise(claims, TrimKeys(claims, keys, gaps, now))
  {
    if keys == [] {
    } else {
      var n := |keys| - 1;
      TrimKeysLater(claims, keys[..n], gaps, now);
      var before := TrimKeys(claims, keys[..n], gaps, now);
      TrimKeyLater(before, keys[n], gaps[keys[n]], now);
      ClaimwiseTransitive(claims, before, TrimKeys(claims, keys, gaps, now));
    }
  }

  /** Trimming key after key leaves the claims of a key alone until its turn, and again after it. */
  lemma {:induction false} TrimKeysTotals(claims: seq<Claim>, keys: seq<GapKey>, gaps: map<GapKey, GapTotals>,
                                          now: nat, k: GapKey, facts: GapTotals)
    requires AllOk(claims) && Distinct(keys) && forall key | key in keys :: key in gaps
    requires FactsOnly(facts)
    requires k in keys ==> gaps[k] == Plus(facts, ClaimTotals(claims, k))
    ensures var after := ClaimTotals(TrimKeys(claims, keys, gaps, now), k);
            if k in keys then Restored(gaps[k], Plus(facts, after)) else after == ClaimTotals(claims, k)
  {
    if keys == [] {
    } else {
      var n := |keys| - 1;
      assert keys[n] !in keys[..n];
      assert keys == keys[..n] + [keys[n]];
      TrimKeysTotals(claims, keys[..n], gaps, now, k, facts);
      TrimKeysLater(claims, keys[..n], gaps, now);
      var before := TrimKeys(claims, keys[..n], gaps, now);
      if k == keys[n] {
        TrimKeyRestores(before, k, facts, gaps[k], now);
      } else {
        TrimKeyLater(before, keys[n], gaps[keys[n]], now);
        TouchesOtherKeys(before, TrimKey(before, keys[n], gaps[keys[n]], now), keys[n], k);
      }
    }
  }

  lemma AscendingKeysDistinct(keys: set<GapKey>)
    ensures Distinct(AscendingKeys(keys))
  {
    AscendingKeysSorted(keys);
    var order := AscendingKeys(keys);
    forall i, j | 0 <= i < j < |order|
      ensures order[i] != order[j]
    {
      assert Before(order[i], order[j]);
    }
  }

  /** A trim only moves claims forward. */
  lemma TrimmedLater(b: Book, now: nat)
    requires AllOk(b.claims)
    ensures AllOk(Trimmed(b, now)) && Claimwise(b.claims, Trimmed(b, now))
  {
    TrimKeysLater(b.claims, AscendingKeys(Touched(b)), FreshGaps(b), now);
  }

  lemma TotalsWithClaims(b: Book, claims: seq<Claim>, k: GapKey)
    ensures TotalsAt(b.(claims := claims), k) == Plus(FactTotals(b, k), ClaimTotals(claims, k))
  {
  }

  /** A trim restores the totals of every key. */
  lemma TrimmedRestores(b: Book, now: nat, k: GapKey)
    requires AllOk(b.claims)
    ensures Restored(TotalsAt(b, k), TotalsAt(b.(claims := Trimmed(b, now)), k))
  {
    var keys, gaps, facts, before := AscendingKeys(Touched(b)), FreshGaps(b), FactTotals(b, k), ClaimTotals(b.claims, k);
    AscendingKeysDistinct(Touched(b));
    FactTotalsFactsOnly(b, k);
    TrimKeysTotals(b.claims, keys, gaps, now, k, facts);
    TotalsWithClaims(b, Trimmed(b, now), k);
    assert TotalsAt(b, k) == Plus(facts, before);
    if k !in Touched(b) {
      UnclaimedKey(b.claims, k);
      NothingToRestore(Plus(facts, before));
    }
  }

  lemma NothingToRestore(t: GapTotals)
    requires FactsOnly(t)
    ensures Restored(t, t)
  {
  }

  // ----- who is trimmed first

  /** What the claims selected after claim i, up to n, add up to. */
  function NewerSelected(claims: seq<Claim>, i: nat, n: nat, k: GapKey, speculative: bool): nat
    requires n <= |claims|
  {
    if n <= i + 1 then 0
    else NewerSelected(claims, i, n - 1, k, speculative) +
         if Selected(claims[n - 1], k, speculative) then claims[n - 1].quantity else 0
  }

  lemma {:induction false} NewerSelectedIgnores(claims: seq<Claim>, i: nat, n: nat, k: GapKey, speculative: bool, at: nat, c: Claim)
    requires n <= at < |claims|
    ensures NewerSelected(claims[at := c], i, n, k, speculative) == NewerSelected(claims, i, n, k, speculative)
  {
    if n <= i + 1 {
    } else {
      NewerSelectedIgnores(claims, i, n - 1, k, speculative, at, c);
    }
  }

  /** A purchase is evicted exactly when the newer ones do not make up the excess. */
  lemma {:induction false} EvictedIffNewerDoNotSuffice(claims: seq<Claim>, n: nat, k: GapKey, speculative: bool,
                                                       excess: nat, now: nat, i: nat)
    requires n <= |claims| && i < |claims|
    ensures ReleaseNewest(claims, n, k, speculative, excess, now)[i] ==
            if i < n && Selected(claims[i], k, speculative) && NewerSelected(claims, i, n, k, speculative) < excess
            then Settle(claims[i], NeedChanged, claims[i].committed, now) else claims[i]
    decreases n
  {
    hide Settle;
    if n == 0 || excess == 0 {
    } else {
      var c := claims[n - 1];
      if Selected(c, k, speculative) {
        var d := Settle(c, NeedChanged, c.committed, now);
        EvictedIffNewerDoNotSuffice(claims[n - 1 := d], n - 1, k, speculative, Minus(excess, c.quantity), now, i);
        if i < n - 1 {
          NewerSelectedIgnores(claims, i, n - 1, k, speculative, n - 1, d);
        }
      } else {
        EvictedIffNewerDoNotSuffice(claims, n - 1, k, speculative, excess, now, i);
      }
    }
  }

  // ----- speculation after the trim

  /** What an eviction leaves of the first n claims: those selected whose newer ones make up the excess. */
  function Left(claims: seq<Claim>, n: nat, k: GapKey, speculative: bool, excess: nat): nat
    requires n <= |claims|
  {
    if n == 0 then 0
    else Left(claims, n - 1, k, speculative, excess) +
         if Selected(claims[n - 1], k, speculative) && NewerSelected(claims, n - 1, |claims|, k, speculative) >= excess
         then claims[n - 1].quantity else 0
  }

  /** The speculation of a key that its trim leaves, told from the claims and totals before it. */
  function SpeculationLeft(claims: seq<Claim>, k: GapKey, t: GapTotals): nat
  {
    Left(claims, |claims|, k, true, SpeculationExcess(t))
  }

  lemma SurvivorPart(c: Claim, k: GapKey)
    requires ClaimOk(c)
    ensures ClaimPart(c, k).speculation == if Selected(c, k, true) then c.quantity else 0
  {
  }

  lemma {:induction false} LeftOfPrefix(claims: seq<Claim>, n: nat, k: GapKey, excess: nat, now: nat)
    requires n <= |claims| && AllOk(claims)
    ensures ClaimTotals(ReleaseNewest(claims, |claims|, k, true, excess, now)[..n], k).speculation ==
            Left(claims, n, k, true, excess)
  {
    hide ClaimTotals, ClaimPart, Settle, Selected, ReleaseNewest, NewerSelected, ClaimOk;
    var r := ReleaseNewest(claims, |claims|, k, true, excess, now);
    if n == 0 {
      NothingLeftOfNothing(r[..0], k);
    } else {
      LeftOfPrefix(claims, n - 1, k, excess, now);
      assert r[..n][..n - 1] == r[..n - 1];
      ClaimTotalsLast(r[..n], k);
      EvictedIffNewerDoNotSuffice(claims, |claims|, k, true, excess, now, n - 1);
      SurvivorPart(claims[n - 1], k);
      if Selected(claims[n - 1], k, true) {
        EvictedPart(claims[n - 1], k, true, now);
      }
    }
  }

  lemma NothingLeftOfNothing(claims: seq<Claim>, k: GapKey)
    requires claims == []
    ensures ClaimTotals(claims, k).speculation == 0
  {
  }

  lemma LeftIsSpeculation(claims: seq<Claim>, k: GapKey, excess: nat, now: nat)
    requires AllOk(claims)
    ensures ClaimTotals(ReleaseNewest(claims, |claims|, k, true, excess, now), k).speculation ==
            Left(claims, |claims|, k, true, excess)
  {
    hide ClaimTotals, ReleaseNewest, Left, AllOk;
    LeftOfPrefix(claims, |claims|, k, excess, now);
    var r := ReleaseNewest(claims, |claims|, k, true, excess, now);
    assert r[..|claims|] == r;
  }

  /** Neither the eviction of purchases nor the shrink of production changes speculation. */
  lemma TrimKeyLeaves(claims: seq<Claim>, k: GapKey, facts: GapTotals, t: GapTotals, now: nat)
    requires AllOk(claims) && FactsOnly(facts) && t == Plus(facts, ClaimTotals(claims, k))
    ensures ClaimTotals(TrimKey(claims, k, t, now), k).speculation == SpeculationLeft(claims, k, t)
  {
    hide ClaimTotals, ReleaseNewest, Shrink, StableOrder, Left, Indices, AllOk, Claimwise, Touches;
    var n := |claims|;
    LeftIsSpeculation(claims, k, SpeculationExcess(t), now);
    ReleaseNewestLater(claims, n, k, true, SpeculationExcess(t), now);
    var first := ReleaseNewest(claims, n, k, true, SpeculationExcess(t), now);
    ReleaseNewestTotals(first, n, k, false, PurchaseExcess(t), now);
    PurchasesEvictedEffect(claims, k, t, now);
    var evicted := PurchasesEvicted(claims, k, t, now);
    StableOrderCovers(evicted, k, n);
    ShrinkTotals(evicted, StableOrder(evicted, k, n), ClaimedExcess(t), now, k);
  }

  /** The claims of a key are the same in both. */
  predicate SameAt(a: seq<Claim>, b: seq<Claim>, k: GapKey)
  {
    && |a| == |b|
    && forall i | 0 <= i < |a| :: a[i].terms == b[i].terms && (a[i].Key() == k ==> a[i] == b[i])
  }

  lemma {:induction false} NewerSelectedSame(a: seq<Claim>, b: seq<Claim>, i: nat, n: nat, k: GapKey, speculative: bool)
    requires SameAt(a, b, k) && n <= |a|
    ensures NewerSelected(a, i, n, k, speculative) == NewerSelected(b, i, n, k, speculative)
  {
    if n <= i + 1 {
    } else {
      NewerSelectedSame(a, b, i, n - 1, k, speculative);
    }
  }

  lemma {:induction false} LeftSame(a: seq<Claim>, b: seq<Claim>, n: nat, k: GapKey, excess: nat)
    requires SameAt(a, b, k) && n <= |a|
    ensures Left(a, n, k, true, excess) == Left(b, n, k, true, excess)
  {
    if n == 0 {
    } else {
      LeftSame(a, b, n - 1, k, excess);
      NewerSelectedSame(a, b, n - 1, |a|, k, true);
      hide NewerSelected;
    }
  }

  lemma {:induction false} TrimKeysSpares(claims: seq<Claim>, keys: seq<GapKey>, gaps: map<GapKey, GapTotals>, now: nat, k: GapKey)
    requires AllOk(claims) && k !in keys && forall key | key in keys :: key in gaps
    ensures SameAt(claims, TrimKeys(claims, keys, gaps, now), k)
  {
    if keys == [] {
    } else {
      hide TrimKey, ClaimOk;
      var n := |keys| - 1;
      assert keys == keys[..n] + [keys[n]];
      TrimKeysSpares(claims, keys[..n], gaps, now, k);
      TrimKeysLater(claims, keys[..n], gaps, now);
      TrimKeyLater(TrimKeys(claims, keys[..n], gaps, now), keys[n], gaps[keys[n]], now);
    }
  }

  lemma {:induction false} TrimKeysLeave(claims: seq<Claim>, keys: seq<GapKey>, gaps: map<GapKey, GapTotals>,
                                         now: nat, k: GapKey, facts: GapTotals)
    requires AllOk(claims) && Distinct(keys) && forall key | key in keys :: key in gaps
    requires FactsOnly(facts) && k in keys && gaps[k] == Plus(facts, ClaimTotals(claims, k))
    ensures ClaimTotals(TrimKeys(claims, keys, gaps, now), k).speculation == SpeculationLeft(claims, k, gaps[k])
  {
    hide ClaimTotals, TrimKey, Left, ClaimOk;
    var n := |keys| - 1;
    assert keys[n] !in keys[..n];
    assert keys == keys[..n] + [keys[n]];
    TrimKeysLater(claims, keys[..n], gaps, now);
    var before := TrimKeys(claims, keys[..n], gaps, now);
    if k == keys[n] {
      TrimKeysSpares(claims, keys[..n], gaps, now, k);
      LeftSame(claims, before, |claims|, k, SpeculationExcess(gaps[k]));
      TrimKeysTotals(claims, keys[..n], gaps, now, k, facts);
      TrimKeyLeaves(before, k, facts, gaps[k], now);
    } else {
      TrimKeysLeave(claims, keys[..n], gaps, now, k, facts);
      TrimKeyLater(before, keys[n], gaps[keys[n]], now);
      TouchesOtherKeys(before, TrimKey(before, keys[n], gaps[keys[n]], now), keys[n], k);
    }
  }

  lemma TrimmedLeaves(b: Book, now: nat, k: GapKey)
    requires AllOk(b.claims)
    ensures TotalsAt(b.(claims := Trimmed(b, now)), k).speculation == SpeculationLeft(b.claims, k, TotalsAt(b, k))
  {
    hide ClaimTotals, FactTotals, TrimKeys, FreshGaps, Left, ClaimOk, AllOk, Touched, AscendingKeys;
    var keys, facts := AscendingKeys(Touched(b)), FactTotals(b, k);
    FactTotalsFactsOnly(b, k);
    TotalsWithClaims(b, Trimmed(b, now), k);
    TotalsWithClaims(b, b.claims, k);
    AscendingKeysDistinct(Touched(b));
    FreshRows(b);
    if k in keys {
      TrimKeysLeave(b.claims, keys, FreshGaps(b), now, k, facts);
    } else {
      TrimmedRestores(b, now, k);
      UntouchedIsZero(b, k);
      LeftIsSpeculation(b.claims, k, 0, now);
      NothingReleased(b.claims, k, now);
    }
  }

  lemma FreshRows(b: Book)
    ensures forall k :: k in AscendingKeys(Touched(b)) <==> k in Touched(b)
    ensures forall k | k in Touched(b) :: k in FreshGaps(b) && FreshGaps(b)[k] == TotalsAt(b, k)
  {
    hide Touched, TotalsAt;
  }

  lemma NothingReleased(claims: seq<Claim>, k: GapKey, now: nat)
    ensures ReleaseNewest(claims, |claims|, k, true, 0, now) == claims
  {
  }

  lemma RaisedNeed(t: GapTotals, after: GapTotals)
    requires Restored(t, after)
    ensures PurchaseNeed(after) == Minus(t.demand, Minus(t.nonAuction, Minus(t.claimed, Minus(t.demand, t.supply))))
    ensures after.auction == t.auction
  {
    assert Minus(t.claimed, Minus(t.demand, t.supply)) == t.claimed - after.claimed;
  }

  /** A trim bounds the speculation of a key by the purchase need it starts from. Cutting production
      raises that need afterwards. What is left of the speculation still fits beside the raised need
      exactly when none is left, or the auctions hold both. */
  lemma SpeculationFitsRaisedNeedIff(b: Book, now: nat, k: GapKey)
    requires AllOk(b.claims)
    ensures var t, after := TotalsAt(b, k), TotalsAt(b.(claims := Trimmed(b, now)), k);
            var left := SpeculationLeft(b.claims, k, t);
            var raisedNeed := Minus(t.demand, Minus(t.nonAuction, Minus(t.claimed, Minus(t.demand, t.supply))));
            && after.speculation == left && PurchaseNeed(after) == raisedNeed
            && (after.speculation <= Minus(after.auction, PurchaseNeed(after)) <==> left == 0 || left + raisedNeed <= t.auction)
  {
    hide TotalsAt, Trimmed, SpeculationLeft, Restored, PurchaseNeed;
    TrimmedLeaves(b, now, k);
    TrimmedRestores(b, now, k);
    RaisedNeed(TotalsAt(b, k), TotalsAt(b.(claims := Trimmed(b, now)), k));
  }

  /** Claim i gives way before claim j: less of it is committed, or as much and it started later, or it
      started at the same time and was leased earlier. */
  predicate GivesWayFirst(claims: seq<Claim>, i: nat, j: nat)
    requires i < |claims| && j < |claims|
  {
    var c, d := claims[i], claims[j];
    || c.committed < d.committed
    || (c.committed == d.committed && c.terms.createdAt > d.terms.createdAt)
    || (c.committed == d.committed && c.terms.createdAt == d.terms.createdAt && i < j)
  }

  predicate Sorted(order: seq<nat>, claims: seq<Claim>)
    requires Indices(order, claims)
  {
    forall a, b | 0 <= a < b < |order| :: GivesWayFirst(claims, order[a], order[b])
  }

  predicate Below(order: seq<nat>, n: nat)
  {
    forall a | 0 <= a < |order| :: order[a] < n
  }

  lemma {:induction false} InsertSorted(claims: seq<Claim>, order: seq<nat>, i: nat)
    requires Indices(order, claims) && i < |claims| && Sorted(order, claims) && Below(order, i)
    ensures Sorted(Insert(claims, order, i), claims)
  {
    if order == [] {
    } else {
      var n := |order| - 1;
      if TrimmedBefore(claims[i], claims[order[n]]) {
        var front := Insert(claims, order[..n], i);
        InsertSorted(claims, order[..n], i);
        forall a | 0 <= a < |front|
          ensures GivesWayFirst(claims, front[a], order[n])
        {
          InsertMultiset(claims, order[..n], i, front[a]);
          assert front[a] in front;
        }
      } else {
        forall a | 0 <= a < |order|
          ensures GivesWayFirst(claims, order[a], i)
        {
          assert a < n ==> GivesWayFirst(claims, order[a], order[n]);
        }
      }
    }
  }

  lemma InsertMultiset(claims: seq<Claim>, order: seq<nat>, i: nat, o: nat)
    requires Indices(order, claims) && i < |claims|
    ensures o in Insert(claims, order, i) ==> o == i || exists p :: 0 <= p < |order| && order[p] == o
  {
    if o in Insert(claims, order, i) {
      assert o in multiset(Insert(claims, order, i));
      assert o in multiset(order) || o == i;
    }
  }

  lemma StableOrderBelow(claims: seq<Claim>, k: GapKey, n: nat)
    requires n <= |claims|
    ensures Below(StableOrder(claims, k, n), n)
  {
    StableOrderCovers(claims, k, n);
    hide StableOrder;
  }

  lemma {:induction false} StableOrderSorted(claims: seq<Claim>, k: GapKey, n: nat)
    requires n <= |claims|
    ensures Sorted(StableOrder(claims, k, n), claims)
  {
    if n == 0 {
    } else {
      hide Sorted, Insert, Trimmable, Below, Indices;
      StableOrderSorted(claims, k, n - 1);
      StableOrderBelow(claims, k, n - 1);
      if Trimmable(claims[n - 1], k) {
        InsertSorted(claims, StableOrder(claims, k, n - 1), n - 1);
      }
    }
  }

  lemma {:induction false} ShrinkElsewhere(claims: seq<Claim>, order: seq<nat>, excess: nat, now: nat, i: nat)
    requires Indices(order, claims) && i < |claims|
    requires forall p | 0 <= p < |order| :: order[p] != i
    ensures Shrink(claims, order, excess, now)[i] == claims[i]
    decreases |order|
  {
    if order == [] || excess == 0 {
    } else {
      var c := claims[order[0]];
      if Transferable(c) == 0 {
        ShrinkElsewhere(claims, order[1..], excess, now, i);
      } else {
        var reduction := Min(Transferable(c), excess);
        ShrinkElsewhere(claims[order[0] := Cut(c, reduction, now)], order[1..], excess - reduction, now, i);
      }
    }
  }

  lemma {:induction false} ShrinkInOrder(claims: seq<Claim>, order: seq<nat>, excess: nat, now: nat, p: nat, q: nat)
    requires Indices(order, claims) && p < q < |order|
    requires forall i, j | 0 <= i < j < |order| :: order[i] != order[j]
    requires Shrink(claims, order, excess, now)[order[q]] != claims[order[q]]
    requires claims[order[p]].state.Leased? && Transferable(claims[order[p]]) > 0
    ensures !Shrink(claims, order, excess, now)[order[p]].state.Leased?
    decreases |order|
  {
    var c := claims[order[0]];
    var rest := order[1..];
    assert rest[q - 1] == order[q];
    if Transferable(c) == 0 {
      ShrinkInOrder(claims, rest, excess, now, p - 1, q - 1);
    } else {
      var reduction := Min(Transferable(c), excess);
      var next := claims[order[0] := Cut(c, reduction, now)];
      if p == 0 {
        ShrinkElsewhere(next, rest, excess - reduction, now, order[0]);
        assert excess - reduction > 0;
      } else {
        assert rest[p - 1] == order[p];
        ShrinkInOrder(next, rest, excess - reduction, now, p - 1, q - 1);
      }
    }
  }

  /** Production or resource work of a key that is under way. */
  predicate UnderWay(c: Claim, k: GapKey)
  {
    c.terms.market == k.market && c.terms.group == k.group && (c.terms.kind.Production? || c.terms.kind.Resource?) && c.state.Leased?
  }

  /** Nearly finished work survives: a claim is cut only once every claim of the key with less committed
      has nothing left to give, nor any with as much committed that started later, or was leased before it
      at the same moment. */
  lemma LeastCommittedFirst(claims: seq<Claim>, k: GapKey, t: GapTotals, now: nat, i: nat, j: nat)
    requires AllOk(claims) && i < |claims| && j < |claims| && UnderWay(claims[i], k) && UnderWay(claims[j], k)
    requires GivesWayFirst(claims, j, i) && claims[j].quantity > claims[j].committed
    requires TrimKey(claims, k, t, now)[i] != claims[i]
    ensures !TrimKey(claims, k, t, now)[j].state.Leased?
  {
    var evicted := PurchasesEvicted(claims, k, t, now);
    EvictionSparesWork(claims, k, t, now);
    var order := StableOrder(evicted, k, |claims|);
    StableOrderCovers(evicted, k, |claims|);
    StableOrderSorted(evicted, k, |claims|);
    assert Trimmable(evicted[i], k) && Trimmable(evicted[j], k);
    assert i in order && j in order;
    var q :| 0 <= q < |order| && order[q] == i;
    var p :| 0 <= p < |order| && order[p] == j;
    ShrinkInOrder(evicted, order, ClaimedExcess(t), now, p, q);
  }

  /** What the trim may do to work under way: leave it, take part of what is not committed, or release it
      with what is committed. A claim never comes out with a quantity of zero. */
  predicate WorkTrimmed(c: Claim, d: Claim, now: nat)
  {
    || d == c
    || (d == c.(quantity := d.quantity) && c.committed < d.quantity < c.quantity)
    || d == c.(quantity := if c.committed > 0 then c.committed else c.quantity, bridged := c.committed, settledAt := now,
               lastOutcome := NeedChanged, state := Released)
  }

  lemma {:induction false} ShrinkCuts(claims: seq<Claim>, order: seq<nat>, excess: nat, now: nat, k: GapKey, i: nat)
    requires Indices(order, claims) && i < |claims| && UnderWay(claims[i], k) && ClaimOk(claims[i])
    requires forall a, b | 0 <= a < b < |order| :: order[a] != order[b]
    ensures WorkTrimmed(claims[i], Shrink(claims, order, excess, now)[i], now)
    decreases |order|
  {
    if order == [] || excess == 0 {
    } else {
      var c := claims[order[0]];
      if Transferable(c) == 0 {
        ShrinkCuts(claims, order[1..], excess, now, k, i);
      } else {
        var reduction := Min(Transferable(c), excess);
        var next := claims[order[0] := Cut(c, reduction, now)];
        if order[0] == i {
          ShrinkElsewhere(next, order[1..], excess - reduction, now, i);
        } else {
          ShrinkCuts(next, order[1..], excess - reduction, now, k, i);
        }
      }
    }
  }

  /** Work is left, cut or released whole; of two claims at most one is cut; and one is touched only once a
      claim that gives way before it has given all it had. */
  predicate TrimmedInOrder(claims: seq<Claim>, trimmed: seq<Claim>, now: nat, i: nat, j: nat)
    requires i < |claims| == |trimmed| && j < |claims|
  {
    && WorkTrimmed(claims[i], trimmed[i], now)
    && (trimmed[i] != claims[i] && trimmed[i].state.Leased? ==> trimmed[j] == claims[j] || !trimmed[j].state.Leased?)
    && (trimmed[i] != claims[i] && GivesWayFirst(claims, j, i) && claims[j].quantity > claims[j].committed ==>
          !trimmed[j].state.Leased?)
  }

  lemma KeyTrimsInOrder(claims: seq<Claim>, k: GapKey, t: GapTotals, now: nat, i: nat, j: nat)
    requires AllOk(claims) && i < |claims| && j < |claims| && UnderWay(claims[i], k) && UnderWay(claims[j], k) && i != j
    ensures TrimmedInOrder(claims, TrimKey(claims, k, t, now), now, i, j)
  {
    var trimmed := TrimKey(claims, k, t, now);
    var evicted := PurchasesEvicted(claims, k, t, now);
    EvictionSparesWork(claims, k, t, now);
    var order := StableOrder(evicted, k, |claims|);
    StableOrderCovers(evicted, k, |claims|);
    ShrinkCuts(evicted, order, ClaimedExcess(t), now, k, i);
    ShrinkCuts(evicted, order, ClaimedExcess(t), now, k, j);
    hide TrimKey, PurchasesEvicted, StableOrder, Shrink, Covers, AllOk;
    if trimmed[i] != claims[i] && GivesWayFirst(claims, j, i) && claims[j].quantity > claims[j].committed {
      LeastCommittedFirst(claims, k, t, now, i, j);
    }
    if trimmed[j] != claims[j] && GivesWayFirst(claims, i, j) && claims[i].quantity > claims[i].committed {
      LeastCommittedFirst(claims, k, t, now, j, i);
    }
  }

  /** Among all keys, the turn of one: its claims are untouched before it and after it. */
  lemma {:induction false} TurnOf(claims: seq<Claim>, keys: seq<GapKey>, gaps: map<GapKey, GapTotals>, now: nat, k: GapKey)
    returns (before: seq<Claim>)
    requires AllOk(claims) && Distinct(keys) && (forall key | key in keys :: key in gaps) && k in keys
    ensures AllOk(before) && SameAt(claims, before, k)
    ensures SameAt(TrimKey(before, k, gaps[k], now), TrimKeys(claims, keys, gaps, now), k)
  {
    hide TrimKey, ClaimOk;
    var n := |keys| - 1;
    assert keys == keys[..n] + [keys[n]];
    TrimKeysLater(claims, keys[..n], gaps, now);
    var earlier := TrimKeys(claims, keys[..n], gaps, now);
    if k == keys[n] {
      before := earlier;
      TrimKeysSpares(claims, keys[..n], gaps, now, k);
    } else {
      before := TurnOf(claims, keys[..n], gaps, now, k);
      TrimKeyLater(earlier, keys[n], gaps[keys[n]], now);
    }
  }

  lemma SameOrder(claims: seq<Claim>, before: seq<Claim>, trimmed: seq<Claim>, after: seq<Claim>, now: nat, i: nat, j: nat)
    requires |claims| == |before| == |trimmed| == |after| && i < |claims| && j < |claims|
    requires claims[i] == before[i] && claims[j] == before[j] && trimmed[i] == after[i] && trimmed[j] == after[j]
    requires TrimmedInOrder(before, trimmed, now, i, j)
    ensures TrimmedInOrder(claims, after, now, i, j)
  {
  }

  lemma KeysTrimInOrder(claims: seq<Claim>, keys: seq<GapKey>, gaps: map<GapKey, GapTotals>, now: nat, k: GapKey, i: nat, j: nat)
    requires AllOk(claims) && Distinct(keys) && forall key | key in keys :: key in gaps
    requires i < |claims| && j < |claims| && i != j && UnderWay(claims[i], k) && UnderWay(claims[j], k)
    ensures TrimmedInOrder(claims, TrimKeys(claims, keys, gaps, now), now, i, j)
  {
    hide TrimKey, TrimKeys, ClaimOk, TrimmedInOrder;
    if k in keys {
      var before := TurnOf(claims, keys, gaps, now, k);
      TrimKeyLater(before, k, gaps[k], now);
      KeyTrimsInOrder(before, k, gaps[k], now, i, j);
      SameOrder(claims, before, TrimKey(before, k, gaps[k], now), TrimKeys(claims, keys, gaps, now), now, i, j);
    } else {
      TrimKeysSpares(claims, keys, gaps, now, k);
      Untrimmed(claims, TrimKeys(claims, keys, gaps, now), now, i, j);
    }
  }

  /** Over all keys, nearly finished work survives: work of a gap that is under way is trimmed in order. */
  lemma TrimmedWork(b: Book, now: nat, i: nat, j: nat)
    requires AllOk(b.claims) && i < |b.claims| && j < |b.claims| && i != j
    requires UnderWay(b.claims[i], b.claims[j].Key()) && UnderWay(b.claims[j], b.claims[i].Key())
    ensures TrimmedInOrder(b.claims, Trimmed(b, now), now, i, j)
  {
    hide AscendingKeys, Touched, TrimKeys, ClaimOk, TrimmedInOrder, FreshGaps;
    AscendingKeysDistinct(Touched(b));
    FreshRows(b);
    KeysTrimInOrder(b.claims, AscendingKeys(Touched(b)), FreshGaps(b), now, b.claims[i].Key(), i, j);
  }

  lemma Untrimmed(claims: seq<Claim>, trimmed: seq<Claim>, now: nat, i: nat, j: nat)
    requires i < |claims| == |trimmed| && j < |claims| && trimmed[i] == claims[i]
    ensures TrimmedInOrder(claims, trimmed, now, i, j)
  {
  }

  lemma {:induction false} ReleaseNewestSparesWork(claims: seq<Claim>, n: nat, k: GapKey, speculative: bool, excess: nat, now: nat)
    requires n <= |claims|
    ensures forall i | 0 <= i < |claims| && !claims[i].terms.kind.Purchase? ::
              ReleaseNewest(claims, n, k, speculative, excess, now)[i] == claims[i]
    decreases n
  {
    if n == 0 || excess == 0 {
    } else {
      var c := claims[n - 1];
      if Selected(c, k, speculative) {
        var d := Settle(c, NeedChanged, c.committed, now);
        ReleaseNewestSparesWork(claims[n - 1 := d], n - 1, k, speculative, Minus(excess, c.quantity), now);
      } else {
        ReleaseNewestSparesWork(claims, n - 1, k, speculative, excess, now);
      }
    }
  }

  lemma EvictionSparesWork(claims: seq<Claim>, k: GapKey, t: GapTotals, now: nat)
    ensures forall i | 0 <= i < |claims| && !claims[i].terms.kind.Purchase? ::
              PurchasesEvicted(claims, k, t, now)[i] == claims[i]
  {
    ReleaseNewestSparesWork(claims, |claims|, k, true, SpeculationExcess(t), now);
    var first := ReleaseNewest(claims, |claims|, k, true, SpeculationExcess(t), now);
    ReleaseNewestSparesWork(first, |claims|, k, false, PurchaseExcess(t), now);
  }

  /** No trim selects a personal claim. */
  lemma {:induction false} PersonalClaimsSurviveTrim(claims: seq<Claim>, keys: seq<GapKey>, gaps: map<GapKey, GapTotals>, now: nat, i: nat)
    requires AllOk(claims) && (forall k | k in keys :: k in gaps)
    requires i < |claims| && claims[i].Personal()
    ensures TrimKeys(claims, keys, gaps, now)[i] == claims[i]
  {
    if keys == [] {
    } else {
      var n := |keys| - 1;
      PersonalClaimsSurviveTrim(claims, keys[..n], gaps, now, i);
      TrimKeysLater(claims, keys[..n], gaps, now);
      var before := TrimKeys(claims, keys[..n], gaps, now);
      PersonalSurvivesKey(before, keys[n], gaps[keys[n]], now, i);
    }
  }

  lemma PersonalSurvivesKey(claims: seq<Claim>, k: GapKey, t: GapTotals, now: nat, i: nat)
    requires AllOk(claims) && i < |claims| && claims[i].Personal()
    ensures TrimKey(claims, k, t, now)[i] == claims[i]
  {
    PersonalNotEvicted(claims, |claims|, k, true, SpeculationExcess(t), now, i);
    ReleaseNewestLater(claims, |claims|, k, true, SpeculationExcess(t), now);
    var first := ReleaseNewest(claims, |claims|, k, true, SpeculationExcess(t), now);
    PersonalNotEvicted(first, |claims|, k, false, PurchaseExcess(t), now, i);
    var evicted := PurchasesEvicted(claims, k, t, now);
    StableOrderCovers(evicted, k, |claims|);
    var order := StableOrder(evicted, k, |claims|);
    forall p | 0 <= p < |order|
      ensures order[p] != i
    {
      assert Trimmable(evicted[order[p]], k);
    }
    ShrinkElsewhere(evicted, order, ClaimedExcess(t), now, i);
  }

  lemma {:induction false} PersonalNotEvicted(claims: seq<Claim>, n: nat, k: GapKey, speculative: bool, excess: nat, now: nat, i: nat)
    requires n <= |claims| && AllOk(claims) && i < |claims| && claims[i].Personal()
    ensures ReleaseNewest(claims, n, k, speculative, excess, now)[i] == claims[i]
    decreases n
  {
    if n == 0 || excess == 0 {
    } else {
      var c := claims[n - 1];
      if Selected(c, k, speculative) {
        var d := Settle(c, NeedChanged, c.committed, now);
        SettleOk(c, NeedChanged, c.committed, now);
        PersonalNotEvicted(claims[n - 1 := d], n - 1, k, speculative, Minus(excess, c.quantity), now, i);
      } else {
        PersonalNotEvicted(claims, n - 1, k, speculative, excess, now, i);
      }
    }
  }
}
