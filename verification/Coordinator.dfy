/**
 The demand and supply coordinator: actors, markets, claims, credits and chains behind one lock,
 with a gap cache that is invalidated by mutators and rebuilt when next read. Every public method is
 one locked step, and each is proved to do to the book exactly what the cacheless step function of
 the same name in `Steps` does.
 */
module Coordinator {
  import opened Economy
  import opened Order
  import opened Gaps
  import opened Claims
  import opened Trim
  import opened Steps
  import opened Tally
  import opened Chains
  import opened ChainSync
  import opened Credits
  import opened Progress

  datatype BlockerRow = BlockerRow(blocker: Blocker, firstObservedAt: nat)

  class Coordinator {
    var actors: map<uint32, ActorFacts>
    var markets: map<uint32, MarketFacts>
    var credits: map<uint32, map<Group, uint32>>
    var claims: seq<Claim>
    var chains: seq<Chain>
    var activeChainIds: map<GapKey, nat>
    var gapBlockers: map<GapKey, BlockerRow>
    var cachedGaps: map<GapKey, GapTotals>
    var cachedConsumers: map<GapKey, seq<uint32>>
    var gapCacheDirty: bool
    var chainsDirty: bool
    var nextLeaseId: nat
    var nextChainId: nat
    var generation: nat

    ghost function Facts(): Book
      reads `actors, `markets, `credits, `claims, `nextLeaseId
    {
      Book(actors, markets, credits, claims, nextLeaseId)
    }

    ghost function Registered(): Registry
      reads `chains, `activeChainIds, `nextChainId
    {
      Registry(chains, activeChainIds, nextChainId)
    }

    /** A clean cache is what a rebuild would compute. */
    ghost predicate Coherent()
      reads `actors, `markets, `credits, `claims, `nextLeaseId, `cachedGaps, `cachedConsumers, `gapCacheDirty
    {
      !gapCacheDirty ==> cachedGaps == FreshGaps(Facts()) && cachedConsumers == FreshConsumers(Facts())
    }

    /** The chain registry is sound, and chains are due a sync whenever the cache is due a rebuild. */
    ghost predicate Sound()
      reads `chains, `activeChainIds, `nextChainId, `gapCacheDirty, `chainsDirty
    {
      RegistryOk(Registered()) && (gapCacheDirty ==> chainsDirty)
    }

    /** What holds between calls. While anything is claimed, cache and chains are up to date. */
    ghost predicate Valid()
      reads this
    {
      Coherent() && Sound() && (chainsDirty ==> claims == [])
    }

    /** Every active chain shows the figures of a gap that has demand. */
    ghost predicate ChainsShowGaps()
      reads `actors, `markets, `credits, `claims, `nextLeaseId, `chains
    {
      ShowGaps(chains, Facts())
    }

    /** Every blocker row stands for demand that is neither supplied nor promised. */
    ghost predicate BlockersStand()
      reads `actors, `markets, `credits, `claims, `nextLeaseId, `gapBlockers
    {
      NeedStands(gapBlockers.Keys, Facts())
    }

    ghost predicate UpToDate()
      reads `actors, `markets, `credits, `claims, `nextLeaseId, `chains, `gapBlockers
    {
      ChainsShowGaps() && BlockersStand()
    }

    /** What is overdue now leaves the cache dirty once it has lapsed. */
    ghost predicate DirtyOnceExpired(now: nat)
      reads `claims, `chains, `gapCacheDirty
    {
      DirtyAfterExpiry(claims, chains, now, gapCacheDirty)
    }

    /** A call made now will sync the chains before it does anything else. */
    ghost predicate DueSync(now: nat)
      reads `claims, `chainsDirty
    {
      chainsDirty || Expired(claims, now) != claims
    }

    constructor ()
      ensures Valid() && UpToDate() && Facts() == EmptyBook() && Registered() == Registry([], map[], 1)
    {
      actors, markets, credits, claims := map[], map[], map[], [];
      chains, activeChainIds, gapBlockers := [], map[], map[];
      cachedGaps, cachedConsumers, gapCacheDirty, chainsDirty := map[], map[], true, true;
      nextLeaseId, nextChainId, generation := 1, 1, 0;
    }

    // ----- the gap cache

    method InvalidateGapCache()
      modifies `gapCacheDirty, `chainsDirty
      ensures gapCacheDirty && chainsDirty && Coherent()
      ensures old(Sound()) ==> Sound()
    {
      gapCacheDirty, chainsDirty := true, true;
    }

    method CalculateGaps()
      requires Coherent()
      modifies `cachedGaps, `cachedConsumers, `gapCacheDirty
      ensures Coherent() && !gapCacheDirty
      ensures old(!gapCacheDirty) ==> unchanged(this)
    {
      if gapCacheDirty {
        cachedGaps, cachedConsumers := Rebuild(Book(actors, markets, credits, claims, nextLeaseId));
        gapCacheDirty := false;
      }
    }

    method GapAt(key: GapKey) returns (totals: GapTotals)
      requires Coherent()
      modifies `cachedGaps, `cachedConsumers, `gapCacheDirty
      ensures Coherent() && !gapCacheDirty
      ensures old(!gapCacheDirty) ==> unchanged(this)
      ensures totals == TotalsAt(Facts(), key)
    {
      CalculateGaps();
      RowIsTotal(Facts(), key);
      totals := At(cachedGaps, key);
    }

    // ----- chains

    method AppendChainEvent(i: nat, event: ChainEvent)
      requires Sound() && i < |chains|
      modifies `chains
      ensures Sound() && chains == old(chains)[i := Append(old(chains)[i], event)]
    {
      AppendKeepsHistory(chains[i], event);
      ReplaceKeepsRegistry(Registered(), i, Append(chains[i], event));
      hide RegistryOk, Append;
      chains := chains[i := Append(chains[i], event)];
    }

    /** The chain of the claim, if there is one, has been told of it and of what its gap still needs. */
    ghost predicate Tells(before: seq<Chain>, claim: Claim, stage: Stage, outcome: ChainOutcome, now: nat)
      reads `actors, `markets, `credits, `claims, `nextLeaseId, `chains
    {
      chains == Told(before, claim, stage, outcome, now, Bounded(UnclaimedNeed(TotalsAt(Facts(), claim.Key()))))
    }

    method TellChain(claim: Claim, stage: Stage, outcome: ChainOutcome, now: nat)
      requires Coherent() && Sound() && Enrolled(claim, chains)
      modifies `chains, `cachedGaps, `cachedConsumers, `gapCacheDirty
      ensures Coherent() && Sound() && !gapCacheDirty && Tells(old(chains), claim, stage, outcome, now)
    {
      hide RegistryOk, FreshGaps, FreshConsumers, TotalsAt, Append, Coherent, ClaimEvent;
      var i := Find(chains, claim.terms.chain.value);
      var totals := GapAt(claim.Key());
      AppendChainEvent(i, ClaimEvent(claim, stage, outcome, now, Bounded(UnclaimedNeed(totals))));
    }

    method AppendClaimEvent(claim: Claim, stage: Stage, outcome: ChainOutcome, now: nat)
      requires Coherent() && Sound()
      modifies `chains, `cachedGaps, `cachedConsumers, `gapCacheDirty
      ensures Coherent() && Sound() && Tells(old(chains), claim, stage, outcome, now)
      ensures gapCacheDirty <==> old(gapCacheDirty) && !Enrolled(claim, old(chains))
    {
      hide RegistryOk, FreshGaps, FreshConsumers, TotalsAt, Append, Coherent, Sound, ClaimEvent;
      if Enrolled(claim, chains) {
        TellChain(claim, stage, outcome, now);
      }
    }

    // ----- settling claims

    method ApplyOutcome(i: nat, outcome: Outcome, committed: uint32, now: nat) returns (changed: bool)
      requires Sound() && i < |claims|
      modifies `claims, `chains, `cachedGaps, `cachedConsumers, `gapCacheDirty, `chainsDirty
      ensures Sound()
      ensures claims == old(claims)[i := Settle(old(claims)[i], outcome, committed, now)]
      ensures changed <==> claims[i] != old(claims)[i]
      ensures changed ==> Coherent() && chainsDirty
      ensures changed ==> Tells(old(chains), claims[i], StageOf(outcome), ChainOutcomeOf(outcome), now)
      ensures changed ==> (gapCacheDirty <==> !Enrolled(claims[i], old(chains)))
      ensures !changed ==> unchanged(this)
      ensures Alike(old(chains), chains)
    {
      hide Enrolled, RegistryOk, FreshGaps, FreshConsumers, TotalsAt, Told, Alike;
      SameIsAlike(chains);
      var prior := claims[i];
      var claim := prior.(committed := Max(prior.committed, Min(committed, prior.quantity)), lastOutcome := outcome);
      if prior.state.Leased? && !outcome.Committed? {
        var bridgesSupply := !claim.terms.kind.Purchase? && !outcome.Completed? && !outcome.InventoryReceived?;
        claim := claim.(settledAt := now, bridged := if bridgesSupply then claim.committed else 0);
      }
      var stage, chainOutcome := Commit, Progress;
      match outcome {
        case Committed =>
        case Completed =>
          claim := claim.(committed := claim.quantity, state := ClaimState.Completed);
          stage := Deliver;
        case InventoryReceived =>
          claim := claim.(state := ClaimState.Released);
          stage := Deliver;
        case FailedTravel | FailedPurchase | CapabilityLost =>
          claim := claim.(state := ClaimState.Released);
          stage, chainOutcome := Release, Failed;
        case NeedChanged | LoggedOut | Disabled =>
          claim := claim.(state := ClaimState.Released);
          stage, chainOutcome := Release, ChainOutcome.Released;
      }
      assert claim == Settle(prior, outcome, committed, now);
      changed := prior.committed != claim.committed || prior.state != claim.state || prior.lastOutcome != claim.lastOutcome ||
                 prior.settledAt != claim.settledAt || prior.bridged != claim.bridged;
      if changed {
        claims := claims[i := claim];
        InvalidateGapCache();
        ghost var before := chains;
        AppendClaimEvent(claim, stage, chainOutcome, now);
        ToldIsAlike(before, claim, stage, chainOutcome, now, Bounded(UnclaimedNeed(TotalsAt(Facts(), claim.Key()))));
      } else {
        assert claims[i := claim] == claims;
      }
    }

    /** Settles every lease that is overdue. */
    method LapseLocked(now: nat) returns (changed: bool)
      requires Sound()
      modifies `claims, `chains, `cachedGaps, `cachedConsumers, `gapCacheDirty, `chainsDirty
      ensures Sound() && claims == Lapsed(old(claims), now)
      ensures changed <==> claims != old(claims)
      ensures changed ==> Coherent() && chainsDirty
      ensures !changed ==> unchanged(this)
      ensures Alike(old(chains), chains)
      ensures gapCacheDirty <==> DirtyAfterLapse(old(claims), old(chains), now, old(gapCacheDirty), |old(claims)|)
    {
      hide Enrolled, RegistryOk, FreshGaps, FreshConsumers, TotalsAt, Tells, Alike, Settle, Coherent, Sound;
      changed := false;
      SameIsAlike(chains);
      ghost var before := claims;
      for i := 0 to |claims|
        invariant |claims| == |before| && Sound() && Alike(old(chains), chains)
        invariant forall j | 0 <= j < i :: claims[j] == Lapse(before[j], now)
        invariant forall j | i <= j < |claims| :: claims[j] == before[j]
        invariant changed ==> Coherent() && chainsDirty && exists j :: 0 <= j < i && claims[j] != before[j]
        invariant !changed ==> unchanged(this)
        invariant gapCacheDirty <==> DirtyAfterLapse(before, old(chains), now, old(gapCacheDirty), i)
      {
        if claims[i].state.Leased? && claims[i].expiresAt != 0 && claims[i].expiresAt <= now {
          LapseChanges(before[i], now);
          AlikeEnrolls(old(chains), chains, before[i], Lapse(before[i], now));
          ghost var told := chains;
          var settled := ApplyOutcome(i, NeedChanged, claims[i].committed, now);
          AlikeTransitive(old(chains), told, chains);
          changed := settled || changed;
        }
      }
      assert claims == Lapsed(before, now);
    }

    method ExpireLocked(now: nat, advanceGeneration: bool) returns (changed: bool)
      requires Sound()
      modifies `claims, `chains, `cachedGaps, `cachedConsumers, `gapCacheDirty, `chainsDirty, `generation
      ensures Sound() && claims == Expired(old(claims), now)
      ensures changed <==> claims != old(claims)
      ensures changed ==> Coherent() && chainsDirty
      ensures !changed ==> unchanged(this)
      ensures generation == old(generation) + if changed && advanceGeneration then 1 else 0
      ensures Alike(old(chains), chains)
      ensures gapCacheDirty <==> DirtyAfterExpiry(old(claims), old(chains), now, old(gapCacheDirty))
    {
      hide RegistryOk, FreshGaps, FreshConsumers, TotalsAt, Alike, Lapsed, Kept, DirtyAfterLapse, Coherent, Sound;
      LapsedLength(claims, now);
      changed := LapseLocked(now);
      KeptSame(claims, now);
      var kept := Kept(claims, now);
      if |kept| < |claims| {
        claims := kept;
        InvalidateGapCache();
        changed := true;
      }
      if changed && advanceGeneration {
        generation := generation + 1;
      }
    }

    method InvalidateActorLocked(guid: uint32, outcome: Outcome, now: nat) returns (changed: bool)
      requires Sound()
      modifies `claims, `chains, `cachedGaps, `cachedConsumers, `gapCacheDirty, `chainsDirty
      ensures Sound() && claims == ActorReleased(old(claims), guid, outcome, now)
      ensures changed <==> claims != old(claims)
      ensures changed ==> Coherent() && chainsDirty
      ensures !changed ==> unchanged(this)
      ensures Alike(old(chains), chains)
    {
      hide Enrolled, RegistryOk, FreshGaps, FreshConsumers, TotalsAt, Tells, Alike, Settle;
      changed := false;
      SameIsAlike(chains);
      ghost var before := claims;
      for i := 0 to |claims|
        invariant |claims| == |before| && Sound() && Alike(old(chains), chains)
        invariant forall j | 0 <= j < i :: claims[j] == ReleaseOne(before[j], before[j].terms.actor == guid, outcome, now)
        invariant forall j | i <= j < |claims| :: claims[j] == before[j]
        invariant changed ==> Coherent() && chainsDirty && exists j :: 0 <= j < i && claims[j] != before[j]
        invariant !changed ==> unchanged(this)
      {
        if claims[i].terms.actor == guid && claims[i].state.Leased? {
          ghost var told := chains;
          var settled := ApplyOutcome(i, outcome, claims[i].committed, now);
          AlikeTransitive(old(chains), told, chains);
          changed := settled || changed;
        }
      }
    }

    method ReleaseSpeculationLocked(key: GapKey, now: nat) returns (changed: bool)
      requires Sound()
      modifies `claims, `chains, `cachedGaps, `cachedConsumers, `gapCacheDirty, `chainsDirty
      ensures Sound() && claims == SpeculationReleased(old(claims), key, now)
      ensures changed <==> claims != old(claims)
      ensures changed ==> Coherent() && chainsDirty
      ensures !changed ==> unchanged(this)
      ensures Alike(old(chains), chains)
    {
      hide Enrolled, RegistryOk, FreshGaps, FreshConsumers, TotalsAt, Tells, Alike, Settle;
      changed := false;
      SameIsAlike(chains);
      ghost var before := claims;
      for i := 0 to |claims|
        invariant |claims| == |before| && Sound() && Alike(old(chains), chains)
        invariant forall j | 0 <= j < i ::
                    claims[j] == ReleaseOne(before[j], before[j].Key() == key && before[j].terms.priority.Speculation?, NeedChanged, now)
        invariant forall j | i <= j < |claims| :: claims[j] == before[j]
        invariant changed ==> Coherent() && chainsDirty && exists j :: 0 <= j < i && claims[j] != before[j]
        invariant !changed ==> unchanged(this)
      {
        if claims[i].Key() == key && claims[i].terms.priority.Speculation? && claims[i].state.Leased? {
          ghost var told := chains;
          var settled := ApplyOutcome(i, NeedChanged, claims[i].committed, now);
          AlikeTransitive(old(chains), told, chains);
          changed := settled || changed;
        }
      }
    }

    // ----- trimming

    method ReleaseNewestLocked(key: GapKey, speculative: bool, releasable: nat, now: nat)
      requires Sound() && Coherent() && chainsDirty
      modifies `claims, `chains, `cachedGaps, `cachedConsumers, `gapCacheDirty, `chainsDirty
      ensures Sound() && Coherent() && chainsDirty
      ensures claims == ReleaseNewest(old(claims), |old(claims)|, key, speculative, releasable, now)
      ensures Alike(old(chains), chains)
    {
      hide Enrolled, RegistryOk, FreshGaps, FreshConsumers, TotalsAt, Tells, Alike, Settle;
      SameIsAlike(chains);
      var excess: nat := releasable;
      var n: nat := |claims|;
      while n > 0 && excess > 0
        invariant n <= |claims| && |claims| == |old(claims)|
        invariant Sound() && Coherent() && chainsDirty && Alike(old(chains), chains)
        invariant ReleaseNewest(claims, n, key, speculative, excess, now) ==
                  ReleaseNewest(old(claims), |old(claims)|, key, speculative, releasable, now)
        decreases n
      {
        n := n - 1;
        var claim := claims[n];
        if Selected(claim, key, speculative) {
          ghost var told := chains;
          var settled := ApplyOutcome(n, NeedChanged, claim.committed, now);
          AlikeTransitive(old(chains), told, chains);
          excess := Minus(excess, claim.quantity);
        }
      }
    }

    /** Takes part of what is not committed off a claim, or settles it when nothing of that is wanted. */
    method CutLocked(o: nat, reduction: uint32, now: nat)
      requires Sound() && Coherent() && chainsDirty && o < |claims| && reduction <= Transferable(claims[o])
      modifies `claims, `chains, `cachedGaps, `cachedConsumers, `gapCacheDirty, `chainsDirty
      ensures Sound() && Coherent() && chainsDirty
      ensures claims == old(claims)[o := Cut(old(claims)[o], reduction, now)]
      ensures Alike(old(chains), chains)
    {
      hide Enrolled, RegistryOk, FreshGaps, FreshConsumers, TotalsAt, Tells, Alike, Settle;
      SameIsAlike(chains);
      var claim := claims[o];
      if reduction < Transferable(claim) {
        claims := claims[o := claim.(quantity := claim.quantity - reduction)];
        InvalidateGapCache();
      } else {
        if claim.committed != 0 {
          claims := claims[o := claim.(quantity := claim.committed)];
          InvalidateGapCache();
        }
        var settled := ApplyOutcome(o, NeedChanged, claim.committed, now);
      }
    }

    method ShrinkLocked(key: GapKey, unneeded: nat, now: nat)
      requires Sound() && Coherent() && chainsDirty
      modifies `claims, `chains, `cachedGaps, `cachedConsumers, `gapCacheDirty, `chainsDirty
      ensures Sound() && Coherent() && chainsDirty
      ensures claims == Shrink(old(claims), StableOrder(old(claims), key, |old(claims)|), unneeded, now)
      ensures Alike(old(chains), chains)
    {
      hide Enrolled, RegistryOk, FreshGaps, FreshConsumers, TotalsAt, Tells, Alike, Cut, Insert, Coherent, Sound;
      var order: seq<nat> := [];
      for i := 0 to |claims|
        invariant order == StableOrder(claims, key, i)
      {
        if Trimmable(claims[i], key) {
          order := Insert(claims, order, i);
        }
      }
      ghost var before := claims;
      SameIsAlike(chains);
      var excess: nat := unneeded;
      var m: nat := 0;
      assert order[0..] == order;
      while m < |order| && excess > 0
        invariant 0 <= m <= |order| && |claims| == |before| && Indices(order, claims)
        invariant Sound() && Coherent() && chainsDirty && Alike(old(chains), chains)
        invariant Shrink(claims, order[m..], excess, now) == Shrink(before, order, unneeded, now)
        decreases |order| - m
      {
        var o := order[m];
        var claim := claims[o];
        assert order[m..][1..] == order[m + 1..];
        if Transferable(claim) > 0 {
          var reduction: uint32 := Min(Transferable(claim), excess);
          ghost var told := chains;
          CutLocked(o, reduction, now);
          AlikeTransitive(old(chains), told, chains);
          excess := excess - reduction;
        }
        m := m + 1;
      }
    }

    method TrimKeyLocked(key: GapKey, totals: GapTotals, now: nat)
      requires Sound() && Coherent() && chainsDirty
      modifies `claims, `chains, `cachedGaps, `cachedConsumers, `gapCacheDirty, `chainsDirty
      ensures Sound() && Coherent() && chainsDirty
      ensures claims == TrimKey(old(claims), key, totals, now)
      ensures Alike(old(chains), chains)
    {
      hide Alike, RegistryOk, FreshGaps, FreshConsumers, ReleaseNewest, Shrink, StableOrder;
      var purchaseNeed := PurchaseNeed(totals);
      var speculationCapacity := Minus(totals.auction, purchaseNeed);
      ReleaseNewestLocked(key, true, Minus(totals.speculation, speculationCapacity), now);
      ghost var first := chains;
      var purchaseCapacity := Min(purchaseNeed, totals.auction);
      ReleaseNewestLocked(key, false, Minus(totals.purchase, purchaseCapacity), now);
      AlikeTransitive(old(chains), first, chains);
      ghost var second := chains;
      var needed := Minus(totals.demand, totals.supply);
      ShrinkLocked(key, Minus(totals.claimed, needed), now);
      AlikeTransitive(old(chains), second, chains);
    }

    method ReleaseExcessClaims(now: nat)
      requires Sound() && Coherent() && chainsDirty
      modifies `claims, `chains, `cachedGaps, `cachedConsumers, `gapCacheDirty, `chainsDirty
      ensures Sound() && Coherent() && chainsDirty
      ensures claims == Trimmed(old(Facts()), now)
      ensures Alike(old(chains), chains)
    {
      hide Alike, RegistryOk, FreshConsumers, FreshGaps, TrimKey, TrimKeys, TotalsAt, Touched, AscendingKeys, FirstKey;
      ghost var before := Facts();
      SameIsAlike(chains);
      CalculateGaps();
      var gaps := cachedGaps;
      FreshGapsKeys(before);
      var todo := gaps.Keys;
      ghost var done: seq<GapKey> := [];
      TrimNothing(before.claims, gaps, now);
      assert [] + AscendingKeys(todo) == AscendingKeys(todo);
      while todo != {}
        invariant Sound() && Coherent() && chainsDirty && Alike(old(chains), chains)
        invariant todo <= gaps.Keys && (forall k | k in done :: k in gaps)
        invariant done + AscendingKeys(todo) == AscendingKeys(gaps.Keys)
        invariant claims == TrimKeys(before.claims, done, gaps, now)
      {
        FirstKeyExists(todo);
        var key :| key in todo && FirstKey(key, todo);
        VisitFirst(done, key, todo);
        TrimKeysNext(before.claims, done, key, gaps, now);
        ghost var told := chains;
        TrimKeyLocked(key, gaps[key], now);
        AlikeTransitive(old(chains), told, chains);
        todo := todo - {key};
        done := done + [key];
      }
      NothingLeft(done);
    }

    // ----- keeping chains in step with gaps

    method MakeRoom() returns (room: bool)
      requires Sound()
      modifies `chains
      ensures Sound() && (room <==> !Full(old(chains)))
      ensures chains == if room then Roomy(old(chains)) else old(chains)
    {
      hide HistoryOk;
      room := true;
      if |chains| >= CHAIN_CAPACITY {
        var removable := FirstInactive(chains);
        if removable == |chains| {
          room := false;
        } else {
          EvictKeepsRegistry(Registered(), removable);
          hide RegistryOk;
          chains := Without(chains, removable);
        }
      }
    }

    method StartChain(key: GapKey, now: nat) returns (id: nat)
      modifies `chains, `activeChainIds, `nextChainId
      ensures id == old(nextChainId) && Registered() == Entered(old(Registered()), Started(id, key, now))
    {
      hide Started;
      StartedKey(nextChainId, key, now);
      id := nextChainId;
      chains := chains + [Started(id, key, now)];
      activeChainIds := activeChainIds[key := id];
      nextChainId := nextChainId + 1;
    }

    /** The chain of a key. A key with demand and without a chain is given one while there is room: it
        has none afterwards exactly if it had none and has no demand, or all 256 chains are active. */
    method EnsureChain(key: GapKey, now: nat, hasDemand: bool) returns (chain: Option<nat>)
      requires Sound()
      modifies `chains, `activeChainIds, `nextChainId
      ensures Sound()
      ensures Registered() == Ensured(old(Registered()), key, now, hasDemand)
      ensures chain == Offer(old(Registered()), key, hasDemand)
      ensures chain.None? <==> key !in old(activeChainIds) && (!hasDemand || Full(old(chains)))
    {
      EnsuredIsOk(Registered(), key, now, hasDemand);
      hide RegistryOk, HistoryOk, Started, Roomy, Full, Entered;
      chain := None;
      if key in activeChainIds {
        chain := Some(activeChainIds[key]);
      } else if hasDemand {
        var room := MakeRoom();
        if room {
          var id := StartChain(key, now);
          chain := Some(id);
        }
      }
    }

    method ShowChain(key: GapKey, now: nat)
      requires Sound() && key in cachedGaps
      modifies `chains
      ensures Sound()
      ensures Registered() == Shown(old(Registered()), key, cachedGaps[key], ConsumersAt(cachedConsumers, key), now)
    {
      ShownIsOk(Registered(), key, cachedGaps[key], ConsumersAt(cachedConsumers, key), now);
      hide Synced, RegistryOk;
      if key in activeChainIds {
        FindActive(Registered(), key);
        var i := Find(chains, activeChainIds[key]);
        chains := chains[i := Synced(chains[i], cachedGaps[key], ConsumersAt(cachedConsumers, key), now)];
      }
    }

    method UpdateChain(key: GapKey, now: nat)
      requires Sound() && key in cachedGaps
      modifies `chains, `activeChainIds, `nextChainId
      ensures Sound()
      ensures Registered() == Updated(old(Registered()), key, cachedGaps[key], ConsumersAt(cachedConsumers, key), now)
    {
      hide RegistryOk, Shown, Ensured, Full;
      var id := EnsureChain(key, now, true);
      ShowChain(key, now);
    }

    method CloseChain(key: GapKey, now: nat)
      requires Sound() && key in activeChainIds
      modifies `chains, `activeChainIds
      ensures Sound() && Registered() == ClosedAt(old(Registered()), key, now)
    {
      ClosedAtEffect(Registered(), key, now);
      FindActive(Registered(), key);
      hide Closed, HistoryOk, RegistryOk;
      var i := Find(chains, activeChainIds[key]);
      chains := chains[i := Closed(chains[i], now)];
      activeChainIds := activeChainIds - {key};
    }

    /** One key of the sync: its chain is brought up to date if it has demand. */
    method SyncKey(key: GapKey, now: nat, demandKeys: set<GapKey>) returns (grown: set<GapKey>)
      requires Sound() && key in cachedGaps
      modifies `chains, `activeChainIds, `nextChainId
      ensures Sound()
      ensures Registered() == if Demanded(cachedGaps, key)
                              then Updated(old(Registered()), key, cachedGaps[key], ConsumersAt(cachedConsumers, key), now)
                              else old(Registered())
      ensures grown == if Demanded(cachedGaps, key) then demandKeys + {key} else demandKeys
    {
      hide RegistryOk, Updated;
      grown := demandKeys;
      if cachedGaps[key].demand > 0 {
        UpdateChain(key, now);
        grown := demandKeys + {key};
      }
    }

    method SyncDemandedChains(now: nat) returns (demandKeys: set<GapKey>)
      requires Sound()
      modifies `chains, `activeChainIds, `nextChainId
      ensures Sound()
      ensures Registered() == UpdatedAll(old(Registered()), AscendingKeys(cachedGaps.Keys), cachedGaps, cachedConsumers, now)
      ensures forall k :: k in demandKeys <==> Demanded(cachedGaps, k)
    {
      hide RegistryOk, Sound, Updated, UpdatedAll, AscendingKeys, FirstKey;
      demandKeys := {};
      var todo := cachedGaps.Keys;
      ghost var done: seq<GapKey> := [];
      NothingUpdated(Registered(), cachedGaps, cachedConsumers, now);
      assert [] + AscendingKeys(todo) == AscendingKeys(todo);
      while todo != {}
        invariant Sound() && todo <= cachedGaps.Keys
        invariant done + AscendingKeys(todo) == AscendingKeys(cachedGaps.Keys)
        invariant Registered() == UpdatedAll(old(Registered()), done, cachedGaps, cachedConsumers, now)
        invariant forall k :: k in demandKeys <==> Demanded(cachedGaps, k) && k !in todo
      {
        FirstKeyExists(todo);
        var key :| key in todo && FirstKey(key, todo);
        VisitFirst(done, key, todo);
        UpdatedAllNext(old(Registered()), done, key, cachedGaps, cachedConsumers, now);
        demandKeys := SyncKey(key, now, demandKeys);
        todo := todo - {key};
        done := done + [key];
      }
      NothingLeft(done);
    }

    method CloseSettledChains(demandKeys: set<GapKey>, now: nat)
      requires Sound()
      modifies `chains, `activeChainIds
      ensures Sound()
      ensures Registered() == ClosedAll(old(Registered()), AscendingKeys(old(activeChainIds.Keys) - demandKeys), now)
    {
      hide RegistryOk, ClosedAt, AscendingKeys, FirstKey, Closed;
      var settled := activeChainIds.Keys - demandKeys;
      ghost var all := settled;
      ghost var done: seq<GapKey> := [];
      assert [] + AscendingKeys(settled) == AscendingKeys(settled);
      while settled != {}
        invariant Sound() && settled <= activeChainIds.Keys
        invariant done + AscendingKeys(settled) == AscendingKeys(all)
        invariant Registered() == ClosedAll(old(Registered()), done, now)
      {
        FirstKeyExists(settled);
        var key :| key in settled && FirstKey(key, settled);
        VisitFirst(done, key, settled);
        ClosedAllNext(old(Registered()), done, key, now);
        ClosedAtEffect(Registered(), key, now);
        CloseChain(key, now);
        settled := settled - {key};
        done := done + [key];
      }
      NothingLeft(done);
    }

    /** The blocker rows whose gap still has demand that is neither supplied nor promised. */
    ghost function Standing(rows: map<GapKey, BlockerRow>): map<GapKey, BlockerRow>
      reads `actors, `markets, `credits, `claims, `nextLeaseId
    {
      map k | k in rows && UnclaimedNeed(TotalsAt(Facts(), k)) > 0 :: rows[k]
    }

    method SyncRegistry(now: nat)
      requires Sound()
      modifies `chains, `activeChainIds, `nextChainId
      ensures Sound() && Registered() == SyncedRegistry(old(Registered()), cachedGaps, cachedConsumers, now)
    {
      hide RegistryOk, UpdatedAll, ClosedAll, AscendingKeys;
      var demandKeys := SyncDemandedChains(now);
      assert activeChainIds.Keys - demandKeys == Settled(Registered(), cachedGaps);
      CloseSettledChains(demandKeys, now);
    }

    method SyncDirtyChains(now: nat)
      requires Coherent() && Sound() && chainsDirty
      modifies `chains, `activeChainIds, `nextChainId, `gapBlockers, `chainsDirty, `cachedGaps, `cachedConsumers, `gapCacheDirty
      ensures Coherent() && Sound() && !chainsDirty && !gapCacheDirty
      ensures Registered() == SyncedRegistry(old(Registered()), FreshGaps(Facts()), FreshConsumers(Facts()), now)
      ensures gapBlockers == Standing(old(gapBlockers)) && UpToDate()
    {
      hide RegistryOk, TotalsAt, FreshGaps, FreshConsumers, SyncedRegistry, ShowGaps, BlockersStand, Standing;
      CalculateGaps();
      PruneBlockers();
      SyncShowsGaps(Registered(), Facts(), now);
      SyncRegistry(now);
      chainsDirty := false;
    }

    method SyncChains(now: nat)
      requires Coherent() && Sound()
      modifies `chains, `activeChainIds, `nextChainId, `gapBlockers, `chainsDirty, `cachedGaps, `cachedConsumers, `gapCacheDirty
      ensures Coherent() && Sound() && !chainsDirty && !gapCacheDirty
      ensures old(!chainsDirty) ==> unchanged(this)
      ensures old(chainsDirty) ==>
                && Registered() == SyncedRegistry(old(Registered()), FreshGaps(Facts()), FreshConsumers(Facts()), now)
                && gapBlockers == Standing(old(gapBlockers)) && UpToDate()
    {
      hide RegistryOk, TotalsAt, FreshGaps, FreshConsumers, SyncedRegistry, UpToDate, Standing, Coherent;
      if chainsDirty {
        SyncDirtyChains(now);
      }
    }

    method PruneBlockers()
      requires Coherent() && !gapCacheDirty
      modifies `gapBlockers
      ensures gapBlockers == Standing(old(gapBlockers)) && BlockersStand()
    {
      hide TotalsAt, FreshGaps, FreshConsumers;
      RowsAreTotals(Facts());
      gapBlockers := map k | k in gapBlockers && UnclaimedNeed(At(cachedGaps, k)) > 0 :: gapBlockers[k];
    }

    /** Capability blockers are re-judged against the current gaps; only the reading of the gaps is
        modelled. */
    method ReconcileCapabilityBlockers()
      requires Coherent()
      modifies `cachedGaps, `cachedConsumers, `gapCacheDirty
      ensures Coherent() && !gapCacheDirty
      ensures old(!gapCacheDirty) ==> unchanged(this)
    {
      CalculateGaps();
    }

    // ----- public calls

    /** The prologue shared by the calls that read or extend the book: expiry and a sync. */
    method Catchup(now: nat)
      requires Valid()
      modifies this
      ensures Coherent() && Sound() && !chainsDirty && Facts() == Tick(old(Facts()), now)
      ensures generation >= old(generation)
      ensures generation == old(generation) ==> Facts() == old(Facts())
      ensures generation == old(generation) && old(!chainsDirty) ==> unchanged(this)
      ensures if old(DueSync(now)) then UpToDate() && Follows(old(Registered()), Registered(), Facts(), now) else unchanged(this)
    {
      hide DirtyAfterExpiry, RegistryOk, FreshGaps, FreshConsumers, Expired, UpToDate, Alike, Follows, TotalsAt,
        SyncedRegistry, Standing;
      var expired := ExpireLocked(now, true);
      SyncFollows(old(Registered()), chains, Facts(), now);
      SyncChains(now);
      if expired {
        ReconcileCapabilityBlockers();
      }
    }

    /** Chains and blockers follow once the book has changed. `before` is the registry at the start of
        the call; its chains may have been told of claims since. */
    method Follow(now: nat, ghost before: Registry)
      requires Coherent() && Sound() && Alike(before.chains, chains) && before.(chains := chains) == Registered()
      modifies `chains, `activeChainIds, `nextChainId, `gapBlockers, `chainsDirty, `cachedGaps, `cachedConsumers, `gapCacheDirty
      ensures Coherent() && Sound() && !chainsDirty && !gapCacheDirty
      ensures old(!chainsDirty) ==> unchanged(this)
      ensures old(chainsDirty) ==> UpToDate() && Follows(before, Registered(), Facts(), now) && gapBlockers == Standing(old(gapBlockers))
    {
      hide RegistryOk, FreshGaps, FreshConsumers, TotalsAt, UpToDate, SyncedRegistry, Alike, Follows, Coherent;
      SyncFollows(before, chains, Facts(), now);
      SyncChains(now);
      ReconcileCapabilityBlockers();
    }

    method EraseCredits(guid: uint32) returns (erased: bool)
      modifies `credits
      ensures credits == old(credits) - {guid}
      ensures erased <==> guid in old(credits)
      ensures !erased ==> unchanged(this)
    {
      erased := guid in credits;
      if erased {
        credits := credits - {guid};
      } else {
        assert credits - {guid} == credits;
      }
    }

    method Expire(now: nat)
      requires Valid()
      modifies this
      ensures Valid() && Facts() == Tick(old(Facts()), now)
      ensures generation >= old(generation)
      ensures generation == old(generation) ==> unchanged(this)
      ensures generation > old(generation) ==> UpToDate() && Follows(old(Registered()), Registered(), Facts(), now)
    {
      hide DirtyAfterExpiry, RegistryOk, FreshGaps, FreshConsumers, Expired, Coherent, Sound, UpToDate, Alike,
        Follows, TotalsAt, Standing;
      var expired := ExpireLocked(now, true);
      if expired {
        Follow(now, old(Registered()));
      }
    }

    /** Forgets an actor's credits and releases what it holds. */
    method DropActor(guid: uint32, outcome: Outcome, now: nat) returns (changed: bool)
      requires Sound()
      modifies `credits, `claims, `chains, `cachedGaps, `cachedConsumers, `gapCacheDirty, `chainsDirty
      ensures Sound() && Facts() == Steps.InvalidateActor(old(Facts()), guid, outcome, now)
      ensures if changed then Coherent() && chainsDirty else unchanged(this)
      ensures Alike(old(chains), chains)
    {
      hide RegistryOk, FreshGaps, FreshConsumers, ActorReleased, Coherent, Sound, Alike, TotalsAt;
      var creditChanged := EraseCredits(guid);
      var claimsChanged := InvalidateActorLocked(guid, outcome, now);
      if creditChanged {
        InvalidateGapCache();
      }
      changed := creditChanged || claimsChanged;
    }

    method InvalidateActor(guid: uint32, outcome: Outcome, now: nat)
      requires Valid()
      modifies this
      ensures Valid() && Facts() == Steps.InvalidateActor(old(Facts()), guid, outcome, now)
      ensures generation >= old(generation)
      ensures generation == old(generation) ==> unchanged(this)
      ensures generation > old(generation) ==> UpToDate() && Follows(old(Registered()), Registered(), Facts(), now)
    {
      hide RegistryOk, FreshGaps, FreshConsumers, Steps.InvalidateActor, Coherent, Sound, UpToDate, Alike, Follows,
        TotalsAt, Standing;
      var changed := DropActor(guid, outcome, now);
      if changed {
        Follow(now, old(Registered()));
        generation := generation + 1;
      }
    }

    /** What a progress report does before the chains follow. */
    method SettleReport(leaseId: nat, outcome: Outcome, committed: uint32, now: nat) returns (applied: bool, changed: bool)
      requires Sound()
      modifies `claims, `chains, `cachedGaps, `cachedConsumers, `gapCacheDirty, `chainsDirty, `generation
      ensures Sound() && Facts() == Steps.RecordOutcome(old(Facts()), leaseId, outcome, committed, now)
      ensures applied <==> OpenAt(Tick(old(Facts()), now).claims, leaseId)
      ensures if changed then Coherent() && chainsDirty && generation > old(generation) else unchanged(this)
      ensures Alike(old(chains), chains)
    {
      hide DirtyAfterExpiry, Enrolled, RegistryOk, FreshGaps, FreshConsumers, Expired, Settle, LeaseIndex, Coherent,
        Sound, Alike, TotalsAt, Tells;
      changed := ExpireLocked(now, true);
      var i := LeaseIndex(claims, leaseId);
      applied := i < |claims| && claims[i].state.Leased?;
      if applied {
        ghost var told := chains;
        var settled := ApplyOutcome(i, outcome, committed, now);
        AlikeTransitive(old(chains), told, chains);
        if settled {
          generation := generation + 1;
          changed := true;
        }
      }
    }

    method RecordOutcome(leaseId: nat, outcome: Outcome, committed: uint32, now: nat) returns (applied: bool)
      requires Valid()
      modifies this
      ensures Valid() && Facts() == Steps.RecordOutcome(old(Facts()), leaseId, outcome, committed, now)
      ensures applied <==> OpenAt(Tick(old(Facts()), now).claims, leaseId)
      ensures generation >= old(generation)
      ensures generation == old(generation) ==> unchanged(this)
      ensures generation > old(generation) ==> UpToDate() && Follows(old(Registered()), Registered(), Facts(), now)
    {
      hide RegistryOk, FreshGaps, FreshConsumers, Steps.RecordOutcome, OpenAt, Expired, Coherent, Sound, UpToDate, Alike,
        Follows, TotalsAt, Standing;
      var changed;
      applied, changed := SettleReport(leaseId, outcome, committed, now);
      if changed {
        Follow(now, old(Registered()));
      }
    }

    /** What a report of output does before the chains follow. */
    method SettleOutput(leaseId: nat, produced: uint32, now: nat)
      returns (recorded: bool, completed: bool, committed: uint32, changed: bool)
      requires Sound()
      modifies `claims, `chains, `cachedGaps, `cachedConsumers, `gapCacheDirty, `chainsDirty, `generation
      ensures Sound() && Facts() == RecordOutput(old(Facts()), leaseId, produced, now)
      ensures recorded <==> OutputCounts(Tick(old(Facts()), now), leaseId, produced)
      ensures recorded ==> var claims := Tick(old(Facts()), now).claims;
                           var c := claims[LeaseIndex(claims, leaseId)];
                           committed == ProducedTotal(c, produced) && (completed <==> committed == c.quantity)
      ensures if changed then Coherent() && chainsDirty && generation > old(generation) else unchanged(this)
      ensures Alike(old(chains), chains)
    {
      hide DirtyAfterExpiry, Enrolled, RegistryOk, FreshGaps, FreshConsumers, Expired, Settle, LeaseIndex, Coherent,
        Sound, Alike, TotalsAt, Tells;
      changed := ExpireLocked(now, true);
      var i := LeaseIndex(claims, leaseId);
      recorded := produced != 0 && i < |claims| && claims[i].terms.kind.Production? && claims[i].state.Leased?;
      completed, committed := false, 0;
      if recorded {
        var claim := claims[i];
        committed := Bounded(Min(claim.quantity, claim.committed + produced));
        completed := committed >= claim.quantity;
        ghost var told := chains;
        var settled := ApplyOutcome(i, if completed then Outcome.Completed else Committed, committed, now);
        AlikeTransitive(old(chains), told, chains);
        if settled {
          generation := generation + 1;
          changed := true;
        }
      }
    }

    method RecordProductionOutput(leaseId: nat, produced: uint32, now: nat)
      returns (recorded: bool, completed: bool, committed: uint32)
      requires Valid()
      modifies this
      ensures Valid() && Facts() == RecordOutput(old(Facts()), leaseId, produced, now)
      ensures recorded <==> OutputCounts(Tick(old(Facts()), now), leaseId, produced)
      ensures recorded ==> var claims := Tick(old(Facts()), now).claims;
                           var c := claims[LeaseIndex(claims, leaseId)];
                           committed == ProducedTotal(c, produced) && (completed <==> committed == c.quantity)
      ensures generation >= old(generation)
      ensures generation == old(generation) ==> unchanged(this)
      ensures generation > old(generation) ==> UpToDate() && Follows(old(Registered()), Registered(), Facts(), now)
    {
      hide RegistryOk, FreshGaps, FreshConsumers, RecordOutput, Expired, LeaseIndex, ProducedTotal, Coherent, Sound,
        UpToDate, Alike, Follows, TotalsAt, Standing;
      var changed;
      recorded, completed, committed, changed := SettleOutput(leaseId, produced, now);
      if changed {
        Follow(now, old(Registered()));
      }
    }

    /** Takes in a market's facts, and trims the claims if they changed anything. */
    method TakeMarket(facts: MarketFacts, now: nat) returns (changed: bool)
      requires Sound() && facts.market != 0
      modifies `markets, `claims, `chains, `cachedGaps, `cachedConsumers, `gapCacheDirty, `chainsDirty, `generation
      ensures Sound() && Facts() == Steps.RefreshMarket(old(Facts()), facts, now)
      ensures if changed then Coherent() && chainsDirty && generation > old(generation) else unchanged(this)
      ensures MarketChanges(old(Facts()), facts) ==> changed
      ensures Alike(old(chains), chains)
    {
      hide DirtyAfterExpiry, RegistryOk, FreshGaps, FreshConsumers, Expired, Trimmed, Coherent, Sound, Alike, TotalsAt;
      changed := ExpireLocked(now, true);
      if facts.market in markets && markets[facts.market] == facts {
        return;
      }
      markets := markets[facts.market := facts];
      InvalidateGapCache();
      ghost var told := chains;
      ReleaseExcessClaims(now);
      AlikeTransitive(old(chains), told, chains);
      generation := generation + 1;
      changed := true;
    }

    method RefreshMarket(facts: MarketFacts, now: nat)
      requires Valid()
      modifies this
      ensures Valid() && Facts() == Steps.RefreshMarket(old(Facts()), facts, now)
      ensures generation >= old(generation)
      ensures generation == old(generation) ==> unchanged(this)
      ensures MarketChanges(old(Facts()), facts) ==> generation > old(generation)
      ensures generation > old(generation) ==> UpToDate() && Follows(old(Registered()), Registered(), Facts(), now)
    {
      hide RegistryOk, FreshGaps, FreshConsumers, Expired, Trimmed, Coherent, Sound, UpToDate, Alike, Follows,
        TotalsAt, Standing;
      if facts.market == 0 {
        return;
      }
      var changed := TakeMarket(facts, now);
      if changed {
        Follow(now, old(Registered()));
      }
    }

    /** Spends what the actor reports to hold on the bridges of its released claims, each reported
        unit once. */
    method SpendBridges(facts: ActorFacts) returns (changed: bool)
      modifies `claims
      ensures claims == Bridged(old(claims), facts)
      ensures changed <==> claims != old(claims)
    {
      hide Reported, BridgeTotal, BridgedOne;
      var available: map<Group, nat>;
      available := SumReported(facts.supplies);
      changed := false;
      ghost var before := claims;
      NoBridges(before, facts);
      for i := 0 to |claims|
        invariant |claims| == |before|
        invariant forall j | 0 <= j < i :: claims[j] == BridgedOne(before, j, facts)
        invariant forall j | i <= j < |claims| :: claims[j] == before[j]
        invariant LeftFor(available, before, i, facts)
        invariant changed <==> exists j :: 0 <= j < i && claims[j] != before[j]
      {
        var claim, spent := claims[i], false;
        claim, available, spent := SpendOn(claim, available, facts, before, i);
        claims := claims[i := claim];
        changed := changed || spent;
      }
      AllBridged(before, claims, facts);
    }

    /** Spends what is left of the report on one bridge. */
    static method SpendOn(claim: Claim, available: map<Group, nat>, facts: ActorFacts, ghost before: seq<Claim>, ghost i: nat)
      returns (left: Claim, rest: map<Group, nat>, spent: bool)
      requires i < |before| && before[i] == claim && LeftFor(available, before, i, facts)
      ensures left == BridgedOne(before, i, facts) && LeftFor(rest, before, i + 1, facts)
      ensures spent <==> left != claim
    {
      hide Reported, BridgeTotal;
      left, rest, spent := claim, available, false;
      forall g
        ensures BridgeTotal(before[..i + 1], facts.guid, facts.market, g) ==
                BridgeTotal(before[..i], facts.guid, facts.market, g) + BridgeOf(claim, facts.guid, facts.market, g)
      {
        BridgeTotalNext(before, i, facts.guid, facts.market, g);
      }
      if claim.terms.actor == facts.guid && claim.terms.market == facts.market && claim.state.Released? && claim.bridged != 0 {
        var consumed: uint32 := Min(claim.bridged, Entry(available, claim.terms.group));
        left := claim.(bridged := claim.bridged - consumed);
        rest := available[claim.terms.group := Entry(available, claim.terms.group) - consumed];
        spent := consumed != 0;
      }
    }

    /** What a refresh settles before it looks at the facts: work the actor can no longer do, and
        whatever is overdue. */
    method SettleBeforeFacts(facts: ActorFacts, now: nat) returns (released: bool, expired: bool)
      requires Sound()
      modifies `claims, `chains, `cachedGaps, `cachedConsumers, `gapCacheDirty, `chainsDirty, `generation
      ensures generation == old(generation)
      ensures Sound() && claims == ClaimsSeenByRefresh(old(Facts()), facts, now)
      ensures released || expired ==> Coherent() && chainsDirty
      ensures !released && !expired ==> unchanged(this)
      ensures released ==> facts.guid in actors && actors[facts.guid] != facts
      ensures !released ==> (gapCacheDirty <==> DirtyAfterExpiry(old(claims), old(chains), now, old(gapCacheDirty)))
      ensures Alike(old(chains), chains)
    {
      hide RegistryOk, FreshGaps, FreshConsumers, Expired, ActorReleased, Coherent, Sound, Alike, TotalsAt,
        DirtyAfterExpiry;
      released := false;
      SameIsAlike(chains);
      if facts.guid in actors && ActorInvalidated(actors[facts.guid], facts) {
        released := InvalidateActorLocked(facts.guid, CapabilityLost, now);
      }
      ghost var told := chains;
      expired := ExpireLocked(now, false);
      AlikeTransitive(old(chains), told, chains);
    }

    /** Takes in an actor's facts: credits fall away, lost work is released, bridges are spent. */
    method TakeFacts(facts: ActorFacts, now: nat) returns (matters: bool, expired: bool)
      requires Valid()
      modifies `actors, `credits, `claims, `chains, `cachedGaps, `cachedConsumers, `gapCacheDirty, `chainsDirty, `generation
      ensures generation == old(generation)
      ensures Sound() && Facts() == ActorRefreshed(old(Facts()), facts, now)
      ensures matters <==> RefreshMatters(old(Facts()), facts, now)
      ensures matters ==> gapCacheDirty && chainsDirty
      ensures expired ==> chainsDirty
      ensures Coherent()
      ensures !matters && !expired ==> unchanged(this)
      ensures !matters ==> (gapCacheDirty <==> DirtyAfterExpiry(old(claims), old(chains), now, old(gapCacheDirty)))
      ensures Alike(old(chains), chains)
    {
      hide RegistryOk, FreshGaps, FreshConsumers, Bridged, ClaimsSeenByRefresh, Coherent, Sound, Alike, TotalsAt,
        DirtyAfterExpiry;
      ghost var before := Facts();
      var creditChanged := EraseCredits(facts.guid);
      ghost var erased := Facts();
      SeenIgnoresCredits(before, erased, facts, now);
      var released;
      released, expired := SettleBeforeFacts(facts, now);
      var bridgeChanged := SpendBridges(facts);
      var actorChanged := facts.guid !in actors || actors[facts.guid] != facts;
      if actorChanged {
        actors := actors[facts.guid := facts];
      }
      assert actors == before.actors[facts.guid := facts];
      matters := actorChanged || bridgeChanged || creditChanged;
      if matters {
        InvalidateGapCache();
      }
    }

    lemma SeenIgnoresCredits(b: Book, erased: Book, facts: ActorFacts, now: nat)
      requires erased == b.(credits := erased.credits)
      ensures ClaimsSeenByRefresh(erased, facts, now) == ClaimsSeenByRefresh(b, facts, now)
    {
    }

    /** Takes in an actor's facts and trims the claims if the cache is left dirty. */
    method TakeActor(facts: ActorFacts, now: nat) returns (changed: bool)
      requires Valid() && facts.guid != 0
      modifies `actors, `credits, `claims, `chains, `cachedGaps, `cachedConsumers, `gapCacheDirty, `chainsDirty, `generation
      ensures Coherent() && Sound() && Facts() == Steps.RefreshActor(old(Facts()), facts, now, old(DirtyOnceExpired(now)))
      ensures RefreshMatters(old(Facts()), facts, now) ==> changed
      ensures generation == old(generation) + if changed then 1 else 0
      ensures changed ==> chainsDirty
      ensures !changed ==> Facts() == old(Facts()) && chainsDirty == old(chainsDirty)
      ensures !changed && old(!chainsDirty) ==> unchanged(this)
      ensures Alike(old(chains), chains)
    {
      hide RegistryOk, FreshGaps, FreshConsumers, Trimmed, ActorRefreshed, RefreshMatters, Coherent, Sound, Alike,
        TotalsAt, DirtyAfterExpiry;
      var matters, expired := TakeFacts(facts, now);
      if gapCacheDirty {
        DirtyMeansDue();
        ghost var told := chains;
        ReleaseExcessClaims(now);
        AlikeTransitive(old(chains), told, chains);
      }
      changed := matters || expired;
      if changed {
        generation := generation + 1;
      }
    }

    /** Trims when the facts matter, and also when what expired left the cache dirty. */
    method RefreshActor(facts: ActorFacts, now: nat)
      requires Valid()
      modifies this
      ensures Valid() && Facts() == Steps.RefreshActor(old(Facts()), facts, now, old(DirtyOnceExpired(now)))
      ensures generation >= old(generation)
      ensures generation == old(generation) ==> Facts() == old(Facts())
      ensures generation == old(generation) && old(!chainsDirty) ==> unchanged(this)
      ensures facts.guid != 0 && RefreshMatters(old(Facts()), facts, now) ==> generation > old(generation)
      ensures facts.guid != 0 ==> !chainsDirty
      ensures generation > old(generation) ==> UpToDate() && Follows(old(Registered()), Registered(), Facts(), now)
      ensures old(UpToDate()) ==> UpToDate()
    {
      hide RegistryOk, FreshGaps, FreshConsumers, RefreshMatters, Trimmed, ActorRefreshed, Coherent, Sound, UpToDate,
        Alike, Follows, TotalsAt, Standing, DirtyAfterExpiry;
      if facts.guid == 0 {
        return;
      }
      var changed := TakeActor(facts, now);
      Follow(now, old(Registered()));
    }

    lemma DirtyMeansDue()
      requires Sound()
      ensures gapCacheDirty ==> chainsDirty
    {
    }

    // ----- consumed inputs

    /** Raises the actor's credits towards what its published demand leaves uncovered. */
    method RaiseCredits(guid: uint32, inputs: seq<DemandFact>) returns (raised: map<Group, uint32>, credited: nat)
      requires guid in actors
      ensures raised == RaisedCredits(Facts(), guid, inputs)
      ensures CreditTotal(raised) == CreditTotal(HeldCredits(Facts(), guid)) + credited
      ensures credited == 0 ==> raised == HeldCredits(Facts(), guid)
    {
      hide DemandSum, SupplySum, CreditTotal, RaisedCredits, RaisedAt, InputGroups;
      var demanded := SumDemands(actors[guid].demands);
      var supplied := SumSupplies(actors[guid].supplies);
      var requested := SumDemands(inputs);
      ghost var held := HeldCredits(Facts(), guid);
      raised, credited := if guid in credits then credits[guid] else map[], 0;
      var todo := requested.Keys;
      NoneRaised(Facts(), guid, inputs, todo);
      while todo != {}
        invariant todo <= requested.Keys
        invariant CreditTotal(raised) == CreditTotal(held) + credited
        invariant credited == 0 ==> raised == held
        invariant forall g :: RaisedAt(Facts(), guid, inputs, todo, raised, g)
      {
        var group :| group in todo;
        var prior := if group in raised then raised[group] else 0;
        assert RaisedAt(Facts(), guid, inputs, todo, raised, group);
        PriorCredit(Facts(), guid, inputs, todo, raised, group);
        ghost var before := raised;
        if Entry(demanded, group) > 0 {
          var uncovered := Minus(Entry(demanded, group), Entry(supplied, group));
          var bounded := Bounded(Min(uncovered, prior + Entry(requested, group)));
          if bounded > prior {
            CreditTotalUpdate(raised, group, bounded);
            raised := raised[group := bounded];
            credited := credited + bounded - prior;
          }
        }
        RaisedNext(Facts(), guid, inputs, todo, before, raised, group);
        todo := todo - {group};
      }
      AllRaised(Facts(), guid, inputs, raised);
    }

    method CreditInputs(guid: uint32, inputs: seq<DemandFact>, now: nat) returns (credited: uint32, changed: bool)
      requires Sound()
      modifies `credits, `claims, `chains, `cachedGaps, `cachedConsumers, `gapCacheDirty, `chainsDirty, `generation
      ensures Sound() && Facts() == ConsumeInputs(old(Facts()), guid, inputs, now)
      ensures Credited(old(Facts()), guid, inputs) >= 0 && credited == Bounded(Credited(old(Facts()), guid, inputs))
      ensures if changed then Coherent() && chainsDirty && generation > old(generation) else unchanged(this)
      ensures Alike(old(chains), chains)
    {
      hide DirtyAfterExpiry, RegistryOk, FreshGaps, FreshConsumers, Expired, Coherent, Sound, Alike, TotalsAt,
        CreditTotal, RaisedCredits, HeldCredits;
      ghost var before := Facts();
      var expired := ExpireLocked(now, false);
      credited := 0;
      var total: nat := 0;
      if guid in actors && actors[guid].online && actors[guid].autonomous {
        SameCredits(before, Facts(), guid, inputs);
        var raised;
        raised, total := RaiseCredits(guid, inputs);
        if total > 0 {
          credits := credits[guid := raised];
          InvalidateGapCache();
          credited := Bounded(total);
        }
      }
      changed := expired || total > 0;
      if changed {
        generation := generation + 1;
      }
    }

    method RecordConsumedInputs(guid: uint32, inputs: seq<DemandFact>, now: nat) returns (credited: uint32)
      requires Valid()
      modifies this
      ensures Valid() && Facts() == ConsumeInputs(old(Facts()), guid, inputs, now)
      ensures Credited(old(Facts()), guid, inputs) >= 0 && credited == Bounded(Credited(old(Facts()), guid, inputs))
      ensures generation >= old(generation)
      ensures generation == old(generation) ==> unchanged(this)
      ensures generation > old(generation) ==> UpToDate() && Follows(old(Registered()), Registered(), Facts(), now)
    {
      hide RegistryOk, FreshGaps, FreshConsumers, ConsumeInputs, Credited, Coherent, Sound, UpToDate, Alike, Follows,
        TotalsAt, Standing;
      var changed;
      credited, changed := CreditInputs(guid, inputs, now);
      if changed {
        Follow(now, old(Registered()));
      }
    }

    // ----- leases

    /** Turns a request away. A recorded refusal leaves a blocker row and an event on the gap's
        chain, unless the gap is merely satisfied. */
    method RejectLocked(blocker: Blocker, recorded: bool, r: LeaseRequest, now: nat) returns (result: LeaseResult)
      requires Sound()
      modifies `gapBlockers, `chains, `generation
      ensures Sound() && result == Refused(blocker, recorded)
      ensures generation >= old(generation)
      ensures generation == old(generation) ==> unchanged(this)
      ensures !LeavesRow(result, r) ==> unchanged(this)
      ensures LeavesRow(result, r) ==> gapBlockers == WithRow(old(gapBlockers), r.Key(), blocker, now)
      ensures LeavesRow(result, r) ==>
                chains == if r.Key() in activeChainIds then Blamed(old(chains), activeChainIds[r.Key()], r, blocker, now) else old(chains)
      ensures Alike(old(chains), chains)
    {
      hide Append, RegistryOk, HistoryOk, Alike;
      SameIsAlike(chains);
      result := Refused(blocker, recorded);
      if !recorded || r.Personal() || blocker.NoDemand? {
        return;
      }
      var changed := false;
      if r.Key() !in gapBlockers || gapBlockers[r.Key()].blocker != blocker {
        gapBlockers := gapBlockers[r.Key() := BlockerRow(blocker, now)];
        changed := true;
      }
      if r.Key() in activeChainIds {
        FindActive(Registered(), r.Key());
        var i := Find(chains, activeChainIds[r.Key()]);
        AppendIsAlike(chains, i, BlockedEvent(chains[i], r, blocker, now));
        AppendChainEvent(i, BlockedEvent(chains[i], r, blocker, now));
        changed := true;
      }
      if changed {
        generation := generation + 1;
      }
    }

    method PushClaim(r: LeaseRequest, chain: Option<nat>, quantity: uint32, now: nat) returns (claim: Claim)
      modifies `claims, `nextLeaseId
      ensures claims == old(claims) + [claim] && claim.terms.market == r.market && claim.terms.group == r.group
      ensures claim.Personal() <==> r.Personal()
      ensures (Facts(), Granted(claim)) == Grant(old(Facts()), r, chain, quantity, now)
    {
      claim := NewClaim(nextLeaseId, r, chain, quantity, now);
      nextLeaseId := nextLeaseId + 1;
      claims := claims + [claim];
    }

    /** Adds a claim, and tells its chain. */
    method TakeClaim(r: LeaseRequest, chain: Option<nat>, quantity: uint32, now: nat) returns (claim: Claim)
      requires Coherent() && Sound()
      modifies `claims, `nextLeaseId, `gapBlockers, `chains, `cachedGaps, `cachedConsumers, `gapCacheDirty, `chainsDirty
      ensures Coherent() && Sound() && chainsDirty && (Facts(), Granted(claim)) == Grant(old(Facts()), r, chain, quantity, now)
    {
      hide Enrolled, RegistryOk, FreshGaps, FreshConsumers, TotalsAt, Coherent, Sound, Grant, Tells, NewClaim;
      claim := PushClaim(r, chain, quantity, now);
      InvalidateGapCache();
      gapBlockers := gapBlockers - {r.Key()};
      AppendClaimEvent(claim, Claimed, Progress, now);
    }

    /** Leases part of a gap: the new claim counts from here on. */
    method Enroll(r: LeaseRequest, chain: Option<nat>, quantity: uint32, now: nat) returns (result: LeaseResult)
      requires Coherent() && Sound()
      modifies this
      ensures Coherent() && Sound() && !chainsDirty && (Facts(), result) == Grant(old(Facts()), r, chain, quantity, now)
      ensures UpToDate()
      ensures generation == old(generation) + 1
    {
      hide RegistryOk, FreshGaps, FreshConsumers, TotalsAt, UpToDate, Coherent, Sound, Grant, Follows, Alike, Standing;
      var claim := TakeClaim(r, chain, quantity, now);
      SameIsAlike(chains);
      Follow(now, Registered());
      generation := generation + 1;
      result := Granted(claim);
    }

    /** A personal purchase is reserved without a chain, and without touching the cache: no total
        depends on it. */
    method Reserve(r: LeaseRequest, now: nat) returns (result: LeaseResult)
      requires Coherent() && Sound() && r.Personal()
      modifies `claims, `nextLeaseId, `generation
      ensures Coherent() && Sound() && (Facts(), result) == Grant(old(Facts()), r, None, r.quantity, now)
      ensures generation == old(generation) + 1
      ensures (old(ChainsShowGaps()) ==> ChainsShowGaps()) && (old(BlockersStand()) ==> BlockersStand())
    {
      hide RegistryOk, FreshGaps, FreshConsumers, NewClaim, ShowGaps, NeedStands;
      ghost var before := Facts();
      var claim := PushClaim(r, None, r.quantity, now);
      PersonalLeaseLeavesCache(before, Facts(), claim);
      SameRowsShowGaps(chains, gapBlockers.Keys, before, Facts());
      generation := generation + 1;
      result := Granted(claim);
    }

    /** Grants what there is room for. When there is none, speculation released in vain still shows. */
    method GrantRoom(r: LeaseRequest, chain: Option<nat>, room: nat, released: bool, now: nat) returns (result: LeaseResult)
      requires Coherent() && Sound() && (released <==> chainsDirty)
      modifies this
      ensures Coherent() && Sound() && !chainsDirty && (Facts(), result) == GrantUpTo(old(Facts()), r, chain, room, now)
      ensures generation >= old(generation) && (released || room > 0 ==> generation > old(generation))
      ensures if room == 0 && !released then unchanged(this) else UpToDate()
    {
      hide RegistryOk, FreshGaps, FreshConsumers, TotalsAt, Coherent, Sound, UpToDate, NewClaim, Follows, Alike, Standing;
      if room == 0 {
        if released {
          SameIsAlike(chains);
          Follow(now, Registered());
          generation := generation + 1;
        }
        result := RejectLocked(NoDemand, true, r, now);
      } else {
        result := Enroll(r, chain, Bounded(Min(r.quantity, room)), now);
      }
    }

    /** Releases the speculation of a key and looks at the gap again. */
    method ClearSpeculation(key: GapKey, now: nat) returns (released: bool, totals: GapTotals)
      requires Coherent() && Sound() && !chainsDirty
      modifies `claims, `chains, `cachedGaps, `cachedConsumers, `gapCacheDirty, `chainsDirty
      ensures Coherent() && Sound()
      ensures Facts() == old(Facts()).(claims := SpeculationReleased(old(claims), key, now))
      ensures totals == TotalsAt(Facts(), key)
      ensures if released then chainsDirty && claims != old(claims) else unchanged(this)
    {
      hide RegistryOk, FreshGaps, FreshConsumers, TotalsAt, SpeculationReleased, Coherent, Alike;
      released := ReleaseSpeculationLocked(key, now);
      totals := GapAt(key);
    }

    method LeaseSpeculativePurchase(r: LeaseRequest, chain: Option<nat>, now: nat) returns (result: LeaseResult)
      requires Coherent() && Sound() && !chainsDirty
      modifies this
      ensures Coherent() && Sound() && !chainsDirty && (Facts(), result) == LeaseSpeculation(old(Facts()), r, chain, now)
      ensures generation >= old(generation)
      ensures if result.Refused? && claims == old(claims) then unchanged(this) else generation > old(generation) && UpToDate()
      ensures result.Refused? ==> result.blocker.NoDemand?
    {
      hide RegistryOk, FreshGaps, FreshConsumers, TotalsAt, NewClaim, Coherent, UpToDate;
      var totals := GapAt(r.Key());
      var guarded := Max(PurchaseNeed(totals), totals.purchase);
      result := GrantRoom(r, chain, Minus(totals.auction, guarded + totals.speculation), false, now);
    }

    method LeasePurchase(r: LeaseRequest, chain: Option<nat>, now: nat) returns (result: LeaseResult)
      requires Coherent() && Sound() && !chainsDirty
      modifies this
      ensures Coherent() && Sound() && !chainsDirty && (Facts(), result) == LeaseNeededPurchase(old(Facts()), r, chain, now)
      ensures generation >= old(generation)
      ensures if result.Refused? && claims == old(claims) then unchanged(this) else generation > old(generation) && UpToDate()
      ensures result.Refused? ==> result.blocker.NoDemand?
    {
      hide RegistryOk, FreshGaps, FreshConsumers, TotalsAt, NewClaim, Coherent, SpeculationReleased, UpToDate;
      var totals := GapAt(r.Key());
      var unclaimed := Minus(PurchaseNeed(totals), totals.purchase);
      var free := Minus(totals.auction, totals.purchase + totals.speculation);
      var released := false;
      if free < unclaimed && totals.speculation > 0 {
        released, totals := ClearSpeculation(r.Key(), now);
        free := Minus(totals.auction, totals.purchase);
      }
      result := GrantRoom(r, chain, Min(unclaimed, free), released, now);
    }

    method LeaseWork(r: LeaseRequest, chain: Option<nat>, now: nat) returns (result: LeaseResult)
      requires Coherent() && Sound() && !chainsDirty
      modifies this
      ensures Coherent() && Sound() && !chainsDirty
      ensures (Facts(), result) == LeaseProduction(old(Facts()), r, chain, now)
      ensures generation >= old(generation)
      ensures if result.Refused? && claims == old(claims) then unchanged(this) else generation > old(generation) && UpToDate()
      ensures result.Refused? ==> result.blocker.NoDemand?
    {
      hide RegistryOk, FreshGaps, FreshConsumers, TotalsAt, NewClaim, Coherent, SpeculationReleased, UpToDate;
      var totals := GapAt(r.Key());
      var remaining := UnclaimedNeed(totals);
      var released := false;
      if remaining == 0 && !r.priority.Speculation? {
        released, totals := ClearSpeculation(r.Key(), now);
        remaining := UnclaimedNeed(totals);
      }
      result := GrantRoom(r, chain, remaining, released, now);
    }

    /** Serves a request with the chain on offer. A request in vain leaves everything as it is. */
    method ServeOffer(r: LeaseRequest, chain: Option<nat>, now: nat) returns (result: LeaseResult)
      requires Coherent() && Sound() && !chainsDirty && (chain.Some? || r.priority.Speculation?)
      modifies this
      ensures Coherent() && Sound() && !chainsDirty && (Facts(), result) == LeaseShared(old(Facts()), r, chain, now)
      ensures generation >= old(generation)
      ensures if AsksInVain(old(Facts()), r, now) then unchanged(this) else generation > old(generation) && UpToDate()
    {
      hide RegistryOk, FreshGaps, FreshConsumers, TotalsAt, Coherent, Sound, LeaseProduction, LeaseSpeculation, LeaseNeededPurchase,
        UpToDate, AsksInVain;
      RefusedInVainIff(Facts(), r, chain, now);
      if !r.kind.Purchase? {
        result := LeaseWork(r, chain, now);
      } else if r.priority.Speculation? {
        result := LeaseSpeculativePurchase(r, chain, now);
      } else {
        result := LeasePurchase(r, chain, now);
      }
    }

    /** Serves a request from the shared gap. If the figures of all chains were right they still are, unless
        the gap is given a chain and the request is in vain. If all blocker rows stood they still do, unless
        the gap needs nothing and there is no chain for it. */
    method LeaseFromGap(r: LeaseRequest, now: nat) returns (result: LeaseResult)
      requires Coherent() && Sound() && !chainsDirty && !r.Personal()
      modifies this
      ensures Coherent() && Sound() && !chainsDirty
      ensures var hasDemand := TotalsAt(old(Facts()), r.Key()).demand > 0;
              && (Facts(), result) == LeaseShared(old(Facts()), r, Offer(old(Registered()), r.Key(), hasDemand), now)
              && (old(ChainsShowGaps()) ==>
                    (ChainsShowGaps() <==>
                     !(StartsChain(old(Registered()), r.Key(), hasDemand) && AsksInVain(old(Facts()), r, now))))
              && (old(BlockersStand()) ==>
                    (BlockersStand() <==>
                     !(Offer(old(Registered()), r.Key(), hasDemand).None? && !r.priority.Speculation? &&
                       UnclaimedNeed(TotalsAt(old(Facts()), r.Key())) == 0)))
      ensures generation >= old(generation)
      ensures generation == old(generation) ==> Facts() == old(Facts())
    {
      hide RegistryOk, FreshGaps, FreshConsumers, TotalsAt, Coherent, LeaseProduction, LeaseSpeculation, LeaseNeededPurchase,
        ShowGaps, NeedStands, Started, Roomy, Full, Alike, Entered, AsksInVain;
      var totals := GapAt(r.Key());
      if StartsChain(Registered(), r.Key(), totals.demand != 0) {
        StartedBreaksShow(Registered(), Facts(), r.Key(), now);
      }
      var found := EnsureChain(r.Key(), now, totals.demand != 0);
      if found.None? && !r.priority.Speculation? {
        result := Turn(Refused(Capacity, true), r, now);
      } else {
        result := ServeOffer(r, found, now);
      }
    }

    /** Answers a request once the call has caught up. */
    method Answer(r: LeaseRequest, now: nat, verdict: Blocker) returns (result: LeaseResult)
      requires Coherent() && Sound() && !chainsDirty
      modifies this
      ensures Coherent() && Sound() && !chainsDirty
      ensures var was := old(Facts());
              var hasDemand := TotalsAt(was, r.Key()).demand > 0;
              && (Facts(), result) == Answered(was, r, now, verdict, Offer(old(Registered()), r.Key(), hasDemand))
              && (old(ChainsShowGaps()) ==>
                    (ChainsShowGaps() <==>
                     !(Served(was, r, now, verdict) && StartsChain(old(Registered()), r.Key(), hasDemand) && AsksInVain(was, r, now))))
              && (old(BlockersStand()) ==>
                    (BlockersStand() <==>
                     !(WillLeaveRow(was, r, now, verdict, Offer(old(Registered()), r.Key(), hasDemand)) &&
                       UnclaimedNeed(TotalsAt(was, r.Key())) == 0)))
      ensures generation >= old(generation)
      ensures generation == old(generation) ==> Facts() == old(Facts())
    {
      hide RegistryOk, FreshGaps, FreshConsumers, TotalsAt, Coherent, Sound, ChainsShowGaps, BlockersStand, Screen,
        LeaseShared, Offer,
        StartsChain, AsksInVain;
      match Screen(Book(actors, markets, credits, claims, nextLeaseId), r, now, verdict) {
        case Some(refusal) =>
          ScreenRefuses(Facts(), r, now, verdict);
          result := Turn(refusal, r, now);
        case None =>
          if r.Personal() {
            result := Reserve(r, now);
          } else {
            result := LeaseFromGap(r, now);
          }
      }
    }

    /** `caught` is the registry once the call has caught up with what was due. Told from there: if the figures
        of all chains were right they still are, unless the request passes the checks, its gap is given a
        chain, and it asks in vain. If all blocker rows stood they still do, unless the request is refused
        with a row, by a check or for want of a chain, and its gap needs nothing. */
    method Lease(r: LeaseRequest, now: nat, verdict: Blocker) returns (result: LeaseResult, ghost caught: Registry)
      requires Valid()
      modifies this
      ensures Valid()
      ensures if old(DueSync(now)) then Follows(old(Registered()), caught, Tick(old(Facts()), now), now) else caught == old(Registered())
      ensures var ticked := Tick(old(Facts()), now);
              var hasDemand := TotalsAt(ticked, r.Key()).demand > 0;
              && (Facts(), result) == Steps.Lease(old(Facts()), r, now, verdict, Offer(caught, r.Key(), hasDemand))
              && (old(ChainsShowGaps() || DueSync(now)) ==>
                    (ChainsShowGaps() <==>
                     !(Served(ticked, r, now, verdict) && StartsChain(caught, r.Key(), hasDemand) && AsksInVain(ticked, r, now))))
              && (old(BlockersStand() || DueSync(now)) ==>
                    (BlockersStand() <==>
                     !(WillLeaveRow(ticked, r, now, verdict, Offer(caught, r.Key(), hasDemand)) &&
                       UnclaimedNeed(TotalsAt(ticked, r.Key())) == 0)))
      ensures generation >= old(generation)
      ensures generation == old(generation) ==> Facts() == old(Facts())
    {
      hide RegistryOk, FreshGaps, FreshConsumers, TotalsAt, Coherent, Sound, ChainsShowGaps, BlockersStand, DueSync,
        Answered, Follows,
        Offer, StartsChain, Served, WillLeaveRow, AsksInVain, Tick;
      Catchup(now);
      caught := Registered();
      result := Answer(r, now, verdict);
    }

    method Turn(refusal: LeaseResult, r: LeaseRequest, now: nat) returns (result: LeaseResult)
      requires Sound() && refusal.Refused?
      modifies `gapBlockers, `chains, `generation
      ensures Sound() && result == refusal
      ensures generation >= old(generation)
      ensures old(ChainsShowGaps()) ==> ChainsShowGaps()
      ensures old(BlockersStand()) ==>
                (BlockersStand() <==> !(LeavesRow(result, r) && UnclaimedNeed(TotalsAt(Facts(), r.Key())) == 0))
    {
      hide RegistryOk, TotalsAt, ShowGaps, Alike;
      ghost var before := chains;
      result := RejectLocked(refusal.blocker, refusal.recorded, r, now);
      if old(ChainsShowGaps()) {
        AlikeShowGaps(before, chains, Facts());
      }
    }

    // ----- an actor's production claims, and the gaps left to fill

    /** Keeps the first claim the actor can go on with and settles its other production claims. */
    method SettleUnavailable(r: ProductionRequest, now: nat) returns (kept: nat, changed: bool)
      requires Coherent() && Sound() && !chainsDirty
      modifies `claims, `chains, `cachedGaps, `cachedConsumers, `gapCacheDirty, `chainsDirty
      ensures Coherent() && Sound()
      ensures kept == FirstRenewable(old(Facts()), r, |old(claims)|) && |claims| == |old(claims)|
      ensures forall j | 0 <= j < |claims| ::
                claims[j] == if j == kept then old(claims)[j] else RenewOne(old(Facts()), r, j, now)
      ensures changed <==> claims != old(claims)
      ensures changed ==> chainsDirty
      ensures !changed ==> unchanged(this)
    {
      hide Enrolled, RegistryOk, FreshGaps, FreshConsumers, Settle, Coherent, Sound, StillAvailable, FirstRenewable, RenewOne,
        Renewable, Alike, Tells,
        TotalsAt, ProductionOf;
      ghost var before := Facts();
      changed := false;
      kept := |claims|;
      for i := 0 to |claims|
        invariant |claims| == |before.claims| && Sound() && Coherent()
        invariant kept == if FirstRenewable(before, r, i) < i then FirstRenewable(before, r, i) else |claims|
        invariant forall j | 0 <= j < i ::
                    claims[j] == if j == kept then before.claims[j] else RenewOne(before, r, j, now)
        invariant forall j | i <= j < |claims| :: claims[j] == before.claims[j]
        invariant changed ==> chainsDirty && exists j :: 0 <= j < i && claims[j] != before.claims[j]
        invariant !changed ==> unchanged(this)
      {
        RenewStep(before, r, i, now);
        if ProductionOf(claims[i], r.actor) {
          AvailableAlike(before, r, claims[i]);
          var available := StillAvailable(Book(actors, markets, credits, claims, nextLeaseId), r, claims[i]);
          if kept == |claims| && available {
            kept := i;
          } else {
            var settled := ApplyOutcome(i, if available then NeedChanged else CapabilityLost, claims[i].committed, now);
            changed := settled || changed;
          }
        }
      }
    }

    lemma AvailableAlike(before: Book, r: ProductionRequest, c: Claim)
      requires actors == before.actors
      ensures StillAvailable(Facts(), r, c) == StillAvailable(before, r, c)
    {
    }

    method RenewKept(r: ProductionRequest, now: nat) returns (kept: nat, changed: bool, renewed: bool)
      requires Coherent() && Sound() && !chainsDirty
      modifies `claims, `chains, `cachedGaps, `cachedConsumers, `gapCacheDirty, `chainsDirty
      ensures Coherent() && Sound() && claims == Renewed(old(Facts()), r, now)
      ensures |claims| == |old(claims)| && kept == FirstRenewable(old(Facts()), r, |old(claims)|)
      ensures changed || renewed || (Facts() == old(Facts()) && !chainsDirty)
      ensures !changed ==> !chainsDirty
      ensures changed ==> chainsDirty
      ensures !changed && old(UpToDate()) ==> UpToDate()
    {
      hide RegistryOk, FreshGaps, FreshConsumers, Coherent, Sound, UpToDate, StillAvailable, Settle;
      ghost var before := Facts();
      kept, changed := SettleUnavailable(r, now);
      renewed := kept < |claims| && claims[kept].expiresAt != r.expiresAt;
      if renewed {
        RenewExpiry(kept, r.expiresAt);
      }
      assert kept < |claims| ==> claims[kept] == RenewOne(before, r, kept, now);
      hide RenewOne;
    }

    /** Renews the claim the actor keeps and settles the others; the chains follow. */
    method RenewHeld(r: ProductionRequest, now: nat) returns (retained: Option<Claim>)
      requires Coherent() && Sound() && !chainsDirty
      modifies this
      ensures Coherent() && Sound() && !chainsDirty && Facts() == old(Facts()).(claims := Renewed(old(Facts()), r, now))
      ensures |claims| == |old(claims)|
      ensures var first := FirstRenewable(old(Facts()), r, |old(claims)|);
              retained == if first < |claims| then Some(claims[first]) else None
      ensures generation >= old(generation)
      ensures generation == old(generation) ==> Facts() == old(Facts())
      ensures old(UpToDate()) ==> UpToDate()
    {
      hide RegistryOk, FreshGaps, FreshConsumers, Coherent, Sound, UpToDate, Renewed, FirstRenewable, SyncedRegistry,
        TotalsAt, Standing;
      var kept, changed, renewed := RenewKept(r, now);
      if changed || renewed {
        SyncChains(now);
        if changed {
          ReconcileCapabilityBlockers();
        }
        generation := generation + 1;
      }
      retained := if kept < |claims| then Some(claims[kept]) else None;
    }

    /** The locked part of a production assignment: the claim the actor keeps, if any, is renewed. */
    method RenewProduction(r: ProductionRequest, now: nat) returns (retained: Option<Claim>)
      requires Valid()
      modifies this
      ensures Valid() && Facts() == Steps.RenewProduction(old(Facts()), r, now)
      ensures retained == Retained(old(Facts()), r, now)
      ensures generation >= old(generation)
      ensures generation == old(generation) ==> Facts() == old(Facts())
      ensures old(UpToDate()) ==> UpToDate()
    {
      hide RegistryOk, FreshGaps, FreshConsumers, Expired, Coherent, Sound, UpToDate, Follows, DueSync, Renewed,
        FirstRenewable;
      retained := None;
      if r.actor == 0 || r.market == 0 || r.expiresAt <= now {
        return;
      }
      Catchup(now);
      retained := RenewHeld(r, now);
    }

    /** No total depends on when a claim expires, so the cache stands. */
    method RenewExpiry(i: nat, expiresAt: nat)
      requires Coherent() && Sound() && i < |claims|
      modifies `claims
      ensures Coherent() && Sound() && claims == old(claims)[i := old(claims)[i].(expiresAt := expiresAt)]
      ensures old(UpToDate()) ==> UpToDate()
    {
      hide RegistryOk, FreshGaps, FreshConsumers, ShowGaps, NeedStands;
      ghost var before := Facts();
      claims := claims[i := claims[i].(expiresAt := expiresAt)];
      ExpiryLeavesCache(before, Facts(), i, expiresAt);
      SameRowsShowGaps(chains, gapBlockers.Keys, before, Facts());
    }

    /** The gaps of a snapshot: one row per key with demand, in key order, figures cut to 32 bits. */
    method SnapshotGaps(now: nat) returns (gaps: seq<DemandGap>)
      requires Valid()
      modifies this
      ensures Valid() && Facts() == Tick(old(Facts()), now)
      ensures Listed(Facts(), gaps)
      ensures old(UpToDate()) ==> UpToDate()
    {
      hide RegistryOk, FreshGaps, FreshConsumers, Expired, TotalsAt, UpToDate, Follows;
      Catchup(now);
      CalculateGaps();
      gaps := ListGaps();
    }

    method ListGaps() returns (gaps: seq<DemandGap>)
      requires Coherent() && !gapCacheDirty
      ensures Listed(Facts(), gaps)
    {
      hide FreshConsumers, TotalsAt, Touched;
      gaps := [];
      var todo := cachedGaps.Keys;
      while todo != {}
        invariant todo <= cachedGaps.Keys
        invariant forall i | 0 <= i < |gaps| :: GapRow(Facts(), gaps[i].key, gaps[i])
        invariant forall k | k in cachedGaps && k !in todo && cachedGaps[k].demand > 0 :: HasRow(gaps, k)
        invariant forall i, j | 0 <= i < j < |gaps| :: Before(gaps[i].key, gaps[j].key)
        invariant forall i, k | 0 <= i < |gaps| && k in todo :: Before(gaps[i].key, k)
      {
        FirstKeyExists(todo);
        var key :| key in todo && FirstKey(key, todo);
        todo := todo - {key};
        var t := cachedGaps[key];
        ghost var before := gaps;
        if t.demand > 0 {
          gaps := gaps + [DemandGap(key, Bounded(t.demand), Bounded(t.supply), Bounded(t.claimed), Bounded(UnclaimedNeed(t)))];
          assert gaps[|before|].key == key;
          RowsStay(before, gaps);
        }
      }
      forall k | TotalsAt(Facts(), k).demand > 0
        ensures HasRow(gaps, k)
      {
        RowIsTotal(Facts(), k);
      }
    }
  }

  /** The chain of a claim is still on the books. */
  predicate Enrolled(c: Claim, chains: seq<Chain>)
  {
    c.terms.chain.Some? && Find(chains, c.terms.chain.value) < |chains|
  }

  /** Whether the cache is dirty once what is overdue of the first n claims has lapsed: each lapse dirties
      it, and telling a chain of the claim rebuilds it. */
  predicate DirtyAfterLapse(claims: seq<Claim>, chains: seq<Chain>, now: nat, dirty: bool, n: nat)
    requires n <= |claims|
  {
    if n == 0 then dirty
    else if Overdue(claims[n - 1], now) then !Enrolled(claims[n - 1], chains)
    else DirtyAfterLapse(claims, chains, now, dirty, n - 1)
  }

  predicate DirtyAfterExpiry(claims: seq<Claim>, chains: seq<Chain>, now: nat, dirty: bool)
  {
    |Expired(claims, now)| < |claims| || DirtyAfterLapse(claims, chains, now, dirty, |claims|)
  }

  lemma LapsedLength(claims: seq<Claim>, now: nat)
    ensures |Lapsed(claims, now)| == |claims|
  {
  }

  lemma LapseChanges(c: Claim, now: nat)
    ensures Overdue(c, now) ==> Lapse(c, now) != c
    ensures Lapse(c, now).terms == c.terms
  {
  }

  lemma AlikeEnrolls(a: seq<Chain>, b: seq<Chain>, c: Claim, d: Claim)
    requires Alike(a, b) && c.terms == d.terms
    ensures Enrolled(c, a) <==> Enrolled(d, b)
  {
    if Enrolled(c, a) {
      var i := Find(a, c.terms.chain.value);
      assert SameButHistory(a[i], b[i]);
    }
    if Enrolled(d, b) {
      var i := Find(b, d.terms.chain.value);
      assert SameButHistory(a[i], b[i]);
    }
  }

  /** A row keeps the time since which the same blocker has stood. */
  function WithRow(rows: map<GapKey, BlockerRow>, k: GapKey, blocker: Blocker, now: nat): map<GapKey, BlockerRow>
  {
    if k in rows && rows[k].blocker == blocker then rows else rows[k := BlockerRow(blocker, now)]
  }

  function BlockedEvent(chain: Chain, r: LeaseRequest, blocker: Blocker, now: nat): ChainEvent
  {
    ChainEvent(0, now, r.actor, Stage.Blocked, ChainOutcome.Blocked, r.kind, Committed, blocker, r.quantity, chain.remaining, r.work)
  }

  /** The chains once one of them has been told of a refusal. */
  function Blamed(chains: seq<Chain>, id: nat, r: LeaseRequest, blocker: Blocker, now: nat): seq<Chain>
  {
    var i := Find(chains, id);
    if i == |chains| then chains else chains[i := Append(chains[i], BlockedEvent(chains[i], r, blocker, now))]
  }

  /** A refusal is noted at its gap, with the time since which the same reason has stood there, and told to the
      gap's chain: who was refused what, and why. Other rows and chains are left alone. */
  lemma RefusalIsNoted(rows: map<GapKey, BlockerRow>, chains: seq<Chain>, id: nat, r: LeaseRequest, blocker: Blocker, now: nat, i: nat)
    requires i < |chains| && forall a, b | 0 <= a < b < |chains| :: chains[a].id != chains[b].id
    ensures var noted := WithRow(rows, r.Key(), blocker, now);
            && noted.Keys == rows.Keys + {r.Key()} && noted[r.Key()].blocker == blocker
            && noted[r.Key()].firstObservedAt ==
                 (if r.Key() in rows && rows[r.Key()].blocker == blocker then rows[r.Key()].firstObservedAt else now)
            && forall k | k in rows && k != r.Key() :: noted[k] == rows[k]
    ensures var told := Blamed(chains, id, r, blocker, now);
            && |told| == |chains|
            && if chains[i].id != id then told[i] == chains[i]
               else
                 && told[i].totalHistory == chains[i].totalHistory + 1 && told[i].history != []
                 && told[i].history[|told[i].history| - 1] ==
                      ChainEvent(chains[i].totalHistory + 1, now, r.actor, Stage.Blocked, ChainOutcome.Blocked, r.kind, Committed, blocker,
                                 r.quantity, chains[i].remaining, r.work)
  {
    var at := Find(chains, id);
    if at < |chains| && at != i {
      assert chains[at].id != chains[i].id;
    }
  }

  lemma AppendIsAlike(chains: seq<Chain>, i: nat, event: ChainEvent)
    requires i < |chains|
    ensures Alike(chains, chains[i := Append(chains[i], event)])
  {
  }

  /** The request passes every check that comes before the shared gap is looked at. */
  predicate Served(b: Book, r: LeaseRequest, now: nat, verdict: Blocker)
  {
    !r.Personal() && Screen(b, r, now, verdict).None?
  }

  predicate OpenAt(claims: seq<Claim>, leaseId: nat)
  {
    LeaseIndex(claims, leaseId) < |claims| && claims[LeaseIndex(claims, leaseId)].state.Leased?
  }

  datatype DemandGap = DemandGap(key: GapKey, demand: uint32, supply: uint32, claimed: uint32, remaining: uint32)

  /** A snapshot row tells the true totals of a key with demand, up to 32 bits. */
  ghost predicate GapRow(b: Book, k: GapKey, gap: DemandGap)
  {
    var t := TotalsAt(b, k);
    t.demand > 0 && gap == DemandGap(k, Bounded(t.demand), Bounded(t.supply), Bounded(t.claimed), Bounded(UnclaimedNeed(t)))
  }

  predicate HasRow(gaps: seq<DemandGap>, k: GapKey)
  {
    exists i :: 0 <= i < |gaps| && gaps[i].key == k
  }

  /** Exactly one row for every key with demand, in key order. */
  ghost predicate Listed(b: Book, gaps: seq<DemandGap>)
  {
    && (forall i | 0 <= i < |gaps| :: GapRow(b, gaps[i].key, gaps[i]))
    && (forall k | TotalsAt(b, k).demand > 0 :: HasRow(gaps, k))
    && (forall i, j | 0 <= i < j < |gaps| :: Before(gaps[i].key, gaps[j].key))
  }

  lemma RowsStay(gaps: seq<DemandGap>, more: seq<DemandGap>)
    requires gaps <= more
    ensures forall k | HasRow(gaps, k) :: HasRow(more, k)
  {
    forall k | HasRow(gaps, k)
      ensures HasRow(more, k)
    {
      var i :| 0 <= i < |gaps| && gaps[i].key == k;
      assert more[i].key == k;
    }
  }

  /** The production claim a renewal leaves with the actor. */
  function Retained(b: Book, r: ProductionRequest, now: nat): Option<Claim>
  {
    if !ValidProductionRequest(r, now) then None
    else
      var ticked := Tick(b, now);
      var first := FirstRenewable(ticked, r, |ticked.claims|);
      if first < |ticked.claims| then Some(Renewed(ticked, r, now)[first]) else None
  }

  /** How one claim is renewed, told from the claims before it. */
  lemma RenewStep(b: Book, r: ProductionRequest, i: nat, now: nat)
    requires i < |b.claims|
    ensures var c, soFar, next := b.claims[i], FirstRenewable(b, r, i), FirstRenewable(b, r, i + 1);
            if ProductionOf(c, r.actor) && soFar == i && StillAvailable(b, r, c) then next == i
            else
              && next == (if soFar < i then soFar else i + 1)
              && RenewOne(b, r, i, now) == if !ProductionOf(c, r.actor) then c
                 else Settle(c, if StillAvailable(b, r, c) then NeedChanged else CapabilityLost, c.committed, now)
  {
    hide Settle, StillAvailable;
    FirstSoFar(b, r, i);
    FirstStays(b, r, i + 1, |b.claims|);
    hide FirstRenewable;
  }

  lemma FirstSoFar(b: Book, r: ProductionRequest, i: nat)
    requires i < |b.claims|
    ensures var first, next := FirstRenewable(b, r, i), FirstRenewable(b, r, i + 1);
            if first < i then next == first else if Renewable(b, r, b.claims[i]) then next == i else next == i + 1
  {
  }

  lemma FirstStays(b: Book, r: ProductionRequest, i: nat, n: nat)
    requires i <= n <= |b.claims|
    ensures var first := FirstRenewable(b, r, n);
            if FirstRenewable(b, r, i) < i then first == FirstRenewable(b, r, i) else first >= i
  {
    hide Renewable;
  }

  lemma ExpiryLeavesCache(b: Book, after: Book, i: nat, expiresAt: nat)
    requires i < |b.claims| && after == b.(claims := b.claims[i := b.claims[i].(expiresAt := expiresAt)])
    ensures FreshGaps(after) == FreshGaps(b) && FreshConsumers(after) == FreshConsumers(b)
  {
    hide TotalsAt, Consumers, AscendingGuids, Touched;
    ExpiryTouchesNothing(b, after, i, expiresAt);
    forall k
      ensures TotalsAt(after, k) == TotalsAt(b, k)
    {
      ExpiryMovesNoTotal(b, after, i, expiresAt, k);
    }
    assert forall k :: ConsumersOf(after, k) == ConsumersOf(b, k);
    hide ConsumersOf;
  }

  lemma ExpiryTouchesNothing(b: Book, after: Book, i: nat, expiresAt: nat)
    requires i < |b.claims| && after == b.(claims := b.claims[i := b.claims[i].(expiresAt := expiresAt)])
    ensures Touched(after) == Touched(b)
  {
    hide ActorsKeys, MarketsKeys;
    forall c | c in b.claims && !c.Personal()
      ensures c.Key() in ClaimKeys(after.claims)
    {
      var j :| 0 <= j < |b.claims| && b.claims[j] == c;
      assert after.claims[j] in after.claims && after.claims[j].terms == c.terms;
    }
    assert b.claims[i] in b.claims;
    assert ClaimKeys(after.claims) == ClaimKeys(b.claims);
  }

  lemma ExpiryMovesNoTotal(b: Book, after: Book, i: nat, expiresAt: nat, k: GapKey)
    requires i < |b.claims| && after == b.(claims := b.claims[i := b.claims[i].(expiresAt := expiresAt)])
    ensures TotalsAt(after, k) == TotalsAt(b, k)
  {
    ClaimTotalsUpdate(b.claims, i, after.claims[i], k);
    hide ClaimTotals;
  }

  function BridgedOne(claims: seq<Claim>, i: nat, facts: ActorFacts): Claim
    requires i < |claims|
  {
    claims[i].(bridged := Minus(claims[i].bridged, BridgeSpent(claims, i, facts)))
  }

  /** What is left of the report once the first n bridges have had their share. */
  ghost predicate LeftFor(available: map<Group, nat>, claims: seq<Claim>, n: nat, facts: ActorFacts)
    requires n <= |claims|
  {
    forall g :: Entry(available, g) ==
                Minus(Reported(facts.supplies, g), BridgeTotal(claims[..n], facts.guid, facts.market, g))
  }

  lemma NoBridges(claims: seq<Claim>, facts: ActorFacts)
    ensures forall g :: BridgeTotal(claims[..0], facts.guid, facts.market, g) == 0
  {
  }

  lemma AllBridged(before: seq<Claim>, claims: seq<Claim>, facts: ActorFacts)
    requires |claims| == |before| && forall j | 0 <= j < |claims| :: claims[j] == BridgedOne(before, j, facts)
    ensures claims == Bridged(before, facts)
  {
    hide BridgeSpent;
  }

  lemma RowsAreTotals(b: Book)
    ensures forall k :: At(FreshGaps(b), k) == TotalsAt(b, k)
  {
    forall k
      ensures At(FreshGaps(b), k) == TotalsAt(b, k)
    {
      RowIsTotal(b, k);
    }
  }

  lemma FreshGapsKeys(b: Book)
    ensures FreshGaps(b).Keys == Touched(b)
  {
    hide Touched, TotalsAt;
  }

  /** A group's credit while the groups in `todo` wait to be raised. */
  ghost predicate RaisedAt(b: Book, guid: uint32, inputs: seq<DemandFact>, todo: set<Group>, raised: map<Group, uint32>, g: Group)
    requires guid in b.actors
  {
    var held := HeldCredits(b, guid);
    if g !in todo && g in InputGroups(inputs) && Raises(b, guid, inputs, g)
    then g in raised && raised[g] == RaisedCredit(b, guid, inputs, g)
    else (g in raised <==> g in held) && (g in held ==> raised[g] == held[g])
  }

  lemma NoneRaised(b: Book, guid: uint32, inputs: seq<DemandFact>, todo: set<Group>)
    requires guid in b.actors && todo == InputGroups(inputs)
    ensures forall g :: RaisedAt(b, guid, inputs, todo, HeldCredits(b, guid), g)
  {
    hide DemandSum, SupplySum;
  }

  lemma PriorCredit(b: Book, guid: uint32, inputs: seq<DemandFact>, todo: set<Group>, raised: map<Group, uint32>, group: Group)
    requires guid in b.actors && group in todo && RaisedAt(b, guid, inputs, todo, raised, group)
    ensures CreditOf(b.credits, guid, group) == if group in raised then raised[group] else 0
  {
    hide DemandSum, SupplySum;
  }

  lemma RaisedNext(b: Book, guid: uint32, inputs: seq<DemandFact>, todo: set<Group>, raised: map<Group, uint32>,
                   next: map<Group, uint32>, group: Group)
    requires guid in b.actors && group in todo && todo <= InputGroups(inputs)
    requires forall g :: RaisedAt(b, guid, inputs, todo, raised, g)
    requires next == if Raises(b, guid, inputs, group) then raised[group := RaisedCredit(b, guid, inputs, group)] else raised
    ensures forall g :: RaisedAt(b, guid, inputs, todo - {group}, next, g)
  {
    hide DemandSum, SupplySum, Raises, RaisedCredit, HeldCredits;
    forall g
      ensures RaisedAt(b, guid, inputs, todo - {group}, next, g)
    {
      assert RaisedAt(b, guid, inputs, todo, raised, g);
    }
  }

  lemma AllRaised(b: Book, guid: uint32, inputs: seq<DemandFact>, raised: map<Group, uint32>)
    requires guid in b.actors
    requires forall g :: RaisedAt(b, guid, inputs, {}, raised, g)
    ensures raised == RaisedCredits(b, guid, inputs)
  {
    hide DemandSum, SupplySum, Raises, RaisedCredit, HeldCredits;
    var expected := RaisedCredits(b, guid, inputs);
    forall g
      ensures g in raised <==> g in expected
      ensures g in expected ==> raised[g] == expected[g]
    {
      assert RaisedAt(b, guid, inputs, {}, raised, g);
    }
  }

  lemma SameCredits(b: Book, ticked: Book, guid: uint32, inputs: seq<DemandFact>)
    requires ticked == b.(claims := ticked.claims) && guid in b.actors
    ensures RaisedCredits(ticked, guid, inputs) == RaisedCredits(b, guid, inputs)
    ensures HeldCredits(ticked, guid) == HeldCredits(b, guid)
  {
    hide DemandSum, SupplySum;
    assert forall g :: RaisedCredit(ticked, guid, inputs, g) == RaisedCredit(b, guid, inputs, g);
    assert forall g :: Raises(ticked, guid, inputs, g) == Raises(b, guid, inputs, g);
    hide RaisedCredit, Raises;
  }

  /** Why a personal lease needs no invalidation. */
  lemma PersonalLeaseLeavesCache(b: Book, after: Book, claim: Claim)
    requires after == b.(claims := b.claims + [claim], nextLeaseId := after.nextLeaseId) && claim.Personal()
    ensures FreshGaps(after) == FreshGaps(b) && FreshConsumers(after) == FreshConsumers(b)
  {
    hide TotalsAt, Consumers, AscendingGuids, Touched;
    PersonalTouchesNothing(b, after, claim);
    forall k
      ensures TotalsAt(after, k) == TotalsAt(b, k)
    {
      PersonalAddsNothing(b, after, claim, k);
    }
    assert forall k :: ConsumersOf(after, k) == ConsumersOf(b, k);
    hide ConsumersOf;
  }

  lemma PersonalTouchesNothing(b: Book, after: Book, claim: Claim)
    requires after == b.(claims := b.claims + [claim], nextLeaseId := after.nextLeaseId) && claim.Personal()
    ensures Touched(after) == Touched(b)
  {
    hide ActorsKeys, MarketsKeys;
    assert ClaimKeys(after.claims) == ClaimKeys(b.claims);
  }

  lemma PersonalAddsNothing(b: Book, after: Book, claim: Claim, k: GapKey)
    requires after == b.(claims := b.claims + [claim], nextLeaseId := after.nextLeaseId) && claim.Personal()
    ensures TotalsAt(after, k) == TotalsAt(b, k)
  {
    ClaimTotalsAppend(b.claims, claim, k);
    hide ClaimTotals;
  }

  lemma SameIsAlike(chains: seq<Chain>)
    ensures Alike(chains, chains)
  {
  }

  lemma TrimNothing(claims: seq<Claim>, gaps: map<GapKey, GapTotals>, now: nat)
    ensures TrimKeys(claims, [], gaps, now) == claims
  {
  }
}
